/** Evaluation of an expression tree: the meaning of a tree for a deterministic resolver,
    and the evaluator object whose cache asks the resolver once per referenced tag. */
module ExpressionEvaluation {
  import opened Identifiers
  import opened Expression
  import opened TagValues

  datatype Value = BooleanValue(boolean: bool) | NumberValue(number: real)

  datatype EvaluationError = EvaluationFailed | ReferenceFailed

  datatype Outcome = Ok(value: Value) | Error(error: EvaluationError)

  /** The result of rounding an exact real to the machine format: a finite number or none. */
  type Rounding = real -> Option<real>

  type Resolver = Uuid -> Option<Scalar>

  /** A resolved and normalised reference: only booleans and finite numbers are usable. */
  function Lookup(resolver: Resolver, id: Uuid): Outcome {
    match resolver(id)
    case Some(BooleanScalar(b)) => Ok(BooleanValue(b))
    case Some(NumberScalar(n)) => Ok(NumberValue(n))
    case _ => Error(ReferenceFailed)
  }

  function ApplyUnary(op: Operator, value: Value): Outcome {
    match op
    case Not => if value.BooleanValue? then Ok(BooleanValue(!value.boolean)) else Error(EvaluationFailed)
    case Plus => if value.NumberValue? then Ok(value) else Error(EvaluationFailed)
    case Minus => if value.NumberValue? then Ok(NumberValue(-value.number)) else Error(EvaluationFailed)
    case _ => Error(EvaluationFailed)
  }

  function Round(rounding: Rounding, exact: real): Outcome {
    match rounding(exact)
    case Some(n) => Ok(NumberValue(n))
    case None => Error(EvaluationFailed)
  }

  /** The remainder with the sign of the dividend. */
  function Remainder(x: real, y: real): real
    requires y != 0.0
  {
    var quotient := x / y;
    x - y * (if quotient < 0.0 then -((-quotient).Floor as real) else quotient.Floor as real)
  }

  /** The exact result of an arithmetic operator, where there is one. */
  function Exact(op: Operator, x: real, y: real): real
    requires op in {Plus, Minus, Times} || (op in {Divide, Modulo} && y != 0.0)
  {
    match op
    case Plus => x + y
    case Minus => x - y
    case Times => x * y
    case Divide => x / y
    case _ => Remainder(x, y)
  }

  /** The operators that need both operands; And and Or are handled by the evaluators. */
  function ApplyBinary(rounding: Rounding, op: Operator, left: Value, right: Value): Outcome {
    if op == Equal || op == NotEqual then
      if left.BooleanValue? != right.BooleanValue? then Error(EvaluationFailed)
      else Ok(BooleanValue((left == right) == (op == Equal)))
    else if !left.NumberValue? || !right.NumberValue? then Error(EvaluationFailed)
    else
      var x, y := left.number, right.number;
      match op
      case Plus => Round(rounding, Exact(op, x, y))
      case Minus => Round(rounding, Exact(op, x, y))
      case Times => Round(rounding, Exact(op, x, y))
      case Divide => if y == 0.0 then Error(EvaluationFailed) else Round(rounding, Exact(op, x, y))
      case Modulo => if y == 0.0 then Error(EvaluationFailed) else Round(rounding, Exact(op, x, y))
      case Less => Ok(BooleanValue(x < y))
      case LessEqual => Ok(BooleanValue(x <= y))
      case Greater => Ok(BooleanValue(x > y))
      case GreaterEqual => Ok(BooleanValue(x >= y))
      case _ => Error(EvaluationFailed)
  }

  /** The meaning of a tree, without a cache. */
  function Meaning(rounding: Rounding, resolver: Resolver, tree: Tree): Outcome {
    match tree
    case Number(n) => Ok(NumberValue(n))
    case Boolean(b) => Ok(BooleanValue(b))
    case Reference(id) => Lookup(resolver, id)
    case Unary(op, operand) =>
      var value := Meaning(rounding, resolver, operand);
      if value.Error? then value else ApplyUnary(op, value.value)
    case Binary(op, left, right) =>
      var first := Meaning(rounding, resolver, left);
      if first.Error? then first
      else if op == And || op == Or then
        if !first.value.BooleanValue? then Error(EvaluationFailed)
        else if first.value.boolean == (op == Or) then first
        else
          var second := Meaning(rounding, resolver, right);
          if second.Error? || second.value.BooleanValue? then second else Error(EvaluationFailed)
      else
        var second := Meaning(rounding, resolver, right);
        if second.Error? then second
        else ApplyBinary(rounding, op, first.value, second.value)
  }

  // ---------------------------------------------------------------- what evaluation means

  /** The remainder of a division: smaller than the divisor, with the sign of the dividend,
      and a whole number of divisors away from it. */
  ghost predicate IsRemainder(x: real, y: real, r: real) {
    && (if y < 0.0 then y < r < -y else -y < r < y)
    && (x >= 0.0 ==> r >= 0.0) && (x <= 0.0 ==> r <= 0.0)
    && exists k: int :: Away(x, y, r, k)
  }

  predicate Away(x: real, y: real, r: real, k: int) {
    k as real * y == x - r
  }

  /** The exact result of an arithmetic operator, by the equation that it solves. */
  ghost predicate Solves(op: Operator, x: real, y: real, z: real) {
    match op
    case Plus => z - y == x
    case Minus => z + y == x
    case Times => if y == 0.0 then z == 0.0 else z / y == x
    case Divide => y != 0.0 && z * y == x
    case Modulo => y != 0.0 && IsRemainder(x, y, z)
    case _ => false
  }

  ghost predicate Rounded(rounding: Rounding, exact: real, outcome: Outcome) {
    if rounding(exact).Some? then outcome == Ok(NumberValue(rounding(exact).value))
    else outcome == Error(EvaluationFailed)
  }

  const FALSE: Outcome := Ok(BooleanValue(false))
  const TRUE: Outcome := Ok(BooleanValue(true))
  const FAILED: Outcome := Error(EvaluationFailed)

  /** A reference gives the boolean or number it resolves to, and fails on anything else. */
  ghost predicate Resolves(resolver: Resolver, id: Uuid, outcome: Outcome) {
    if outcome.Ok? then
      resolver(id) == Some(if outcome.value.BooleanValue? then BooleanScalar(outcome.value.boolean)
                           else NumberScalar(outcome.value.number))
    else
      && outcome == Error(ReferenceFailed)
      && (resolver(id).Some? ==> !resolver(id).value.BooleanScalar? && !resolver(id).value.NumberScalar?)
  }

  ghost predicate UnaryGives(op: Operator, operand: Outcome, outcome: Outcome) {
    if operand.Error? then outcome == operand
    else
      match op
      case Not =>
        if operand == TRUE then outcome == FALSE else if operand == FALSE then outcome == TRUE else outcome == FAILED
      case Plus =>
        if operand.value.NumberValue? then outcome == operand else outcome == FAILED
      case Minus =>
        if operand.value.NumberValue? then
          outcome.Ok? && outcome.value.NumberValue? && outcome.value.number + operand.value.number == 0.0
        else outcome == FAILED
      case _ => outcome == FAILED
  }

  /** Conjunction and disjunction are decided by their left operand where it can decide. */
  ghost predicate ConnectiveGives(op: Operator, left: Outcome, right: Outcome, outcome: Outcome) {
    if left != TRUE && left != FALSE then outcome == FAILED
    else if op == And && left == FALSE then outcome == FALSE
    else if op == Or && left == TRUE then outcome == TRUE
    else if right.Error? then outcome == right
    else if right == TRUE || right == FALSE then outcome == right
    else outcome == FAILED
  }

  /** Numbers are compared by the sign of their difference. */
  ghost predicate Compares(op: Operator, difference: real) {
    match op
    case Equal => difference == 0.0
    case NotEqual => difference != 0.0
    case Less => difference < 0.0
    case LessEqual => !(difference > 0.0)
    case Greater => difference > 0.0
    case GreaterEqual => !(difference < 0.0)
    case _ => false
  }

  /** Two booleans, or a boolean and a number, can only be told equal, or not. */
  ghost predicate MixedGives(op: Operator, left: Value, right: Value, outcome: Outcome) {
    if !(left.BooleanValue? && right.BooleanValue?) then outcome == FAILED
    else
      match op
      case Equal =>
        outcome == if (left.boolean && right.boolean) || !(left.boolean || right.boolean) then TRUE else FALSE
      case NotEqual =>
        outcome == if (left.boolean && right.boolean) || !(left.boolean || right.boolean) then FALSE else TRUE
      case _ => outcome == FAILED
  }

  ghost predicate NumbersGive(rounding: Rounding, op: Operator, x: real, y: real, outcome: Outcome) {
    if op in {Plus, Minus, Times} || (op in {Divide, Modulo} && y != 0.0) then
      exists z :: Solves(op, x, y, z) && Rounded(rounding, z, outcome)
    else if op in {Equal, NotEqual, Less, LessEqual, Greater, GreaterEqual} then
      outcome == if Compares(op, x - y) then TRUE else FALSE
    else outcome == FAILED
  }

  /** A left operand that fails decides alone; then the connectives are asked, then a failing
      right operand decides. */
  ghost predicate BinaryGives(rounding: Rounding, op: Operator, left: Outcome, right: Outcome, outcome: Outcome) {
    if left.Error? then outcome == left
    else if op in {And, Or} then ConnectiveGives(op, left, right, outcome)
    else if right.Error? then outcome == right
    else if left.value.NumberValue? && right.value.NumberValue? then
      NumbersGive(rounding, op, left.value.number, right.value.number, outcome)
    else MixedGives(op, left.value, right.value, outcome)
  }

  /** A tree evaluates to an outcome: rules for each kind of node, apart from the evaluator. */
  ghost predicate Evaluates(rounding: Rounding, resolver: Resolver, tree: Tree, outcome: Outcome) {
    match tree
    case Number(n) => outcome == Ok(NumberValue(n))
    case Boolean(b) => outcome == Ok(BooleanValue(b))
    case Reference(id) => Resolves(resolver, id, outcome)
    case Unary(op, operand) =>
      exists value :: Evaluates(rounding, resolver, operand, value) && UnaryGives(op, value, outcome)
    case Binary(op, left, right) =>
      exists first, second ::
        && Evaluates(rounding, resolver, left, first) && Evaluates(rounding, resolver, right, second)
        && BinaryGives(rounding, op, first, second, outcome)
  }

  lemma Signs(a: real, b: real)
    ensures (a >= 0.0 && b >= 0.0) || (a <= 0.0 && b <= 0.0) ==> a * b >= 0.0
    ensures (a >= 0.0 && b <= 0.0) || (a <= 0.0 && b >= 0.0) ==> a * b <= 0.0
  {
  }

  lemma LessThanWhole(left: real, y: real)
    requires y != 0.0 && -1.0 < left < 1.0
    ensures if y < 0.0 then y < left * y < -y else -y < left * y < y
  {
    if y < 0.0 {
      Shrinks(left, -y);
      Shrinks(-left, -y);
      assert left * -y == -(left * y) && -left * -y == left * y;
    } else {
      Shrinks(left, y);
      Shrinks(-left, y);
    }
  }

  lemma Shrinks(left: real, y: real)
    requires y > 0.0 && left < 1.0
    ensures left * y < y
  {
    Positive(1.0 - left, y);
    assert (1.0 - left) * y == y - left * y;
  }

  lemma Positive(a: real, b: real)
    requires a > 0.0 && b > 0.0
    ensures a * b > 0.0
  {
  }

  /** What is left of a quotient beyond its whole part, times the divisor. */
  lemma RemainderBounds(quotient: real, left: real, y: real, x: real, r: real)
    requires y != 0.0 && -1.0 < left < 1.0 && x == quotient * y && r == left * y
    requires if quotient < 0.0 then quotient <= left <= 0.0 else 0.0 <= left <= quotient
    ensures if y < 0.0 then y < r < -y else -y < r < y
    ensures (x >= 0.0 ==> r >= 0.0) && (x <= 0.0 ==> r <= 0.0)
  {
    LessThanWhole(left, y);
    SameSign(quotient, left, y, x, r);
  }

  lemma SameSign(quotient: real, left: real, y: real, x: real, r: real)
    requires y != 0.0 && x == quotient * y && r == left * y
    requires if quotient < 0.0 then quotient <= left <= 0.0 else 0.0 <= left <= quotient
    ensures (x >= 0.0 ==> r >= 0.0) && (x <= 0.0 ==> r <= 0.0)
  {
    Signs(left, y);
    if quotient != 0.0 {
      NonZeroSign(quotient, y);
    }
  }

  lemma NonZeroSign(a: real, b: real)
    requires a != 0.0 && b != 0.0
    ensures a * b > 0.0 <==> (a > 0.0 <==> b > 0.0)
    ensures a * b != 0.0
  {
    if a > 0.0 && b > 0.0 {
      Positive(a, b);
    } else if a > 0.0 {
      Positive(a, -b);
      assert a * -b == -(a * b);
    } else if b > 0.0 {
      Positive(-a, b);
      assert -a * b == -(a * b);
    } else {
      Positive(-a, -b);
      assert -a * -b == a * b;
    }
  }

  lemma Apart(x: real, y: real, quotient: real, whole: real)
    requires y != 0.0 && quotient == x / y
    ensures x == quotient * y && x - y * whole == (quotient - whole) * y
  {
    assert x / y * y == x;
  }

  lemma RemainderIsRemainder(x: real, y: real)
    requires y != 0.0
    ensures IsRemainder(x, y, Remainder(x, y))
  {
    var quotient := x / y;
    var k := if quotient < 0.0 then -((-quotient).Floor) else quotient.Floor;
    var left := quotient - k as real;
    var r := x - y * k as real;
    assert r == Remainder(x, y);
    Apart(x, y, quotient, k as real);
    RemainderBounds(quotient, left, y, x, r);
    assert Away(x, y, r, k);
  }

  lemma AtLeastWhole(m: real, y: real, d: real)
    requires m >= 1.0 && m * y == d && y != 0.0
    ensures if y < 0.0 then d <= y else d >= y
  {
    Signs(m - 1.0, y);
    assert (m - 1.0) * y == d - y;
  }

  lemma NoSmallMultiple(m: int, y: real, d: real)
    requires y != 0.0 && m as real * y == d && (if y < 0.0 then y < d < -y else -y < d < y)
    ensures d == 0.0
  {
    if m > 0 {
      AtLeastWhole(m as real, y, d);
    } else if m < 0 {
      AtLeastWhole(-(m as real), y, -d);
    }
  }

  /** The conditions on a remainder leave one number only. */
  lemma RemainderIsUnique(x: real, y: real, r: real, s: real)
    requires y != 0.0 && IsRemainder(x, y, r) && IsRemainder(x, y, s)
    ensures r == s
  {
    var k :| Away(x, y, r, k);
    var m :| Away(x, y, s, m);
    assert (m - k) as real * y == m as real * y - k as real * y == r - s;
    NoSmallMultiple(m - k, y, r - s);
  }

  lemma ProductSolves(x: real, y: real, z: real)
    ensures Solves(Times, x, y, z) <==> z == x * y
  {
    if y != 0.0 {
      assert z / y * y == z && x * y / y == x;
    }
  }

  lemma QuotientSolves(x: real, y: real, z: real)
    requires y != 0.0
    ensures Solves(Divide, x, y, z) <==> z == x / y
  {
    assert x / y * y == x && z * y / y == z;
  }

  lemma RemainderSolves(x: real, y: real, z: real)
    requires y != 0.0
    ensures Solves(Modulo, x, y, z) <==> z == Remainder(x, y)
  {
    RemainderIsRemainder(x, y);
    if IsRemainder(x, y, z) {
      RemainderIsUnique(x, y, z, Remainder(x, y));
    }
  }

  lemma SumSolves(x: real, y: real, z: real)
    ensures Solves(Plus, x, y, z) <==> z == x + y
    ensures Solves(Minus, x, y, z) <==> z == x - y
  {
  }

  lemma ExactSolves(op: Operator, x: real, y: real, z: real)
    requires op in {Plus, Minus, Times} || (op in {Divide, Modulo} && y != 0.0)
    ensures Solves(op, x, y, z) <==> z == Exact(op, x, y)
  {
    match op
    case Times => ProductSolves(x, y, z);
    case Divide => QuotientSolves(x, y, z);
    case Modulo => RemainderSolves(x, y, z);
    case _ => SumSolves(x, y, z);
  }

  lemma ExactIsApplied(rounding: Rounding, op: Operator, x: real, y: real)
    requires op in {Plus, Minus, Times} || (op in {Divide, Modulo} && y != 0.0)
    ensures Rounded(rounding, Exact(op, x, y), ApplyBinary(rounding, op, NumberValue(x), NumberValue(y)))
  {
  }

  lemma SolutionIsApplied(rounding: Rounding, op: Operator, x: real, y: real, outcome: Outcome)
    ensures NumbersGive(rounding, op, x, y, outcome) <==>
              outcome == ApplyBinary(rounding, op, NumberValue(x), NumberValue(y))
  {
    if op in {Plus, Minus, Times} || (op in {Divide, Modulo} && y != 0.0) {
      ExactSolves(op, x, y, Exact(op, x, y));
      forall z | Solves(op, x, y, z) ensures z == Exact(op, x, y) {
        ExactSolves(op, x, y, z);
      }
      ExactIsApplied(rounding, op, x, y);
    } else {
      ComparisonIsApplied(rounding, op, x, y);
    }
  }

  lemma ComparisonIsApplied(rounding: Rounding, op: Operator, x: real, y: real)
    requires op !in {Plus, Minus, Times} && (op in {Divide, Modulo} ==> y == 0.0)
    ensures ApplyBinary(rounding, op, NumberValue(x), NumberValue(y)) ==
              if op !in {Equal, NotEqual, Less, LessEqual, Greater, GreaterEqual} then FAILED
              else if Compares(op, x - y) then TRUE else FALSE
  {
    match op
    case _ =>
  }

  lemma RulesAreApplied(rounding: Rounding, op: Operator, left: Value, right: Value, outcome: Outcome)
    requires op != And && op != Or
    ensures BinaryGives(rounding, op, Ok(left), Ok(right), outcome)
       <==> outcome == ApplyBinary(rounding, op, left, right)
  {
    if left.NumberValue? && right.NumberValue? {
      SolutionIsApplied(rounding, op, left.number, right.number, outcome);
    }
  }

  lemma BinaryIsMeant(rounding: Rounding, resolver: Resolver, op: Operator, left: Tree, right: Tree, outcome: Outcome)
    ensures BinaryGives(rounding, op, Meaning(rounding, resolver, left), Meaning(rounding, resolver, right), outcome)
       <==> outcome == Meaning(rounding, resolver, Binary(op, left, right))
  {
    var first, second := Meaning(rounding, resolver, left), Meaning(rounding, resolver, right);
    if first.Ok? && op in {And, Or} {
      ConnectiveIsMeant(rounding, resolver, op, left, right, outcome);
    } else if first.Ok? && second.Ok? {
      RulesAreApplied(rounding, op, first.value, second.value, outcome);
    }
  }

  lemma ConnectiveIsMeant(rounding: Rounding, resolver: Resolver, op: Operator, left: Tree, right: Tree,
                          outcome: Outcome)
    requires op in {And, Or} && Meaning(rounding, resolver, left).Ok?
    ensures ConnectiveGives(op, Meaning(rounding, resolver, left), Meaning(rounding, resolver, right), outcome)
       <==> outcome == Meaning(rounding, resolver, Binary(op, left, right))
  {
  }

  lemma UnaryIsApplied(op: Operator, operand: Outcome, outcome: Outcome)
    ensures UnaryGives(op, operand, outcome) <==>
              outcome == if operand.Error? then operand else ApplyUnary(op, operand.value)
  {
  }

  /** The meaning is the one outcome that the rules give. */
  lemma {:induction false} MeaningIsEvaluated(rounding: Rounding, resolver: Resolver, tree: Tree, outcome: Outcome)
    ensures Evaluates(rounding, resolver, tree, outcome) <==> outcome == Meaning(rounding, resolver, tree)
  {
    match tree
    case Unary(op, operand) =>
      forall value ensures Evaluates(rounding, resolver, operand, value) <==>
                             value == Meaning(rounding, resolver, operand) {
        MeaningIsEvaluated(rounding, resolver, operand, value);
      }
      UnaryIsApplied(op, Meaning(rounding, resolver, operand), outcome);
    case Binary(op, left, right) =>
      var first, second := Meaning(rounding, resolver, left), Meaning(rounding, resolver, right);
      forall value ensures Evaluates(rounding, resolver, left, value) <==> value == first {
        MeaningIsEvaluated(rounding, resolver, left, value);
      }
      forall value ensures Evaluates(rounding, resolver, right, value) <==> value == second {
        MeaningIsEvaluated(rounding, resolver, right, value);
      }
      BinaryIsMeant(rounding, resolver, op, left, right, outcome);
    case _ =>
  }

  /** Two resolvers that agree on the references of a tree give it the same meaning. */
  lemma {:induction false} MeaningIsLocal(rounding: Rounding, r: Resolver, s: Resolver, tree: Tree)
    requires forall id :: id in References(tree) ==> r(id) == s(id)
    ensures Meaning(rounding, r, tree) == Meaning(rounding, s, tree)
  {
    match tree
    case Unary(_, operand) => MeaningIsLocal(rounding, r, s, operand);
    case Binary(_, left, right) =>
      MeaningIsLocal(rounding, r, s, left);
      MeaningIsLocal(rounding, r, s, right);
    case _ =>
  }

  /** The evaluator. `calls` records the resolver calls, oldest first. */
  class Evaluator {
    const rounding: Rounding
    const resolver: Resolver
    var cache: map<Uuid, Value>
    ghost var calls: seq<Uuid>

    /** Every cached value is the resolver's, and each cached tag was asked for once. */
    ghost predicate Valid()
      reads this
    {
      && (forall id :: id in cache ==> Lookup(resolver, id) == Ok(cache[id]))
      && Distinct(calls) && SetOf(calls) == cache.Keys
    }

    constructor (rounding: Rounding, resolver: Resolver)
      ensures Valid() && this.rounding == rounding && this.resolver == resolver && calls == []
    {
      this.rounding, this.resolver := rounding, resolver;
      cache, calls := map[], [];
    }

    /** A resolver failure ends the evaluation, so the evaluator is then no longer valid,
        but even then no tag has been asked for twice. */
    method Evaluate(tree: Tree) returns (outcome: Outcome)
      requires Valid()
      modifies this
      ensures outcome == Meaning(rounding, resolver, tree)
      ensures outcome.Ok? ==> Valid()
      ensures outcome == Error(EvaluationFailed) ==> Valid()
      ensures old(calls) <= calls && Distinct(calls)
      ensures forall id :: id in calls ==> id in old(calls) || id in References(tree)
      decreases tree
    {
      match tree
      case Number(n) => return Ok(NumberValue(n));
      case Boolean(b) => return Ok(BooleanValue(b));
      case Reference(id) => outcome := EvaluateReference(id);
      case Unary(op, operand) =>
        outcome := Evaluate(operand);
        if outcome.Ok? {
          outcome := ApplyUnary(op, outcome.value);
        }
      case Binary(op, left, right) =>
        outcome := Evaluate(left);
        if outcome.Error? {
          return;
        }
        var first := outcome.value;
        if op == And || op == Or {
          if !first.BooleanValue? {
            return Error(EvaluationFailed);
          }
          if first.boolean == (op == Or) {
            return Ok(first);
          }
          outcome := Evaluate(right);
          if outcome.Ok? && !outcome.value.BooleanValue? {
            outcome := Error(EvaluationFailed);
          }
          return;
        }
        outcome := Evaluate(right);
        if outcome.Ok? {
          outcome := ApplyBinary(rounding, op, first, outcome.value);
        }
    }

    method EvaluateReference(id: Uuid) returns (outcome: Outcome)
      requires Valid()
      modifies this
      ensures outcome == Lookup(resolver, id) && outcome != Error(EvaluationFailed)
      ensures outcome.Ok? ==> Valid()
      ensures old(calls) <= calls && Distinct(calls)
      ensures forall x :: x in calls ==> x in old(calls) || x == id
    {
      if id in cache {
        return Ok(cache[id]);
      }
      assert id !in calls by {
        assert id !in SetOf(calls);
      }
      calls := calls + [id];
      outcome := Lookup(resolver, id);
      if outcome.Ok? {
        cache := cache[id := outcome.value];
        assert SetOf(calls) == SetOf(old(calls)) + {id};
      }
    }
  }

  // ---------------------------------------------------------------- evaluation on snapshots

  /** Resolution against stored values: a missing or bad value cannot be used. */
  function ResolverOf(snapshot: map<Uuid, TagValue>): Resolver {
    id => if id in snapshot && snapshot[id].quality == Good then Some(snapshot[id].value) else None
  }

  /** A snapshot of the stored values of the listed tags. */
  function SnapshotOf(latest: map<Uuid, TagValue>, ids: seq<Uuid>): map<Uuid, TagValue> {
    map id | id in latest && id in ids :: latest[id]
  }

  /** A reference to stored values gives the latest boolean or number of the tag while that is
      good, and fails on a missing, bad or other one. */
  lemma ReferenceReadsLatest(rounding: Rounding, latest: map<Uuid, TagValue>, id: Uuid)
    ensures var outcome := Meaning(rounding, ResolverOf(latest), Reference(id));
            && (outcome.Ok? <==>
                  && id in latest && latest[id].quality == Good
                  && (latest[id].value.BooleanScalar? || latest[id].value.NumberScalar?))
            && (outcome.Ok? && outcome.value.BooleanValue? ==>
                  latest[id].value == BooleanScalar(outcome.value.boolean))
            && (outcome.Ok? && outcome.value.NumberValue? ==>
                  latest[id].value == NumberScalar(outcome.value.number))
            && (outcome.Error? ==> outcome.error == ReferenceFailed)
  {
    MeaningIsEvaluated(rounding, ResolverOf(latest), Reference(id),
                       Meaning(rounding, ResolverOf(latest), Reference(id)));
  }

  /** Evaluating on the snapshot of an expression's collected dependencies is evaluating
      on everything stored. */
  lemma SnapshotSuffices(rounding: Rounding, latest: map<Uuid, TagValue>, tree: Tree)
    ensures Meaning(rounding, ResolverOf(SnapshotOf(latest, AddReferences([], References(tree)))), tree)
         == Meaning(rounding, ResolverOf(latest), tree)
  {
    AddReferencesCollects([], References(tree));
    var ids := AddReferences([], References(tree));
    forall id | id in References(tree)
      ensures ResolverOf(SnapshotOf(latest, ids))(id) == ResolverOf(latest)(id)
    {
      assert id in SetOf(References(tree));
      assert id in SetOf(ids);
    }
    MeaningIsLocal(rounding, ResolverOf(SnapshotOf(latest, ids)), ResolverOf(latest), tree);
  }

  /** The expression evaluated with a fresh evaluator. */
  method EvaluateExpression(rounding: Rounding, resolver: Resolver, tree: Tree)
      returns (outcome: Outcome, ghost calls: seq<Uuid>)
    ensures outcome == Meaning(rounding, resolver, tree) && Evaluates(rounding, resolver, tree, outcome)
    ensures Distinct(calls) && forall id :: id in calls ==> id in References(tree)
  {
    var evaluator := new Evaluator(rounding, resolver);
    outcome := evaluator.Evaluate(tree);
    calls := evaluator.calls;
    MeaningIsEvaluated(rounding, resolver, tree, outcome);
  }
}
