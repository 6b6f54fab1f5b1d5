/** Tokens, trees and limits of the expression language of calculated tags. */
module Expression {
  import opened Identifiers

  const MAX_EXPRESSION_DEPTH := 32
  const MAX_EXPRESSION_DEPENDENCIES := 32

  datatype Operator =
    | Or | And
    | Equal | NotEqual
    | Less | LessEqual | Greater | GreaterEqual
    | Plus | Minus
    | Times | Divide | Modulo
    | Not

  /** The binary levels, loosest first; Not is no binary operator. */
  function BinaryLevel(op: Operator): int {
    match op
    case Or => 0
    case And => 1
    case Equal => 2
    case NotEqual => 2
    case Less => 3
    case LessEqual => 3
    case Greater => 3
    case GreaterEqual => 3
    case Plus => 4
    case Minus => 4
    case Times => 5
    case Divide => 5
    case Modulo => 5
    case Not => -1
  }

  predicate IsUnary(op: Operator) {
    op in {Not, Plus, Minus}
  }

  const UNARY_LEVEL: nat := 6
  const PRIMARY_LEVEL: nat := 7

  datatype Token =
    | EndToken
    | NumberToken(number: real)
    | BooleanToken(boolean: bool)
    | ReferenceToken(id: Uuid)
    | LeftParenthesis
    | RightParenthesis
    | OperatorToken(op: Operator)

  datatype Tree =
    | Number(number: real)
    | Boolean(boolean: bool)
    | Reference(id: Uuid)
    | Unary(op: Operator, operand: Tree)
    | Binary(op: Operator, left: Tree, right: Tree)

  datatype Limits = Limits(depth: nat, dependencies: nat)

  const LIMITS := Limits(MAX_EXPRESSION_DEPTH, MAX_EXPRESSION_DEPENDENCIES)

  /** What the lexer hands over: the end token closes the sequence and occurs nowhere else. */
  ghost predicate Terminated(tokens: seq<Token>) {
    && |tokens| > 0
    && forall i :: 0 <= i < |tokens| ==> (tokens[i] == EndToken <==> i == |tokens| - 1)
  }

  /** The references of a token sequence, in order. */
  function TokenReferences(tokens: seq<Token>): seq<Uuid> {
    if tokens == [] then []
    else
      var last := tokens[|tokens| - 1];
      TokenReferences(tokens[..|tokens| - 1]) + if last.ReferenceToken? then [last.id] else []
  }

  /** The references of a tree, left to right. */
  function References(tree: Tree): seq<Uuid> {
    match tree
    case Number(_) => []
    case Boolean(_) => []
    case Reference(id) => [id]
    case Unary(_, operand) => References(operand)
    case Binary(_, left, right) => References(left) + References(right)
  }

  /** A list extended by the references it does not contain yet, in order. */
  function AddReferences(known: seq<Uuid>, references: seq<Uuid>): seq<Uuid> {
    if references == [] then known
    else
      var last := references[|references| - 1];
      var before := AddReferences(known, references[..|references| - 1]);
      if last in before then before else before + [last]
  }

  lemma {:induction false} TokenReferencesConcat(s: seq<Token>, t: seq<Token>)
    ensures TokenReferences(s + t) == TokenReferences(s) + TokenReferences(t)
  {
    if t == [] {
      assert s + t == s;
    } else {
      TokenReferencesConcat(s, t[..|t| - 1]);
      assert (s + t)[..|s + t| - 1] == s + t[..|t| - 1];
    }
  }

  lemma {:induction false} AddReferencesConcat(known: seq<Uuid>, r: seq<Uuid>, s: seq<Uuid>)
    ensures AddReferences(known, r + s) == AddReferences(AddReferences(known, r), s)
  {
    if s == [] {
      assert r + s == r;
    } else {
      AddReferencesConcat(known, r, s[..|s| - 1]);
      assert (r + s)[..|r + s| - 1] == r + s[..|s| - 1];
    }
  }

  lemma {:induction false} AddReferencesGrows(known: seq<Uuid>, references: seq<Uuid>)
    ensures |known| <= |AddReferences(known, references)|
  {
    if references != [] {
      AddReferencesGrows(known, references[..|references| - 1]);
    }
  }

  /** The collected list has every reference exactly once. */
  lemma {:induction false} AddReferencesCollects(known: seq<Uuid>, references: seq<Uuid>)
    requires Distinct(known)
    ensures Distinct(AddReferences(known, references))
    ensures SetOf(AddReferences(known, references)) == SetOf(known) + SetOf(references)
  {
    if references != [] {
      var front, last := references[..|references| - 1], references[|references| - 1];
      AddReferencesCollects(known, front);
      assert references == front + [last];
      assert SetOf(references) == SetOf(front) + {last};
      var before := AddReferences(known, front);
      if last !in before {
        assert SetOf(before + [last]) == SetOf(before) + {last};
      } else {
        assert last in SetOf(before);
      }
    }
  }

  /** Where a reference is used first. */
  function FirstUse(references: seq<Uuid>, id: Uuid): (k: nat)
    requires id in references
    ensures k < |references| && references[k] == id && id !in references[..k]
  {
    var front := references[..|references| - 1];
    if id in front then
      var k := FirstUse(front, id);
      assert front[..k] == references[..k];
      k
    else |references| - 1
  }

  /** New references, each of which is one of the list, in order of first use. */
  ghost predicate InOrderOfFirstUse(added: seq<Uuid>, references: seq<Uuid>) {
    && (forall id :: id in added ==> id in references)
    && forall i, j :: 0 <= i < j < |added| ==> FirstUse(references, added[i]) < FirstUse(references, added[j])
  }

  lemma LaterUsesKeepOrder(added: seq<Uuid>, front: seq<Uuid>, last: Uuid)
    requires InOrderOfFirstUse(added, front)
    ensures InOrderOfFirstUse(added, front + [last])
  {
    assert (front + [last])[..|front|] == front;
    forall i, j | 0 <= i < j < |added|
      ensures FirstUse(front + [last], added[i]) < FirstUse(front + [last], added[j]) {
      assert added[i] in front && added[j] in front;
    }
  }

  lemma FirstUseIsLast(added: seq<Uuid>, front: seq<Uuid>, last: Uuid)
    requires InOrderOfFirstUse(added, front) && last !in front
    ensures InOrderOfFirstUse(added + [last], front + [last])
  {
    var all := added + [last];
    LaterUsesKeepOrder(added, front, last);
    assert (front + [last])[..|front|] == front;
    forall i, j | 0 <= i < j < |all|
      ensures FirstUse(front + [last], all[i]) < FirstUse(front + [last], all[j]) {
      assert all[i] == added[i] && added[i] in front;
      assert j < |added| ==> all[j] == added[j];
    }
  }

  /** What was known stays in front, and what is added follows in order of first use. */
  lemma {:induction false} AddReferencesInOrder(known: seq<Uuid>, references: seq<Uuid>)
    requires Distinct(known)
    ensures var all := AddReferences(known, references);
            |known| <= |all| && all[..|known|] == known && InOrderOfFirstUse(all[|known|..], references)
  {
    if references != [] {
      var front, last := references[..|references| - 1], references[|references| - 1];
      var before := AddReferences(known, front);
      AddReferencesInOrder(known, front);
      assert references == front + [last];
      if last in before {
        LaterUsesKeepOrder(before[|known|..], front, last);
      } else {
        AddReferencesCollects(known, front);
        assert last !in SetOf(before);
        FirstUseIsLast(before[|known|..], front, last);
        assert (before + [last])[|known|..] == before[|known|..] + [last];
      }
    }
  }
}
