/** Which meters of a boundary are added up. A main meter stands for its group, and a
    virtual meter for its inputs; the virtual meters are visited in map order, that is,
    in any order, and this module says exactly when that order matters. */
module Rollup {
  import opened Identifiers
  import opened Digraph

  datatype Role = Direct | Main | Submeter | Virtual | UnknownRole

  datatype Policy = Include | Exclude | UnknownPolicy

  /** A measurement binding with the facts about its owner. The semantic key stands for
      resource, quantity, canonical unit and reference conditions; source key 0 is empty. */
  datatype Candidate = Candidate(
    id: Uuid,
    owner: Uuid,
    ownerAncestors: seq<Uuid>,
    ownerIsLeaf: bool,
    boundary: Uuid,
    sourceKey: nat,
    semanticValid: bool,
    semanticKey: nat,
    role: Role,
    policy: Policy,
    inputs: seq<Uuid>
  ) {
    predicate Valid() {
      && id != NIL && owner != NIL && boundary != NIL && sourceKey != 0 && ownerIsLeaf && semanticValid
      && (boundary in ownerAncestors || owner == boundary)
      && (match role
          case UnknownRole => false
          case Virtual => inputs != []
          case _ => inputs == [])
      && policy != UnknownPolicy
    }

    /** Meters that measure the same thing at the same boundary. */
    function Group(): (Uuid, nat) {
      (boundary, semanticKey)
    }
  }

  type Registry = map<Uuid, Candidate>

  /** Two meters that measure the same thing, in semantic key, at the same boundary. */
  predicate SameGroup(a: Candidate, b: Candidate) {
    a.boundary == b.boundary && a.semanticKey == b.semanticKey
  }

  /** Virtual meters and the registered meters they are computed from. */
  function InputEdges(byId: Registry): Edges {
    set v, w | v in byId && w in byId[v].inputs && w in byId :: (v, w)
  }

  // ---------------------------------------------------------------- main meters

  function Mains(byId: Registry): set<Uuid> {
    set id | id in byId && byId[id].policy == Include && byId[id].role == Main
  }

  ghost predicate Conflict(byId: Registry) {
    exists a, b :: a in Mains(byId) && b in Mains(byId) && a != b && SameGroup(byId[a], byId[b])
  }

  /** Included before virtual meters are considered: nothing beside a main meter. */
  function AfterMains(byId: Registry): set<Uuid> {
    set id | id in byId && byId[id].policy == Include
             && forall m :: m in Mains(byId) && SameGroup(byId[m], byId[id]) ==> m == id
  }

  // ---------------------------------------------------------------- virtual meters

  function Live(byId: Registry): set<Uuid> {
    set id | id in AfterMains(byId) && byId[id].role == Virtual
  }

  /** An input that is missing or of another group. */
  predicate BadInputs(byId: Registry, v: Uuid)
    requires v in byId
  {
    exists w :: w in byId[v].inputs && (w !in byId || !SameGroup(byId[w], byId[v]))
  }

  datatype Selection = Selected(included: set<Uuid>) | Invalid

  /** The visit of one meter: an included virtual meter replaces its inputs. */
  function Visit(byId: Registry, selection: Selection, id: Uuid): Selection
    requires id in byId
  {
    match selection
    case Invalid => Invalid
    case Selected(included) =>
      if id !in included || byId[id].role != Virtual then selection
      else if BadInputs(byId, id) then Invalid
      else Selected(included - SetOf(byId[id].inputs))
  }

  /** The loop over the virtual meters, in the given order. */
  function Select(byId: Registry, order: seq<Uuid>): Selection
    requires forall id :: id in order ==> id in byId
  {
    if order == [] then Selected(AfterMains(byId))
    else Visit(byId, Select(byId, order[..|order| - 1]), order[|order| - 1])
  }

  /** A map iteration: every registered meter once. */
  ghost predicate IsIteration(byId: Registry, order: seq<Uuid>) {
    Distinct(order) && SetOf(order) == byId.Keys
  }

  /** The virtual meters that replace their inputs in the course of the loop: those not
      already replaced themselves. */
  ghost function Acting(byId: Registry, order: seq<Uuid>): set<Uuid> {
    if order == [] then {}
    else
      var id, before := order[|order| - 1], Acting(byId, order[..|order| - 1]);
      if id in Live(byId) && !Replaced(byId, before, id) then before + {id} else before
  }

  ghost predicate Replaced(byId: Registry, acting: set<Uuid>, id: Uuid) {
    exists v :: v in acting && v in byId && id in byId[v].inputs
  }

  ghost function Remaining(byId: Registry, acting: set<Uuid>): set<Uuid> {
    set id | id in AfterMains(byId) && !Replaced(byId, acting, id)
  }

  lemma {:induction false} ActingIsLive(byId: Registry, order: seq<Uuid>)
    ensures Acting(byId, order) <= Live(byId)
    ensures forall id :: id in Acting(byId, order) ==> id in order
  {
    if order != [] {
      ActingIsLive(byId, order[..|order| - 1]);
    }
  }

  /** The outcome of the loop in terms of the acting meters. */
  lemma {:induction false} SelectByActing(byId: Registry, order: seq<Uuid>)
    requires forall id :: id in order ==> id in byId
    ensures var acting := Acting(byId, order);
            Select(byId, order) ==
              if exists v :: v in acting && BadLive(byId, v) then Invalid
              else Selected(Remaining(byId, acting))
  {
    if order == [] {
      assert Remaining(byId, {}) == AfterMains(byId);
    } else {
      var front, id := order[..|order| - 1], order[|order| - 1];
      SelectByActing(byId, front);
      ActingIsLive(byId, front);
      var before, after := Acting(byId, front), Acting(byId, order);
      if id in Remaining(byId, before) && byId[id].role == Virtual {
        assert after == before + {id};
        assert Remaining(byId, after) == Remaining(byId, before) - SetOf(byId[id].inputs);
      } else {
        assert after == before;
      }
    }
  }

  ghost predicate BadLive(byId: Registry, v: Uuid) {
    v in byId && BadInputs(byId, v)
  }

  lemma {:induction false} ActingGrows(byId: Registry, order: seq<Uuid>, k: nat)
    requires k <= |order|
    ensures Acting(byId, order[..k]) <= Acting(byId, order)
  {
    if k < |order| {
      assert order[..|order| - 1][..k] == order[..k];
      ActingGrows(byId, order[..|order| - 1], k);
    } else {
      assert order[..k] == order;
    }
  }

  // ---------------------------------------------------------------- every order

  lemma MainsStay(byId: Registry, acting: set<Uuid>, m: Uuid)
    requires m in Mains(byId) && !Conflict(byId) && acting <= Live(byId)
    requires forall v :: v in acting ==> !BadLive(byId, v)
    ensures m in Remaining(byId, acting)
  {
    forall v | v in acting ensures m !in byId[v].inputs {
      assert !SameGroup(byId[m], byId[v]);
    }
  }

  ghost predicate BesideMain(byId: Registry, id: Uuid)
    requires id in byId
  {
    exists m :: m in byId && m != id && byId[m].policy == Include && byId[m].role == Main
      && byId[m].boundary == byId[id].boundary && byId[m].semanticKey == byId[id].semanticKey
  }

  ghost predicate InputOfVirtual(byId: Registry, id: Uuid) {
    exists v :: v in byId && byId[v].policy == Include && byId[v].role == Virtual && id in byId[v].inputs
  }

  /** Whatever the order, a resulting plan adds nothing to a main meter of its group, and
      no direct input beside a virtual meter; it leaves out only what the policy, a main
      meter or an acting virtual meter replaces. */
  lemma EveryPlanIsExclusive(byId: Registry, order: seq<Uuid>)
    requires IsIteration(byId, order) && !Conflict(byId) && Select(byId, order).Selected?
    requires forall id :: id in byId && byId[id].role != Virtual ==> byId[id].inputs == []
    ensures var included := Select(byId, order).included;
            && (forall id :: id in included ==> id in byId && byId[id].policy == Include)
            && (forall v, w :: v in included && w in byId[v].inputs ==> w !in included)
            && (forall m :: m in byId && byId[m].policy == Include && byId[m].role == Main ==>
                  m in included
                  && forall id ::
                       (id in included && byId[id].boundary == byId[m].boundary
                        && byId[id].semanticKey == byId[m].semanticKey) ==> id == m)
            && (forall id :: id in byId && byId[id].policy == Include && id !in included ==>
                  BesideMain(byId, id) || InputOfVirtual(byId, id))
  {
    forall id | id in order ensures id in byId {
      assert id in SetOf(order);
    }
    var acting := Acting(byId, order);
    SelectByActing(byId, order);
    ActingIsLive(byId, order);
    forall v, w | v in Remaining(byId, acting) && w in byId[v].inputs ensures w !in Remaining(byId, acting) {
      IncludedVirtualActs(byId, order, v);
    }
    forall m | m in Mains(byId) ensures m in Remaining(byId, acting) {
      MainsStay(byId, acting, m);
    }
  }

  lemma {:induction false} IncludedVirtualActs(byId: Registry, order: seq<Uuid>, v: Uuid)
    requires v in order && v in Live(byId) && !Replaced(byId, Acting(byId, order), v)
    ensures v in Acting(byId, order)
  {
    var front := order[..|order| - 1];
    ActingGrows(byId, order, |order| - 1);
    if v in front {
      IncludedVirtualActs(byId, front, v);
    } else {
      assert v == order[|order| - 1];
    }
  }

  // ---------------------------------------------------------------- when the order matters

  /** Some live meter of the set can only be replaced by meters of the set. */
  ghost predicate Forced(byId: Registry, meters: set<Uuid>) {
    exists w :: w in meters && ReplacedWithin(byId, meters, w)
  }

  ghost predicate ReplacedWithin(byId: Registry, meters: set<Uuid>, w: Uuid) {
    forall v :: v in Live(byId) && w in byId[v].inputs ==> v in meters
  }

  /** In every order some meter of a forced set acts. */
  lemma {:induction false} ForcedActs(byId: Registry, order: seq<Uuid>, meters: set<Uuid>)
    requires meters <= Live(byId) && Forced(byId, meters) && forall id :: id in meters ==> id in order
    ensures exists v :: v in meters && v in Acting(byId, order)
  {
    var w :| w in meters && ReplacedWithin(byId, meters, w);
    ActingIsLive(byId, order);
    if Replaced(byId, Acting(byId, order), w) {
      var v :| v in Acting(byId, order) && v in byId && w in byId[v].inputs;
      assert v in meters;
    } else {
      IncludedVirtualActs(byId, order, w);
    }
  }

  lemma {:induction false} InnerFirstAllAct(byId: Registry, order: seq<Uuid>)
    requires SuccessorsFirst(InputEdges(byId), order) && Distinct(order)
    requires forall id :: id in order ==> id in Live(byId)
    ensures Acting(byId, order) == SetOf(order)
  {
    if order != [] {
      var front, id := order[..|order| - 1], order[|order| - 1];
      InnerFirstAllAct(byId, front);
      assert order == front + [id];
      assert id in order && id in Live(byId);
      forall v | v in front ensures id !in byId[v].inputs {
        var i :| 0 <= i < |front| && front[i] == v;
        assert v in order && v in byId && order[i] == v;
        assert (order[i], order[|order| - 1]) !in InputEdges(byId);
      }
    }
  }

  /** Once every meter outside the acting ones is replaced, nothing further acts. */
  lemma {:induction false} NothingMoreActs(byId: Registry, first: seq<Uuid>, rest: seq<Uuid>, meters: set<Uuid>)
    requires Acting(byId, first) == Live(byId) - meters && !Forced(byId, meters) && meters <= Live(byId)
    requires Distinct(first + rest) && SetOf(first) == Live(byId) - meters
    ensures Acting(byId, first + rest) == Live(byId) - meters
  {
    if rest == [] {
      assert first + rest == first;
    } else {
      var id, all := rest[|rest| - 1], first + rest;
      assert all[..|all| - 1] == first + rest[..|rest| - 1];
      NothingMoreActs(byId, first, rest[..|rest| - 1], meters);
      if id in Live(byId) {
        forall i | 0 <= i < |first| ensures first[i] != id {
          assert all[i] != all[|all| - 1];
        }
        assert id !in first && id !in SetOf(first);
        assert id in meters;
        assert !ReplacedWithin(byId, meters, id);
      }
    }
  }

  /** In some order exactly the meters outside an unforced set act. */
  lemma UnforcedCanBeAvoided(byId: Registry, meters: set<Uuid>) returns (order: seq<Uuid>)
    requires Acyclic(InputEdges(byId)) && meters <= Live(byId) && !Forced(byId, meters)
    ensures IsIteration(byId, order) && Acting(byId, order) == Live(byId) - meters
  {
    var first := OrderExists(InputEdges(byId), Live(byId) - meters);
    var rest := ListOf(byId.Keys - SetOf(first));
    assert forall id :: id in first ==> id in SetOf(first);
    InnerFirstAllAct(byId, first);
    order := first + rest;
    forall i, j | 0 <= i < j < |order| ensures order[i] != order[j] {
      if i < |first| <= j {
        assert order[i] in SetOf(first) && order[j] in SetOf(rest);
      }
    }
    NothingMoreActs(byId, first, rest, meters);
    assert SetOf(order) == SetOf(first) + SetOf(rest);
  }

  lemma {:induction false} ListOf(s: set<Uuid>) returns (r: seq<Uuid>)
    ensures Distinct(r) && SetOf(r) == s
    decreases |s|
  {
    if s == {} {
      r := [];
    } else {
      var x :| x in s;
      var rest := ListOf(s - {x});
      r := rest + [x];
      assert forall y :: y in rest ==> y in SetOf(rest);
      assert SetOf(r) == SetOf(rest) + {x};
    }
  }

  ghost predicate OrderIndependent(byId: Registry) {
    forall p, q :: IsIteration(byId, p) && IsIteration(byId, q) ==> SelectIn(byId, p) == SelectIn(byId, q)
  }

  ghost function SelectIn(byId: Registry, order: seq<Uuid>): Selection
    requires IsIteration(byId, order)
  {
    assert forall id :: id in order ==> id in SetOf(order);
    Select(byId, order)
  }

  /** The live virtual meters with bad inputs. */
  ghost function Faulty(byId: Registry): set<Uuid> {
    set v | v in Live(byId) && BadLive(byId, v)
  }

  /** The live virtual meters computed from a meter. */
  ghost function Users(byId: Registry, id: Uuid): set<Uuid> {
    set v | v in Live(byId) && id in byId[v].inputs
  }

  /** The condition, on the bindings alone: the faulty meters are forced, or there are
      none and the users of every included input are forced. */
  ghost predicate Unambiguous(byId: Registry) {
    if Faulty(byId) != {} then Forced(byId, Faulty(byId))
    else forall id :: id in AfterMains(byId) && Users(byId, id) != {} ==> Forced(byId, Users(byId, id))
  }

  lemma SelectInByActing(byId: Registry, order: seq<Uuid>)
    requires IsIteration(byId, order)
    ensures SelectIn(byId, order) ==
              if exists v :: v in Faulty(byId) && v in Acting(byId, order) then Invalid
              else Selected(Remaining(byId, Acting(byId, order)))
  {
    assert forall id :: id in order ==> id in SetOf(order);
    SelectByActing(byId, order);
    ActingIsLive(byId, order);
  }

  lemma UnambiguousGivesOneResult(byId: Registry, order: seq<Uuid>)
    requires Unambiguous(byId) && IsIteration(byId, order)
    ensures SelectIn(byId, order) ==
              if Faulty(byId) != {} then Invalid else Selected(Remaining(byId, Live(byId)))
  {
    SelectInByActing(byId, order);
    ActingIsLive(byId, order);
    assert forall id :: id in byId ==> id in SetOf(order);
    if Faulty(byId) != {} {
      ForcedActs(byId, order, Faulty(byId));
    } else {
      var acting := Acting(byId, order);
      forall id | id in AfterMains(byId) ensures Replaced(byId, acting, id) <==> Replaced(byId, Live(byId), id) {
        if Replaced(byId, Live(byId), id) {
          var u :| u in Live(byId) && u in byId && id in byId[u].inputs;
          assert u in Users(byId, id);
          ForcedActs(byId, order, Users(byId, id));
        }
      }
      assert Remaining(byId, acting) == Remaining(byId, Live(byId));
    }
  }

  /** The result is the same for every map order exactly when the condition holds. */
  lemma OrderMatters(byId: Registry)
    requires Acyclic(InputEdges(byId))
    ensures OrderIndependent(byId) <==> Unambiguous(byId)
  {
    if Unambiguous(byId) {
      forall p, q | IsIteration(byId, p) && IsIteration(byId, q) ensures SelectIn(byId, p) == SelectIn(byId, q) {
        UnambiguousGivesOneResult(byId, p);
        UnambiguousGivesOneResult(byId, q);
      }
    } else {
      assert !Forced(byId, {});
      var p := UnforcedCanBeAvoided(byId, {});
      SelectInByActing(byId, p);
      if Faulty(byId) != {} {
        var q := UnforcedCanBeAvoided(byId, Faulty(byId));
        SelectInByActing(byId, q);
        assert SelectIn(byId, p) == Invalid && SelectIn(byId, q) != Invalid;
      } else {
        var x :| x in AfterMains(byId) && Users(byId, x) != {} && !Forced(byId, Users(byId, x));
        var q := UnforcedCanBeAvoided(byId, Users(byId, x));
        SelectInByActing(byId, q);
        var u :| u in Users(byId, x);
        assert x in Remaining(byId, Acting(byId, q)) && x !in Remaining(byId, Acting(byId, p));
      }
    }
  }

  // ---------------------------------------------------------------- consequences

  /** No live virtual meter is an input of a live virtual meter. */
  ghost predicate Flat(byId: Registry) {
    forall v, w :: v in Live(byId) && w in Live(byId) ==> w !in byId[v].inputs
  }

  /** Without nesting the plan does not depend on the order, every virtual meter that
      counts stays included, and an included meter is left out only as one of its inputs. */
  lemma FlatIsOrderIndependent(byId: Registry, order: seq<Uuid>)
    requires Acyclic(InputEdges(byId)) && Flat(byId)
    ensures OrderIndependent(byId)
    ensures IsIteration(byId, order) && SelectIn(byId, order).Selected? ==>
              forall id :: id in AfterMains(byId) && id !in SelectIn(byId, order).included ==>
                exists v :: v in SelectIn(byId, order).included && v in Live(byId) && id in byId[v].inputs
  {
    forall meters: set<Uuid> | meters <= Live(byId) && meters != {} ensures Forced(byId, meters) {
      var w :| w in meters;
      assert ReplacedWithin(byId, meters, w);
    }
    assert Unambiguous(byId);
    OrderMatters(byId);
    if IsIteration(byId, order) && SelectIn(byId, order).Selected? {
      UnambiguousGivesOneResult(byId, order);
      forall id | id in AfterMains(byId) && id !in SelectIn(byId, order).included
        ensures exists v :: v in SelectIn(byId, order).included && v in Live(byId) && id in byId[v].inputs
      {
        var v :| v in Live(byId) && v in byId && id in byId[v].inputs;
        assert !Replaced(byId, Live(byId), v);
      }
    }
  }

  function Meter(id: Uuid, role: Role, inputs: seq<Uuid>): Candidate {
    Candidate(id, 9, [], true, 9, id, true, 1, role, Include, inputs)
  }

  /** Meter 1 is computed from meter 2, and meter 2 from meter 3. */
  const NESTED: Registry :=
    map[1 := Meter(1, Virtual, [2]), 2 := Meter(2, Virtual, [3]), 3 := Meter(3, Direct, [])]

  /** A concrete plan that depends on the order: visited outermost first, meter 3 is added
      beside the meter that already contains it. */
  lemma NestedMetersDependOnOrder()
    ensures forall id :: id in NESTED ==> NESTED[id].Valid()
    ensures IsIteration(NESTED, [1, 2, 3]) && Select(NESTED, [1, 2, 3]) == Selected({1, 3})
    ensures IsIteration(NESTED, [2, 1, 3]) && Select(NESTED, [2, 1, 3]) == Selected({1})
  {
    VisitThree(1, 2, 3);
    VisitThree(2, 1, 3);
    VisitsOfNested();
    assert SetOf<Uuid>([1, 2, 3]) == NESTED.Keys && SetOf<Uuid>([2, 1, 3]) == NESTED.Keys;
  }

  lemma VisitsOfNested()
    ensures AfterMains(NESTED) == {1, 2, 3}
    ensures Visit(NESTED, Selected({1, 2, 3}), 1) == Selected({1, 3}) == Visit(NESTED, Selected({1, 3}), 2)
    ensures Visit(NESTED, Selected({1, 2, 3}), 2) == Selected({1, 2})
    ensures Visit(NESTED, Selected({1, 2}), 1) == Selected({1}) == Visit(NESTED, Selected({1}), 3)
    ensures Visit(NESTED, Selected({1, 3}), 3) == Selected({1, 3})
  {
    assert AfterMains(NESTED) == {1, 2, 3};
    assert SetOf(NESTED[1].inputs) == {2} && SetOf(NESTED[2].inputs) == {3};
  }

  lemma VisitThree(a: Uuid, b: Uuid, c: Uuid)
    requires a in NESTED && b in NESTED && c in NESTED
    ensures Select(NESTED, [a, b, c])
         == Visit(NESTED, Visit(NESTED, Visit(NESTED, Selected(AfterMains(NESTED)), a), b), c)
  {
    var s: seq<Uuid> := [a, b, c];
    assert s[..2] == [a, b] && s[..2][..1] == [a] && s[..2][..1][..0] == [];
    assert Select(NESTED, [a]) == Visit(NESTED, Selected(AfterMains(NESTED)), a);
    assert Select(NESTED, [a, b]) == Visit(NESTED, Select(NESTED, [a]), b);
  }
}
