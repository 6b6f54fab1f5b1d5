/** Building a rollup plan: registration of the candidates, the search for cycles among
    virtual meters, and the three passes over the registry, each in an arbitrary order. */
module RollupPlanner {
  import opened Identifiers
  import opened Ordering
  import opened Digraph
  import opened Rollup
  import opened DependencySearch
  import T = TagGraph

  datatype PlanError = InvalidAggregation | DuplicateMeasurement | VirtualMeterCycle | ConflictingMeters

  datatype Plan = Planned(included: seq<Uuid>, excluded: seq<Uuid>) | Refused(error: PlanError)

  // ---------------------------------------------------------------- cycles

  /** The registered inputs of each meter. */
  function InputGraph(byId: Registry): Adjacency {
    map id | id in byId :: Registered(byId, byId[id].inputs)
  }

  function Registered(byId: Registry, ids: seq<Uuid>): (r: seq<Uuid>)
    ensures forall x :: x in r <==> x in ids && x in byId
  {
    if ids == [] then []
    else
      var last := ids[|ids| - 1];
      Registered(byId, ids[..|ids| - 1]) + if last in byId then [last] else []
  }

  lemma InputGraphEdges(byId: Registry)
    ensures EdgesOf(InputGraph(byId)) == InputEdges(byId)
  {
  }

  class DependencyWalk {
    const byId: Registry
    var state: map<Uuid, T.Mark>
    ghost var stack: seq<Uuid>
    ghost var finished: seq<Uuid>

    ghost predicate Valid()
      reads this
    {
      && T.Consistent(EdgesOf(InputGraph(byId)), state, stack, finished)
      && forall x :: x in state ==> x in byId
    }

    constructor (byId: Registry)
      ensures Valid() && this.byId == byId && stack == [] && state == map[]
    {
      this.byId := byId;
      state := map[];
      stack, finished := [], [];
    }

    method Visit(id: Uuid) returns (cycle: bool)
      requires Valid() && id in byId
      requires IsPath(EdgesOf(InputGraph(byId)), stack + [id])
      modifies this
      ensures !cycle ==> Valid() && stack == old(stack) && id in finished && old(finished) <= finished
                         && old(state).Keys <= state.Keys
      ensures cycle ==> !Acyclic(EdgesOf(InputGraph(byId)))
      decreases byId.Keys - state.Keys, 0
    {
      if id in state && state[id] == T.Visiting {
        T.BackEdge(EdgesOf(InputGraph(byId)), stack, id);
        return true;
      }
      if id in state && state[id] == T.Finished {
        return false;
      }
      T.EnterNode(EdgesOf(InputGraph(byId)), state, stack, finished, id);
      state := state[id := T.Visiting];
      stack := stack + [id];
      cycle := VisitInputs(id);
      if cycle {
        return;
      }
      T.FinishNode(InputGraph(byId), state, old(stack), finished, id);
      state := state[id := T.Finished];
      stack := old(stack);
      finished := finished + [id];
    }

    /** The loop over the inputs of the meter just marked; missing inputs are skipped. */
    method VisitInputs(id: Uuid) returns (cycle: bool)
      requires Valid() && id in byId && |stack| > 0 && stack[|stack| - 1] == id
      requires IsPath(EdgesOf(InputGraph(byId)), stack)
      modifies this
      ensures !cycle ==> Valid() && stack == old(stack) && old(finished) <= finished
                         && old(state).Keys <= state.Keys
                         && forall y :: y in Neighbours(InputGraph(byId), id) ==> y in finished
      ensures cycle ==> !Acyclic(EdgesOf(InputGraph(byId)))
      decreases byId.Keys - state.Keys, 1
    {
      var inputs := byId[id].inputs;
      for i := 0 to |inputs|
        invariant Valid() && stack == old(stack) && old(finished) <= finished
        invariant state.Keys >= old(state).Keys
        invariant Walked(byId, inputs, i, finished)
      {
        if inputs[i] in byId {
          T.StepAlongEdge(InputGraph(byId), stack, inputs[i]);
          ghost var before := finished;
          cycle := Visit(inputs[i]);
          if cycle {
            return;
          }
          WalkedOn(byId, inputs, i, before, finished);
        }
      }
      WalkedAll(byId, id, finished);
      return false;
    }
  }

  /** The registered ones of the first i inputs are finished. */
  ghost predicate Walked(byId: Registry, inputs: seq<Uuid>, i: nat, finished: seq<Uuid>) {
    forall k :: 0 <= k < i && k < |inputs| && inputs[k] in byId ==> inputs[k] in finished
  }

  lemma WalkedOn(byId: Registry, inputs: seq<Uuid>, i: nat, before: seq<Uuid>, finished: seq<Uuid>)
    requires Walked(byId, inputs, i, before) && before <= finished && i < |inputs| && inputs[i] in finished
    ensures Walked(byId, inputs, i + 1, finished)
  {
    forall k | 0 <= k < i && inputs[k] in byId ensures inputs[k] in finished {
      var n :| 0 <= n < |before| && before[n] == inputs[k];
      assert finished[n] == inputs[k];
    }
  }

  lemma WalkedAll(byId: Registry, id: Uuid, finished: seq<Uuid>)
    requires id in byId && Walked(byId, byId[id].inputs, |byId[id].inputs|, finished)
    ensures forall y :: y in Neighbours(InputGraph(byId), id) ==> y in finished
  {
  }

  /** True exactly when the virtual meters depend on each other in a cycle. */
  method VirtualDependencyCycle(byId: Registry) returns (cycle: bool)
    ensures cycle <==> !Acyclic(InputEdges(byId))
  {
    InputGraphEdges(byId);
    var walk := new DependencyWalk(byId);
    var todo := byId.Keys;
    while todo != {}
      invariant walk.Valid() && walk.byId == byId && walk.stack == [] && todo <= byId.Keys
      invariant forall id :: id in byId && id !in todo ==> id in walk.finished
      decreases todo
    {
      var id :| id in todo;
      todo := todo - {id};
      assert walk.stack + [id] == [id];
      cycle := walk.Visit(id);
      if cycle {
        return;
      }
    }
    NoCycleAmongFinished(byId, walk.finished);
    return false;
  }

  lemma NoCycleAmongFinished(byId: Registry, finished: seq<Uuid>)
    requires ClosedOrder(InputEdges(byId), finished) && forall id :: id in byId ==> id in finished
    ensures Acyclic(InputEdges(byId))
  {
    forall p ensures !IsCycle(InputEdges(byId), p) {
      if |p| >= 2 && p[0] in byId {
        ClosedOrderHasNoCycle(InputEdges(byId), finished, p);
      } else if |p| >= 2 {
        assert (p[0], p[1]) !in InputEdges(byId);
      }
    }
  }

  // ---------------------------------------------------------------- registration

  /** The candidates taken so far are valid, below the target, and differ in identifier
      and source. */
  ghost predicate Registrable(target: Uuid, candidates: seq<Candidate>) {
    && (forall c :: c in candidates ==> Belongs(target, c))
    && (forall i, j :: 0 <= i < j < |candidates| ==>
          candidates[i].id != candidates[j].id && candidates[i].sourceKey != candidates[j].sourceKey)
  }

  ghost predicate Registers(byId: Registry, candidates: seq<Candidate>) {
    && (forall c :: c in candidates ==> c.id in byId && byId[c.id] == c)
    && (forall id :: id in byId ==> byId[id] in candidates && byId[id].id == id)
  }

  /** A measurement of a leaf at or below both its boundary and the target, completely
      described; exactly the virtual meters have inputs. */
  ghost predicate Belongs(target: Uuid, c: Candidate) {
    && NIL !in {c.id, c.owner, c.boundary} && c.sourceKey > 0 && c.semanticValid && c.ownerIsLeaf
    && c.boundary in [c.owner] + c.ownerAncestors && target in [c.owner] + c.ownerAncestors
    && c.role in {Direct, Main, Submeter, Virtual} && c.policy in {Include, Exclude}
    && (c.inputs != [] <==> c.role == Virtual)
  }

  lemma RegisterOne(target: Uuid, front: seq<Candidate>, c: Candidate, byId: Registry)
    requires Registrable(target, front) && Registers(byId, front) && Belongs(target, c) && c.id !in byId
    requires forall k :: 0 <= k < |front| ==> front[k].sourceKey != c.sourceKey
    ensures Registrable(target, front + [c]) && Registers(byId[c.id := c], front + [c])
  {
    forall k | 0 <= k < |front| ensures front[k].id != c.id {
      assert front[k] in front;
    }
  }

  /** The keys seen so far are exactly those of the registered candidates. */
  ghost predicate SourcesOf(bySource: map<nat, Uuid>, candidates: seq<Candidate>) {
    && (forall k :: 0 <= k < |candidates| ==> candidates[k].sourceKey in bySource)
    && (forall key :: key in bySource ==> exists k :: 0 <= k < |candidates| && candidates[k].sourceKey == key)
  }

  lemma SourceAdded(bySource: map<nat, Uuid>, front: seq<Candidate>, c: Candidate)
    requires SourcesOf(bySource, front)
    ensures SourcesOf(bySource[c.sourceKey := c.id], front + [c])
  {
    var all := front + [c];
    assert all[|front|] == c;
    forall key | key in bySource ensures exists k :: 0 <= k < |all| && all[k].sourceKey == key {
      var k :| 0 <= k < |front| && front[k].sourceKey == key;
      assert all[k].sourceKey == key;
    }
  }

  /** The checks of one candidate against those registered before it. */
  method Admit(target: Uuid, ghost candidates: seq<Candidate>, ghost i: nat, c: Candidate,
               byId: Registry, bySource: map<nat, Uuid>)
      returns (error: PlanError, ok: bool)
    requires i < |candidates| && candidates[i] == c
    requires Registers(byId, candidates[..i]) && SourcesOf(bySource, candidates[..i])
    ensures ok ==> Belongs(target, c) && c.id !in byId && c.sourceKey !in bySource
    ensures !ok ==> !Registrable(target, candidates) && error in {InvalidAggregation, DuplicateMeasurement}
  {
    if !c.Valid() || (c.owner != target && target !in c.ownerAncestors) {
      assert c in candidates;
      return InvalidAggregation, false;
    }
    if c.id in byId {
      ghost var k :| 0 <= k < i && candidates[..i][k] == byId[c.id];
      assert candidates[k].id == candidates[i].id;
      return DuplicateMeasurement, false;
    }
    if c.sourceKey in bySource {
      ghost var k :| 0 <= k < i && candidates[..i][k].sourceKey == c.sourceKey;
      assert candidates[k].sourceKey == candidates[i].sourceKey;
      return DuplicateMeasurement, false;
    }
    return InvalidAggregation, true;
  }

  method Register(target: Uuid, candidates: seq<Candidate>) returns (byId: Registry, error: PlanError, ok: bool)
    ensures ok <==> Registrable(target, candidates)
    ensures ok ==> Registers(byId, candidates)
    ensures !ok ==> error in {InvalidAggregation, DuplicateMeasurement}
  {
    byId, error, ok := map[], InvalidAggregation, true;
    var bySource: map<nat, Uuid> := map[];
    for i := 0 to |candidates|
      invariant ok && Registrable(target, candidates[..i])
      invariant Registers(byId, candidates[..i]) && SourcesOf(bySource, candidates[..i])
    {
      var c := candidates[i];
      error, ok := Admit(target, candidates, i, c, byId, bySource);
      if !ok {
        return;
      }
      assert candidates[..i + 1] == candidates[..i] + [c];
      RegisterOne(target, candidates[..i], c, byId);
      SourceAdded(bySource, candidates[..i], c);
      byId := byId[c.id := c];
      bySource := bySource[c.sourceKey := c.id];
    }
    assert candidates[..|candidates|] == candidates;
  }

  // ---------------------------------------------------------------- the passes

  /** The included main meter of each group, unless two share a group. */
  method FindMains(byId: Registry) returns (mainByGroup: map<(Uuid, nat), Uuid>, conflict: bool)
    ensures conflict <==> Conflict(byId)
    ensures !conflict ==>
              && (forall g :: g in mainByGroup ==> mainByGroup[g] in Mains(byId) && byId[mainByGroup[g]].Group() == g)
              && (forall m :: m in Mains(byId) ==>
                    byId[m].Group() in mainByGroup && mainByGroup[byId[m].Group()] == m)
  {
    mainByGroup := map[];
    var todo := byId.Keys;
    while todo != {}
      invariant todo <= byId.Keys
      invariant forall g :: g in mainByGroup ==>
                  mainByGroup[g] in Mains(byId) && mainByGroup[g] !in todo && byId[mainByGroup[g]].Group() == g
      invariant forall m :: m in Mains(byId) && m !in todo ==>
                  byId[m].Group() in mainByGroup && mainByGroup[byId[m].Group()] == m
      decreases todo
    {
      var id :| id in todo;
      todo := todo - {id};
      if byId[id].policy == Include && byId[id].role == Main {
        var group := byId[id].Group();
        if group in mainByGroup {
          assert mainByGroup[group] in Mains(byId) && id in Mains(byId);
          return mainByGroup, true;
        }
        mainByGroup := mainByGroup[group := id];
      }
    }
    return mainByGroup, false;
  }

  /** The visit of every meter in some order, as Select describes it. */
  method ReplaceInputs(byId: Registry, start: set<Uuid>)
      returns (included: set<Uuid>, ok: bool, ghost order: seq<Uuid>)
    requires start == AfterMains(byId)
    ensures IsIteration(byId, order)
    ensures SelectIn(byId, order) == if ok then Selected(included) else Invalid
  {
    included := start;
    order := [];
    var todo := byId.Keys;
    while todo != {}
      invariant Iterated(byId, order, todo) && Select(byId, order) == Selected(included)
      decreases todo
    {
      var id :| id in todo;
      ghost var next := order + [id];
      IterateOn(byId, order, todo, id);
      if id in included && byId[id].role == Virtual {
        var bad := AnyBadInput(byId, id);
        if bad {
          order := FinishOrder(byId, next, todo - {id});
          return included, false, order;
        }
        included := included - SetOf(byId[id].inputs);
      }
      todo, order := todo - {id}, next;
    }
    return included, true, order;
  }

  /** The registered meters outside `todo`, once each. */
  ghost predicate Iterated(byId: Registry, order: seq<Uuid>, todo: set<Uuid>) {
    && todo <= byId.Keys && Distinct(order) && SetOf(order) == byId.Keys - todo
    && forall id :: id in order ==> id in byId
  }

  lemma IterateOn(byId: Registry, order: seq<Uuid>, todo: set<Uuid>, id: Uuid)
    requires Iterated(byId, order, todo) && id in todo
    ensures Iterated(byId, order + [id], todo - {id})
    ensures Select(byId, order + [id]) == Visit(byId, Select(byId, order), id)
  {
    assert id !in SetOf(order);
    assert (order + [id])[..|order|] == order;
    assert SetOf(order + [id]) == SetOf(order) + {id};
  }

  method AnyBadInput(byId: Registry, v: Uuid) returns (bad: bool)
    requires v in byId
    ensures bad <==> BadInputs(byId, v)
  {
    var inputs := byId[v].inputs;
    for i := 0 to |inputs|
      invariant forall k :: 0 <= k < i ==> inputs[k] in byId && byId[inputs[k]].Group() == byId[v].Group()
    {
      if inputs[i] !in byId || byId[inputs[i]].Group() != byId[v].Group() {
        assert inputs[i] in byId[v].inputs;
        return true;
      }
    }
    return false;
  }

  /** Once invalid, the loop stays invalid however the iteration would have gone on. */
  lemma {:induction false} FinishOrder(byId: Registry, order: seq<Uuid>, todo: set<Uuid>) returns (full: seq<Uuid>)
    requires Iterated(byId, order, todo) && Select(byId, order) == Invalid
    ensures IsIteration(byId, full) && SelectIn(byId, full) == Invalid
    decreases todo
  {
    if todo == {} {
      full := order;
    } else {
      var id :| id in todo;
      IterateOn(byId, order, todo, id);
      full := FinishOrder(byId, order + [id], todo - {id});
    }
  }

  // ---------------------------------------------------------------- the plan

  /** Whatever is before place k is below x, and whatever is from there on above it. */
  lemma Straddles(r: seq<Uuid>, k: nat, x: Uuid)
    requires StrictlyIncreasing(r) && k <= |r| && (k > 0 ==> r[k - 1] < x) && (k < |r| ==> x < r[k])
    ensures forall y :: y in r[..k] ==> y < x
    ensures forall y :: y in r[k..] ==> x < y
  {
    forall i | 0 <= i < k ensures r[i] < x {
      assert r[i] <= r[k - 1];
    }
    forall i | k <= i < |r| ensures x < r[i] {
      assert r[k] <= r[i];
    }
  }

  lemma InsertionAdds(r: seq<Uuid>, k: nat, x: Uuid)
    requires k <= |r|
    ensures forall y :: y in r[..k] + [x] + r[k..] <==> y in r || y == x
  {
    assert r == r[..k] + r[k..];
    assert forall y :: y in r[..k] + r[k..] <==> y in r[..k] || y in r[k..];
  }

  lemma Insertion(r: seq<Uuid>, k: nat, x: Uuid)
    requires StrictlyIncreasing(r) && k <= |r| && (k > 0 ==> r[k - 1] < x) && (k < |r| ==> x < r[k])
    ensures StrictlyIncreasing(r[..k] + [x] + r[k..])
    ensures forall y :: y in r[..k] + [x] + r[k..] <==> y in r || y == x
  {
    InsertionAdds(r, k, x);
    Straddles(r, k, x);
    InsertionIncreases(r[..k], r[k..], x);
  }

  lemma InsertionIncreases(a: seq<Uuid>, b: seq<Uuid>, x: Uuid)
    requires StrictlyIncreasing(a) && StrictlyIncreasing(b)
    requires (forall y :: y in a ==> y < x) && forall y :: y in b ==> x < y
    ensures StrictlyIncreasing(a + [x] + b)
  {
    AscendingSplit(a, [x]);
    AscendingSplit(a + [x], b);
  }

  method Sorted(ids: set<Uuid>) returns (r: seq<Uuid>)
    ensures StrictlyIncreasing(r) && SetOf(r) == ids
  {
    r := [];
    var todo := ids;
    while todo != {}
      invariant StrictlyIncreasing(r) && todo <= ids
      invariant forall x :: x in r <==> x in ids && x !in todo
      decreases todo
    {
      var x :| x in todo;
      todo := todo - {x};
      var k := |r|;
      while k > 0 && r[k - 1] > x
        invariant 0 <= k <= |r| && forall i :: k <= i < |r| ==> x < r[i]
      {
        k := k - 1;
      }
      assert k > 0 ==> r[k - 1] in r;
      Insertion(r, k, x);
      r := r[..k] + [x] + r[k..];
    }
  }

  /** The plan partitions the registered meters by the selection of some map order. */
  ghost predicate IsPlan(byId: Registry, plan: Plan, order: seq<Uuid>) {
    && plan.Planned? && IsIteration(byId, order)
    && StrictlyIncreasing(plan.included) && StrictlyIncreasing(plan.excluded)
    && SelectIn(byId, order) == Selected(SetOf(plan.included))
    && SetOf(plan.excluded) == byId.Keys - SetOf(plan.included)
    && SetOf(plan.included) <= byId.Keys
  }

  method BuildRollupPlan(target: Uuid, candidates: seq<Candidate>)
      returns (plan: Plan, ghost byId: Registry, ghost order: seq<Uuid>)
    ensures plan.Planned? ==>
              && target != NIL && Registrable(target, candidates) && Registers(byId, candidates)
              && Acyclic(InputEdges(byId)) && !Conflict(byId) && IsPlan(byId, plan, order)
    ensures target == NIL || !Registrable(target, candidates) ==>
              plan.Refused? && plan.error in {InvalidAggregation, DuplicateMeasurement}
    ensures target != NIL && Registrable(target, candidates) ==>
              && Registers(byId, candidates) && IsIteration(byId, order)
              && (plan == Refused(VirtualMeterCycle) <==> !Acyclic(InputEdges(byId)))
              && (plan == Refused(ConflictingMeters) <==> Acyclic(InputEdges(byId)) && Conflict(byId))
              && (plan == Refused(InvalidAggregation) <==>
                    Acyclic(InputEdges(byId)) && !Conflict(byId) && SelectIn(byId, order) == Invalid)
              && plan != Refused(DuplicateMeasurement)
  {
    byId, order := map[], [];
    if target == NIL {
      return Refused(InvalidAggregation), byId, order;
    }
    var registry, error, ok := Register(target, candidates);
    byId := registry;
    if !ok {
      return Refused(error), byId, order;
    }
    order := ListOf(byId.Keys);
    var cyclic := VirtualDependencyCycle(registry);
    if cyclic {
      return Refused(VirtualMeterCycle), byId, order;
    }
    var mainByGroup, conflict := FindMains(registry);
    if conflict {
      return Refused(ConflictingMeters), byId, order;
    }
    var start := set id | id in registry && registry[id].policy == Include
                          && (registry[id].Group() in mainByGroup ==> mainByGroup[registry[id].Group()] == id);
    assert start == AfterMains(registry);
    var included, valid;
    included, valid, order := ReplaceInputs(registry, start);
    if !valid {
      return Refused(InvalidAggregation), byId, order;
    }
    SelectionIsRegistered(registry, order);
    var first := Sorted(included);
    var second := Sorted(registry.Keys - included);
    return Planned(first, second), byId, order;
  }

  lemma SelectionIsRegistered(byId: Registry, order: seq<Uuid>)
    requires IsIteration(byId, order) && SelectIn(byId, order).Selected?
    ensures SelectIn(byId, order).included <= byId.Keys
  {
    SelectInByActing(byId, order);
  }
}
