/** The cascade started by one tag value: every stored value is queued, and each queued
    value evaluates and stores the calculated tags it triggers, up to a fixed number. */
module CalculatedCascade {
  import opened Identifiers
  import opened Digraph
  import opened CalculatedOrder
  import opened TagValues

  const MAX_CALCULATED_CASCADE_VALUES := 1024

  datatype Event = Event(tagId: Uuid, quality: Quality)

  /** Calculated tags by the tag that triggers them. */
  type Relation = map<Uuid, seq<CalculatedTag>>

  /** One evaluation: the triggering value, the tag, and whether its value was stored. */
  datatype Attempt = Attempt(trigger: Event, tag: CalculatedTag, quality: Quality, stored: bool) {
    function Result(): Event {
      Event(tag.id, quality)
    }
  }

  /** Everything the cascade does not decide itself: the trigger relation found by the
      k-th lookup, and whether the k-th evaluation and the k-th store succeed. */
  datatype Environment = Environment(
    relation: nat -> Relation,
    evaluates: nat -> bool,
    stores: nat -> bool
  )

  function TriggeredBy(relation: Relation, id: Uuid): seq<CalculatedTag> {
    if id in relation then relation[id] else []
  }

  function AttemptIds(attempts: seq<Attempt>): (r: seq<Uuid>)
    ensures |r| == |attempts| && forall i :: 0 <= i < |r| ==> r[i] == attempts[i].tag.id
  {
    seq(|attempts|, i requires 0 <= i < |attempts| => attempts[i].tag.id)
  }

  /** The stored values, oldest first. */
  function Stored(attempts: seq<Attempt>): (r: seq<Event>)
    ensures |r| <= |attempts|
  {
    if attempts == [] then []
    else
      var last := attempts[|attempts| - 1];
      Stored(attempts[..|attempts| - 1]) + if last.stored then [last.Result()] else []
  }

  function EventIds(events: seq<Event>): (r: seq<Uuid>)
    ensures |r| == |events| && forall i :: 0 <= i < |r| ==> r[i] == events[i].tagId
  {
    seq(|events|, i requires 0 <= i < |events| => events[i].tagId)
  }

  // ------------------------------------------------------------ the trigger relation

  function TriggerEdges(relation: Relation): Edges {
    set t, c | t in relation && c in relation[t] :: (t, c.id)
  }

  /** Every calculated tag is listed under one trigger only. */
  ghost predicate OneTrigger(relation: Relation) {
    forall s, t, x :: (s, x) in TriggerEdges(relation) && (t, x) in TriggerEdges(relation) ==> s == t
  }

  /** The calculated tags that trigger edges lead to from x. */
  ghost function Downstream(relation: Relation, x: Uuid): set<Uuid> {
    set t, c | t in relation && c in relation[t] && Reaches(TriggerEdges(relation), x, t) :: c.id
  }

  // ------------------------------------------------------------ one trigger

  /** The attempts of one trigger follow the given order and stop only at the limit. */
  ghost predicate IsBatch(batch: seq<Attempt>, trigger: Event, ordered: seq<CalculatedTag>) {
    && |batch| <= |ordered|
    && forall i :: 0 <= i < |batch| ==>
         batch[i].trigger == trigger && batch[i].tag == ordered[i]
  }

  /** The outcomes are those of the environment, from the given index on; a bad trigger is
      never evaluated and makes the result bad. */
  ghost predicate FollowsEnvironment(environment: Environment, start: nat, attempts: seq<Attempt>) {
    forall i :: 0 <= i < |attempts| ==> FollowsOutcome(environment, start + i, attempts[i])
  }

  ghost predicate FollowsOutcome(environment: Environment, k: nat, attempt: Attempt) {
    && attempt.stored == environment.stores(k)
    && (attempt.quality == Good <==> attempt.trigger.quality == Good && environment.evaluates(k))
  }

  lemma FollowsEnvironmentConcat(environment: Environment, attempts: seq<Attempt>, batch: seq<Attempt>)
    requires FollowsEnvironment(environment, 0, attempts) && FollowsEnvironment(environment, |attempts|, batch)
    ensures FollowsEnvironment(environment, 0, attempts + batch)
  {
    var all := attempts + batch;
    forall i | 0 <= i < |all| ensures FollowsOutcome(environment, i, all[i]) {
      if i >= |attempts| {
        assert all[i] == batch[i - |attempts|];
      }
    }
  }

  lemma StoredAppend(attempts: seq<Attempt>, a: Attempt)
    ensures Stored(attempts + [a]) == Stored(attempts) + if a.stored then [a.Result()] else []
  {
    assert (attempts + [a])[..|attempts|] == attempts;
  }

  /** The results of exactly the attempts whose value was stored are stored, in order. */
  ghost predicate AreStored(attempts: seq<Attempt>, stored: seq<Event>, place: seq<nat>) {
    && |place| == |stored|
    && (forall k :: 0 <= k < |place| ==>
          && place[k] < |attempts| && attempts[place[k]].stored
          && stored[k] == Event(attempts[place[k]].tag.id, attempts[place[k]].quality))
    && (forall j, k :: 0 <= j < k < |place| ==> place[j] < place[k])
    && (forall i :: 0 <= i < |attempts| && attempts[i].stored ==> i in place)
  }

  lemma AreStoredNext(attempts: seq<Attempt>, stored: seq<Event>, place: seq<nat>, last: Attempt)
    requires AreStored(attempts, stored, place)
    ensures if last.stored then AreStored(attempts + [last], stored + [last.Result()], place + [|attempts|])
            else AreStored(attempts + [last], stored, place)
  {
    var all, places := attempts + [last], place + [|attempts|];
    assert all[|attempts|] == last && forall i :: 0 <= i < |attempts| ==> all[i] == attempts[i];
    assert forall i :: i in place ==> i in places;
    assert |attempts| in places;
  }

  lemma {:induction false} StoredAreResults(attempts: seq<Attempt>) returns (place: seq<nat>)
    ensures AreStored(attempts, Stored(attempts), place)
  {
    if attempts == [] {
      place := [];
    } else {
      var front, last := attempts[..|attempts| - 1], attempts[|attempts| - 1];
      place := StoredAreResults(front);
      AreStoredNext(front, Stored(front), place, last);
      assert attempts == front + [last];
      if last.stored {
        place := place + [|front|];
      } else {
        assert Stored(front) + [] == Stored(front);
      }
    }
  }

  lemma AttemptKeepsBatch(environment: Environment, trigger: Event, ordered: seq<CalculatedTag>,
                          done: nat, batch: seq<Attempt>, attempt: Attempt)
    requires IsBatch(batch, trigger, ordered) && FollowsEnvironment(environment, done, batch) && |batch| < |ordered|
    requires attempt.trigger == trigger && attempt.tag == ordered[|batch|]
    requires FollowsOutcome(environment, done + |batch|, attempt)
    ensures IsBatch(batch + [attempt], trigger, ordered) && FollowsEnvironment(environment, done, batch + [attempt])
  {
  }

  method ProcessTrigger(environment: Environment, trigger: Event, ordered: seq<CalculatedTag>,
                        done: nat, stored: nat)
      returns (batch: seq<Attempt>, capped: bool)
    requires stored < MAX_CALCULATED_CASCADE_VALUES
    ensures IsBatch(batch, trigger, ordered)
    ensures FollowsEnvironment(environment, done, batch)
    ensures capped <==> stored + |Stored(batch)| >= MAX_CALCULATED_CASCADE_VALUES
    ensures stored + |Stored(batch)| <= MAX_CALCULATED_CASCADE_VALUES
    ensures !capped ==> |batch| == |ordered|
  {
    batch := [];
    for i := 0 to |ordered|
      invariant IsBatch(batch, trigger, ordered) && |batch| == i
      invariant FollowsEnvironment(environment, done, batch)
      invariant stored + |Stored(batch)| < MAX_CALCULATED_CASCADE_VALUES
    {
      var quality := if trigger.quality == Good && environment.evaluates(done + i) then Good else Bad;
      var attempt := Attempt(trigger, ordered[i], quality, environment.stores(done + i));
      StoredAppend(batch, attempt);
      AttemptKeepsBatch(environment, trigger, ordered, done, batch, attempt);
      batch := batch + [attempt];
      if stored + |Stored(batch)| >= MAX_CALCULATED_CASCADE_VALUES {
        return batch, true;
      }
    }
    return batch, false;
  }

  // ------------------------------------------------------------ invariants of the cascade

  /** Evaluated tags are distinct, reached from the first value by trigger edges, and
      evaluated for a trigger whose value was taken from the queue. */
  ghost predicate Traced(relation: Relation, x: Uuid, popped: seq<Uuid>, attempts: seq<Attempt>) {
    && Distinct([x] + AttemptIds(attempts))
    && forall a :: a in attempts ==>
         && a.trigger.tagId in popped
         && (a.trigger.tagId, a.tag.id) in TriggerEdges(relation)
         && Reaches(TriggerEdges(relation), x, a.trigger.tagId)
  }

  /** The first value and the stored values are what was taken plus what is queued. */
  ghost predicate Queued(x: Uuid, popped: seq<Uuid>, queue: seq<Uuid>, attempts: seq<Attempt>) {
    [x] + EventIds(Stored(attempts)) == popped + queue
  }

  /** Every tag triggered by a taken value was evaluated. */
  ghost predicate Complete(relation: Relation, popped: seq<Uuid>, attempts: seq<Attempt>) {
    forall t, c :: t in popped && (t, c) in TriggerEdges(relation) ==> c in AttemptIds(attempts)
  }

  /** A tag is evaluated after those of its dependencies that share its trigger. */
  ghost predicate SameTriggerOrdered(attempts: seq<Attempt>) {
    forall i, j :: 0 <= i <= j < |attempts| && attempts[i].trigger.tagId == attempts[j].trigger.tagId ==>
      attempts[j].tag.id !in attempts[i].tag.dependencies
  }

  lemma StoredIdsAppend(attempts: seq<Attempt>, a: Attempt)
    ensures EventIds(Stored(attempts + [a])) == EventIds(Stored(attempts)) + if a.stored then [a.tag.id] else []
    ensures AttemptIds(attempts + [a]) == AttemptIds(attempts) + [a.tag.id]
  {
    StoredAppend(attempts, a);
  }

  lemma {:induction false} StoredIdsAreAttempted(attempts: seq<Attempt>, y: Uuid)
    requires y in EventIds(Stored(attempts))
    ensures y in AttemptIds(attempts)
  {
    if attempts != [] {
      var front, last := attempts[..|attempts| - 1], attempts[|attempts| - 1];
      StoredIdsAppend(front, last);
      assert attempts == front + [last];
      if y in EventIds(Stored(front)) {
        StoredIdsAreAttempted(front, y);
      }
    }
  }

  /** Among distinct attempts the stored values are distinct too. */
  lemma {:induction false} StoredIdsDistinct(x: Uuid, attempts: seq<Attempt>)
    requires Distinct([x] + AttemptIds(attempts))
    ensures Distinct([x] + EventIds(Stored(attempts)))
  {
    if attempts != [] {
      var front, last := attempts[..|attempts| - 1], attempts[|attempts| - 1];
      assert attempts == front + [last];
      var ids := [x] + AttemptIds(attempts);
      assert ids == [x] + AttemptIds(front) + [last.tag.id];
      DistinctPrefix([x] + AttemptIds(front), last.tag.id);
      StoredIdsDistinct(x, front);
      StoredAppend(front, last);
      var before := [x] + EventIds(Stored(front));
      if last.stored {
        forall y | y == last.tag.id ensures y !in before {
          if y in EventIds(Stored(front)) {
            StoredIdsAreAttempted(front, y);
          }
        }
        DistinctAppend(before, [last.tag.id]);
        assert [x] + EventIds(Stored(attempts)) == before + [last.tag.id];
      } else {
        assert Stored(attempts) == Stored(front);
      }
    }
  }

  lemma DistinctPrefix<T(!new)>(s: seq<T>, x: T)
    requires Distinct(s + [x])
    ensures Distinct(s) && x !in s
  {
    var whole := s + [x];
    forall i | 0 <= i < |s| ensures s[i] != x {
      assert whole[i] != whole[|s|];
    }
    forall i, j | 0 <= i < j < |s| ensures s[i] != s[j] {
      assert whole[i] != whole[j];
    }
  }

  lemma DistinctAppend<T(!new)>(s: seq<T>, u: seq<T>)
    requires Distinct(s) && Distinct(u) && forall y :: y in u ==> y !in s
    ensures Distinct(s + u)
  {
    forall i, j | 0 <= i < j < |s + u| ensures (s + u)[i] != (s + u)[j] {
      if j >= |s| {
        assert u[j - |s|] in u;
        if i >= |s| {
          assert u[i - |s|] != u[j - |s|];
        }
      }
    }
  }

  lemma {:induction false} StoredConcat(attempts: seq<Attempt>, batch: seq<Attempt>)
    ensures Stored(attempts + batch) == Stored(attempts) + Stored(batch)
  {
    if batch == [] {
      assert attempts + batch == attempts;
      assert Stored(attempts) + [] == Stored(attempts);
    } else {
      var front, last := batch[..|batch| - 1], batch[|batch| - 1];
      assert batch == front + [last];
      StoredConcat(attempts, front);
      StoredConcatNext(attempts, front, last);
    }
  }

  lemma StoredConcatNext(attempts: seq<Attempt>, front: seq<Attempt>, last: Attempt)
    requires Stored(attempts + front) == Stored(attempts) + Stored(front)
    ensures Stored(attempts + (front + [last])) == Stored(attempts) + Stored(front + [last])
  {
    var result := if last.stored then [last.Result()] else [];
    StoredAppend(front, last);
    StoredAppend(attempts + front, last);
    Reassociate(attempts, front, [last]);
    Reassociate(Stored(attempts), Stored(front), result);
  }

  lemma Reassociate<T>(a: seq<T>, b: seq<T>, c: seq<T>)
    ensures a + (b + c) == a + b + c
  {
  }

  /** Whatever is or was queued is reached from the first value. */
  lemma QueuedIsReached(relation: Relation, x: Uuid, popped: seq<Uuid>, queue: seq<Uuid>,
                        attempts: seq<Attempt>, y: Uuid)
    requires Traced(relation, x, popped, attempts) && Queued(x, popped, queue, attempts)
    requires y in popped || y in queue
    ensures Reaches(TriggerEdges(relation), x, y)
  {
    assert y in popped + queue;
    if y == x {
      ReachesSelf(TriggerEdges(relation), x);
    } else {
      assert y in EventIds(Stored(attempts));
      StoredIdsAreAttempted(attempts, y);
      var i :| 0 <= i < |attempts| && attempts[i].tag.id == y;
      assert attempts[i] in attempts;
      ReachesStep(TriggerEdges(relation), x, attempts[i].trigger.tagId, y);
    }
  }

  /** Nothing is queued twice. */
  lemma QueuedOnce(relation: Relation, x: Uuid, popped: seq<Uuid>, t: Uuid, rest: seq<Uuid>, attempts: seq<Attempt>)
    requires Traced(relation, x, popped, attempts) && Queued(x, popped, [t] + rest, attempts)
    ensures t !in popped
  {
    StoredIdsDistinct(x, attempts);
    var all := popped + ([t] + rest);
    forall i | 0 <= i < |popped| ensures popped[i] != t {
      assert all[i] != all[|popped|];
    }
  }

  ghost predicate WellFormed(relation: Relation) {
    OneTrigger(relation) && Acyclic(TriggerEdges(relation))
  }

  /** A tag triggered by t is new: it is not the first value, and was not evaluated before. */
  lemma TriggeredIsNew(relation: Relation, x: Uuid, popped: seq<Uuid>, t: Uuid, rest: seq<Uuid>,
                       attempts: seq<Attempt>, c: Uuid)
    requires WellFormed(relation)
    requires Traced(relation, x, popped, attempts) && Queued(x, popped, [t] + rest, attempts)
    requires (t, c) in TriggerEdges(relation)
    ensures c !in [x] + AttemptIds(attempts)
  {
    QueuedIsReached(relation, x, popped, [t] + rest, attempts, t);
    QueuedOnce(relation, x, popped, t, rest, attempts);
    if c == x {
      var p :| PathBetween(TriggerEdges(relation), p, x, t);
      Extend(TriggerEdges(relation), p, x, t, x);
      assert IsCycle(TriggerEdges(relation), p + [x]);
    }
    forall i | 0 <= i < |attempts| ensures attempts[i].tag.id != c {
      assert attempts[i] in attempts;
    }
  }

  /** The ordered tags of a trigger are exactly its edges. */
  lemma OrderedAreTriggered(relation: Relation, t: Uuid, ordered: seq<CalculatedTag>)
    requires IsArrangement(ordered, ById(TriggeredBy(relation, t)))
    ensures forall c :: (t, c) in TriggerEdges(relation) <==> c in Ids(ordered)
  {
    forall c ensures (t, c) in TriggerEdges(relation) <==> c in Ids(ordered) {
      assert c in Ids(ordered) <==> c in ById(TriggeredBy(relation, t));
      if c in ById(TriggeredBy(relation, t)) {
        assert ById(TriggeredBy(relation, t))[c] in TriggeredBy(relation, t);
      }
    }
  }

  lemma BatchIsTriggered(relation: Relation, t: Event, batch: seq<Attempt>, ordered: seq<CalculatedTag>)
    requires IsArrangement(ordered, ById(TriggeredBy(relation, t.tagId))) && IsBatch(batch, t, ordered)
    ensures Distinct(AttemptIds(batch))
    ensures forall a :: a in batch ==> a.trigger == t && (t.tagId, a.tag.id) in TriggerEdges(relation)
  {
    OrderedAreTriggered(relation, t.tagId, ordered);
    assert AttemptIds(batch) == Ids(ordered)[..|batch|];
    forall i | 0 <= i < |batch| ensures (t.tagId, batch[i].tag.id) in TriggerEdges(relation) {
      assert Ids(ordered)[i] == batch[i].tag.id;
    }
  }

  lemma BatchIdsAreNew(relation: Relation, x: Uuid, popped: seq<Uuid>, t: Uuid, rest: seq<Uuid>,
                       attempts: seq<Attempt>, batch: seq<Attempt>)
    requires WellFormed(relation)
    requires Traced(relation, x, popped, attempts) && Queued(x, popped, [t] + rest, attempts)
    requires Distinct(AttemptIds(batch))
    requires forall a :: a in batch ==> (t, a.tag.id) in TriggerEdges(relation)
    ensures Distinct([x] + AttemptIds(attempts + batch))
  {
    forall y | y in AttemptIds(batch) ensures y !in [x] + AttemptIds(attempts) {
      var i :| 0 <= i < |batch| && batch[i].tag.id == y;
      assert batch[i] in batch;
      TriggeredIsNew(relation, x, popped, t, rest, attempts, y);
    }
    DistinctAppend([x] + AttemptIds(attempts), AttemptIds(batch));
    assert [x] + AttemptIds(attempts + batch) == [x] + AttemptIds(attempts) + AttemptIds(batch);
  }

  lemma BatchIsQueued(x: Uuid, popped: seq<Uuid>, t: Uuid, rest: seq<Uuid>,
                      attempts: seq<Attempt>, batch: seq<Attempt>)
    requires Queued(x, popped, [t] + rest, attempts)
    ensures Queued(x, popped + [t], rest + EventIds(Stored(batch)), attempts + batch)
  {
    StoredConcat(attempts, batch);
    EventIdsConcat(Stored(attempts), Stored(batch));
    Regroup([x], EventIds(Stored(attempts)), EventIds(Stored(batch)), popped, [t], rest);
  }

  lemma Regroup(a: seq<Uuid>, b: seq<Uuid>, c: seq<Uuid>, d: seq<Uuid>, e: seq<Uuid>, f: seq<Uuid>)
    requires a + b == d + (e + f)
    ensures a + (b + c) == d + e + (f + c)
  {
    assert a + (b + c) == a + b + c;
    assert d + e + (f + c) == d + (e + f) + c;
  }

  lemma BatchIsTraced(relation: Relation, x: Uuid, popped: seq<Uuid>, t: Event, rest: seq<Uuid>,
                      attempts: seq<Attempt>, batch: seq<Attempt>, ordered: seq<CalculatedTag>)
    requires WellFormed(relation)
    requires Traced(relation, x, popped, attempts) && Queued(x, popped, [t.tagId] + rest, attempts)
    requires IsArrangement(ordered, ById(TriggeredBy(relation, t.tagId))) && IsBatch(batch, t, ordered)
    ensures Traced(relation, x, popped + [t.tagId], attempts + batch)
  {
    BatchIsTriggered(relation, t, batch, ordered);
    BatchIdsAreNew(relation, x, popped, t.tagId, rest, attempts, batch);
    QueuedIsReached(relation, x, popped, [t.tagId] + rest, attempts, t.tagId);
    forall a | a in attempts + batch
      ensures a.trigger.tagId in popped + [t.tagId]
      ensures (a.trigger.tagId, a.tag.id) in TriggerEdges(relation)
      ensures Reaches(TriggerEdges(relation), x, a.trigger.tagId)
    {
      assert a in attempts || a in batch;
    }
  }

  lemma BatchIsComplete(relation: Relation, popped: seq<Uuid>, t: Event, attempts: seq<Attempt>,
                        batch: seq<Attempt>, ordered: seq<CalculatedTag>)
    requires Complete(relation, popped, attempts)
    requires IsArrangement(ordered, ById(TriggeredBy(relation, t.tagId)))
    requires IsBatch(batch, t, ordered) && |batch| == |ordered|
    ensures Complete(relation, popped + [t.tagId], attempts + batch)
  {
    OrderedAreTriggered(relation, t.tagId, ordered);
    assert AttemptIds(attempts + batch) == AttemptIds(attempts) + AttemptIds(batch);
    assert AttemptIds(batch) == Ids(ordered);
  }

  lemma BatchKeepsOrder(relation: Relation, x: Uuid, popped: seq<Uuid>, t: Event, rest: seq<Uuid>,
                        attempts: seq<Attempt>, batch: seq<Attempt>, ordered: seq<CalculatedTag>)
    requires Traced(relation, x, popped, attempts) && Queued(x, popped, [t.tagId] + rest, attempts)
    requires SameTriggerOrdered(attempts) && DependenciesFirst(ordered) && IsBatch(batch, t, ordered)
    ensures SameTriggerOrdered(attempts + batch)
  {
    QueuedOnce(relation, x, popped, t.tagId, rest, attempts);
    var all := attempts + batch;
    forall i, j | 0 <= i <= j < |all| && all[i].trigger.tagId == all[j].trigger.tagId
      ensures all[j].tag.id !in all[i].tag.dependencies
    {
      assert i < |attempts| ==> all[i] in attempts;
      if |attempts| <= i {
        assert ordered[j - |attempts|].id !in ordered[i - |attempts|].dependencies;
      }
    }
  }

  // ------------------------------------------------------------ what is reached

  lemma {:induction false} ClosedUnderEdges(edges: Edges, closed: set<Uuid>, p: seq<Uuid>)
    requires IsPath(edges, p) && p[0] in closed
    requires forall s, c :: s in closed && (s, c) in edges ==> c in closed
    ensures p[|p| - 1] in closed
  {
    if |p| > 1 {
      var front := p[..|p| - 1];
      ClosedUnderEdges(edges, closed, front);
      assert (p[|p| - 2], p[|p| - 1]) in edges;
    }
  }

  lemma {:induction false} AllStored(attempts: seq<Attempt>)
    requires forall a :: a in attempts ==> a.stored
    ensures EventIds(Stored(attempts)) == AttemptIds(attempts)
  {
    if attempts != [] {
      var front, last := attempts[..|attempts| - 1], attempts[|attempts| - 1];
      AllStored(front);
      StoredAppend(front, last);
      assert attempts == front + [last];
      assert last in attempts;
    }
  }

  lemma EvaluatedIsDownstream(relation: Relation, x: Uuid, popped: seq<Uuid>, attempts: seq<Attempt>)
    requires Traced(relation, x, popped, attempts)
    ensures SetOf(AttemptIds(attempts)) <= Downstream(relation, x)
    ensures |SetOf(AttemptIds(attempts))| == |attempts|
  {
    forall y | y in AttemptIds(attempts) ensures y in Downstream(relation, x) {
      var i :| 0 <= i < |attempts| && attempts[i].tag.id == y;
      assert attempts[i] in attempts;
    }
    DistinctSuffix(x, AttemptIds(attempts));
    DistinctSize(AttemptIds(attempts));
  }

  lemma DistinctSuffix<T(!new)>(x: T, s: seq<T>)
    requires Distinct([x] + s)
    ensures Distinct(s)
  {
    var whole := [x] + s;
    forall i, j | 0 <= i < j < |s| ensures s[i] != s[j] {
      assert whole[i + 1] != whole[j + 1];
    }
  }

  /** When the queue has run dry and every value was stored, everything downstream was
      evaluated. */
  lemma DrainedCoversDownstream(relation: Relation, x: Uuid, popped: seq<Uuid>, attempts: seq<Attempt>)
    requires Traced(relation, x, popped, attempts) && Complete(relation, popped, attempts)
    requires Queued(x, popped, [], attempts) && forall a :: a in attempts ==> a.stored
    ensures SetOf(AttemptIds(attempts)) == Downstream(relation, x)
  {
    AllStored(attempts);
    assert popped == [x] + AttemptIds(attempts);
    EvaluatedIsDownstream(relation, x, popped, attempts);
    var edges := TriggerEdges(relation);
    forall y | y in Downstream(relation, x) ensures y in AttemptIds(attempts) {
      var t, c :| t in relation && c in relation[t] && Reaches(edges, x, t) && c.id == y;
      var p :| PathBetween(edges, p, x, t);
      forall s, d | s in SetOf(popped) && (s, d) in edges ensures d in SetOf(popped) {
        assert d in AttemptIds(attempts);
      }
      ClosedUnderEdges(edges, SetOf(popped), p);
      assert (t, y) in edges;
    }
  }

  /** At the limit, too, when no more than that many tags are downstream. */
  lemma CappedCoversDownstream(relation: Relation, x: Uuid, popped: seq<Uuid>, attempts: seq<Attempt>)
    requires Traced(relation, x, popped, attempts)
    requires |Stored(attempts)| == MAX_CALCULATED_CASCADE_VALUES
    requires |Downstream(relation, x)| <= MAX_CALCULATED_CASCADE_VALUES
    ensures SetOf(AttemptIds(attempts)) == Downstream(relation, x)
  {
    EvaluatedIsDownstream(relation, x, popped, attempts);
    SubsetSize(SetOf(AttemptIds(attempts)), Downstream(relation, x));
  }

  // ------------------------------------------------------------ the cascade

  ghost predicate FixedRelation(environment: Environment, relation: Relation) {
    forall k :: environment.relation(k) == relation
  }

  /** The tags of each trigger have no dependency cycle among themselves. */
  ghost predicate DependenciesAcyclic(relation: Relation) {
    forall t :: Acyclic(InListEdges(ById(TriggeredBy(relation, t))))
  }

  /** What holds of the cascade after any number of handled triggers. */
  ghost predicate Progress(relation: Relation, x: Uuid, popped: seq<Uuid>, queue: seq<Event>,
                           attempts: seq<Attempt>, capped: bool) {
    && Traced(relation, x, popped, attempts)
    && (DependenciesAcyclic(relation) ==> SameTriggerOrdered(attempts))
    && (!capped ==> Queued(x, popped, EventIds(queue), attempts) && Complete(relation, popped, attempts))
  }

  lemma BatchKeepsProgress(relation: Relation, x: Uuid, popped: seq<Uuid>, t: Event, rest: seq<Event>,
                           attempts: seq<Attempt>, batch: seq<Attempt>, ordered: seq<CalculatedTag>, capped: bool)
    requires WellFormed(relation)
    requires Progress(relation, x, popped, [t] + rest, attempts, false)
    requires IsArrangement(ordered, ById(TriggeredBy(relation, t.tagId)))
    requires Acyclic(InListEdges(ById(TriggeredBy(relation, t.tagId)))) ==> DependenciesFirst(ordered)
    requires IsBatch(batch, t, ordered) && (!capped ==> |batch| == |ordered|)
    ensures Progress(relation, x, popped + [t.tagId], rest + Stored(batch), attempts + batch, capped)
  {
    EventIdsConcat([t], rest);
    EventIdsConcat(rest, Stored(batch));
    assert EventIds([t]) == [t.tagId];
    BatchIsTraced(relation, x, popped, t, EventIds(rest), attempts, batch, ordered);
    if !capped {
      BatchIsQueued(x, popped, t.tagId, EventIds(rest), attempts, batch);
      BatchIsComplete(relation, popped, t, attempts, batch, ordered);
    }
    if DependenciesAcyclic(relation) {
      BatchKeepsOrder(relation, x, popped, t, EventIds(rest), attempts, batch, ordered);
    }
  }

  lemma EventIdsConcat(s: seq<Event>, u: seq<Event>)
    ensures EventIds(s + u) == EventIds(s) + EventIds(u)
  {
  }

  lemma FinishedCoversDownstream(relation: Relation, x: Uuid, popped: seq<Uuid>, attempts: seq<Attempt>, capped: bool)
    requires Progress(relation, x, popped, [], attempts, capped)
    requires capped ==> |Stored(attempts)| == MAX_CALCULATED_CASCADE_VALUES
    ensures SetOf(AttemptIds(attempts)) <= Downstream(relation, x)
    ensures !capped ==> Complete(relation, [x] + EventIds(Stored(attempts)), attempts)
    ensures (forall a :: a in attempts ==> a.stored)
            && |Downstream(relation, x)| <= MAX_CALCULATED_CASCADE_VALUES ==>
              SetOf(AttemptIds(attempts)) == Downstream(relation, x)
  {
    EvaluatedIsDownstream(relation, x, popped, attempts);
    assert EventIds([]) == [];
    assert popped + [] == popped;
    if (forall a :: a in attempts ==> a.stored)
       && |Downstream(relation, x)| <= MAX_CALCULATED_CASCADE_VALUES {
      if capped {
        CappedCoversDownstream(relation, x, popped, attempts);
      } else {
        DrainedCoversDownstream(relation, x, popped, attempts);
      }
    }
  }

  ghost predicate AllBad(queue: seq<Event>, attempts: seq<Attempt>) {
    && (forall e :: e in queue ==> e.quality == Bad)
    && (forall a :: a in attempts ==> a.quality == Bad)
  }

  lemma {:induction false} StoredOfBad(attempts: seq<Attempt>)
    requires forall a :: a in attempts ==> a.quality == Bad
    ensures forall e :: e in Stored(attempts) ==> e.quality == Bad
  {
    if attempts != [] {
      StoredOfBad(attempts[..|attempts| - 1]);
      assert attempts[|attempts| - 1] in attempts;
    }
  }

  lemma BatchOfBad(environment: Environment, start: nat, batch: seq<Attempt>, trigger: Event,
                   ordered: seq<CalculatedTag>)
    requires trigger.quality == Bad && IsBatch(batch, trigger, ordered)
    requires FollowsEnvironment(environment, start, batch)
    ensures AllBad(Stored(batch), batch)
  {
    forall a | a in batch ensures a.quality == Bad {
      var i :| 0 <= i < |batch| && batch[i] == a;
      assert FollowsOutcome(environment, start + i, batch[i]);
    }
    StoredOfBad(batch);
  }

  lemma BatchStaysBad(environment: Environment, trigger: Event, rest: seq<Event>, attempts: seq<Attempt>,
                      batch: seq<Attempt>, ordered: seq<CalculatedTag>)
    requires AllBad([trigger] + rest, attempts) && IsBatch(batch, trigger, ordered)
    requires FollowsEnvironment(environment, |attempts|, batch)
    ensures AllBad(rest + Stored(batch), attempts + batch) && AllBad([], attempts + batch)
  {
    assert trigger in [trigger] + rest && forall e :: e in rest ==> e in [trigger] + rest;
    BatchOfBad(environment, |attempts|, batch, trigger, ordered);
  }

  /** The handling of one event. Whatever the relation does meanwhile, it stops after the
      permitted number of stored values. With a fixed well-formed relation each tag
      downstream of the event is evaluated at most once, after the tags of the same
      trigger it depends on, and exactly once when all stores succeed and no more than
      the permitted number is downstream. */
  method RunCascade(environment: Environment, first: Event, ghost relation: Relation)
      returns (attempts: seq<Attempt>, reported: bool)
    ensures |Stored(attempts)| <= 1024
    ensures reported <==> |Stored(attempts)| == 1024
    ensures FollowsEnvironment(environment, 0, attempts)
    ensures first.quality == Bad ==> forall a :: a in attempts ==> a.quality == Bad
    ensures FixedRelation(environment, relation) && WellFormed(relation) ==>
              Distinct([first.tagId] + AttemptIds(attempts))
              && SetOf(AttemptIds(attempts)) <= Downstream(relation, first.tagId)
              && (DependenciesAcyclic(relation) ==> SameTriggerOrdered(attempts))
              && (!reported ==>
                    Complete(relation, [first.tagId] + EventIds(Stored(attempts)), attempts))
    ensures FixedRelation(environment, relation) && WellFormed(relation)
            && (forall k :: environment.stores(k))
            && |Downstream(relation, first.tagId)| <= MAX_CALCULATED_CASCADE_VALUES ==>
              SetOf(AttemptIds(attempts)) == Downstream(relation, first.tagId)
  {
    var queue := [first];
    attempts, reported := [], false;
    var lookups: nat := 0;
    ghost var popped: seq<Uuid> := [];
    ghost var fixed := FixedRelation(environment, relation) && WellFormed(relation);
    while |queue| > 0
      invariant reported <==> |Stored(attempts)| >= MAX_CALCULATED_CASCADE_VALUES
      invariant |Stored(attempts)| <= MAX_CALCULATED_CASCADE_VALUES
      invariant reported ==> queue == []
      invariant FollowsEnvironment(environment, 0, attempts)
      invariant first.quality == Bad ==> AllBad(queue, attempts)
      invariant fixed ==> Progress(relation, first.tagId, popped, queue, attempts, reported)
      decreases MAX_CALCULATED_CASCADE_VALUES - |Stored(attempts)|, |queue|
    {
      var trigger, rest := queue[0], queue[1..];
      assert queue == [trigger] + rest;
      var ordered := OrderCalculatedTags(TriggeredBy(environment.relation(lookups), trigger.tagId));
      var batch, capped := ProcessTrigger(environment, trigger, ordered, |attempts|, |Stored(attempts)|);
      StoredConcat(attempts, batch);
      FollowsEnvironmentConcat(environment, attempts, batch);
      if fixed {
        BatchKeepsProgress(relation, first.tagId, popped, trigger, rest, attempts, batch, ordered, capped);
      }
      if first.quality == Bad {
        BatchStaysBad(environment, trigger, rest, attempts, batch, ordered);
      }
      popped := popped + [trigger.tagId];
      queue := if capped then [] else rest + Stored(batch);
      attempts, reported, lookups := attempts + batch, capped, lookups + 1;
    }
    if fixed {
      FinishedCoversDownstream(relation, first.tagId, popped, attempts, reported);
    }
  }
}
