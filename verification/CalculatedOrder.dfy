/** The order in which the calculated tags of one trigger are evaluated. */
module CalculatedOrder {
  import opened Identifiers
  import opened Digraph

  datatype CalculatedTag = CalculatedTag(id: Uuid, dependencies: seq<Uuid>)

  type Registry = map<Uuid, CalculatedTag>

  /** The last definition under each identifier. */
  function ById(tags: seq<CalculatedTag>): (r: Registry)
    ensures forall x :: x in r ==> r[x].id == x && r[x] in tags
    ensures forall t :: t in tags ==> t.id in r
  {
    if tags == [] then map[]
    else
      var last := tags[|tags| - 1];
      ById(tags[..|tags| - 1])[last.id := last]
  }

  /** Of two definitions with one identifier the later one counts. */
  lemma {:induction false} LastDefinitionCounts(tags: seq<CalculatedTag>, i: nat)
    requires i < |tags| && forall j :: i < j < |tags| ==> tags[j].id != tags[i].id
    ensures tags[i].id in ById(tags) && ById(tags)[tags[i].id] == tags[i]
  {
    if i < |tags| - 1 {
      LastDefinitionCounts(tags[..|tags| - 1], i);
    }
  }

  function Ids(tags: seq<CalculatedTag>): (r: seq<Uuid>)
    ensures |r| == |tags| && forall i :: 0 <= i < |r| ==> r[i] == tags[i].id
  {
    seq(|tags|, i requires 0 <= i < |tags| => tags[i].id)
  }

  /** The dependency relation restricted to the listed tags. */
  function InListEdges(byId: Registry): Edges {
    set x, y | x in byId && y in byId[x].dependencies && y in byId :: (x, y)
  }

  /** Every listed identifier occurs once, with its last definition. */
  ghost predicate IsArrangement(ordered: seq<CalculatedTag>, byId: Registry) {
    && Distinct(Ids(ordered))
    && SetOf(Ids(ordered)) == byId.Keys
    && forall i :: 0 <= i < |ordered| ==> ordered[i].id in byId && ordered[i] == byId[ordered[i].id]
  }

  /** No tag is a dependency of itself or of an earlier tag. */
  ghost predicate DependenciesFirst(ordered: seq<CalculatedTag>) {
    forall i, j :: 0 <= i <= j < |ordered| ==> ordered[j].id !in ordered[i].dependencies
  }

  /** A partly built arrangement: what is placed and what remains make up the registry. */
  ghost predicate Partial(byId: Registry, ordered: seq<CalculatedTag>, remaining: Registry) {
    && Distinct(Ids(ordered))
    && (forall i :: 0 <= i < |ordered| ==>
          ordered[i].id in byId && ordered[i] == byId[ordered[i].id] && ordered[i].id !in remaining)
    && (forall x :: x in remaining ==> x in byId && remaining[x] == byId[x])
    && (forall x :: x in byId && x !in remaining ==> x in Ids(ordered))
  }

  /** No placed tag waits for a remaining one. */
  ghost predicate Settled(ordered: seq<CalculatedTag>, remaining: Registry) {
    && DependenciesFirst(ordered)
    && forall i, x :: 0 <= i < |ordered| && x in remaining ==> x !in ordered[i].dependencies
  }

  ghost predicate Blocked(remaining: Registry, x: Uuid) {
    x in remaining && exists d :: d in remaining[x].dependencies && d in remaining
  }

  lemma Place(byId: Registry, ordered: seq<CalculatedTag>, remaining: Registry, x: Uuid)
    requires Partial(byId, ordered, remaining) && x in remaining
    requires byId[x].id == x
    ensures Partial(byId, ordered + [remaining[x]], remaining - {x})
    ensures |remaining - {x}| < |remaining|
    ensures Settled(ordered, remaining) && !Blocked(remaining, x) ==>
              Settled(ordered + [remaining[x]], remaining - {x})
  {
    var placed, left := ordered + [remaining[x]], remaining - {x};
    assert Ids(placed) == Ids(ordered) + [x];
    assert left.Keys == remaining.Keys - {x};
    if Settled(ordered, remaining) && !Blocked(remaining, x) {
      forall i, j | 0 <= i <= j < |placed| ensures placed[j].id !in placed[i].dependencies {
        assert placed[|ordered|].id == x;
      }
    }
  }

  /** In an acyclic relation some listed tag that remains is free. */
  lemma SomeTagIsFree(tags: seq<CalculatedTag>, remaining: Registry) returns (free: CalculatedTag)
    requires Acyclic(InListEdges(ById(tags))) && remaining != map[]
    requires forall x :: x in remaining ==> x in ById(tags) && remaining[x] == ById(tags)[x]
    ensures free in tags && free.id in remaining && !Blocked(remaining, free.id)
  {
    var edges := InListEdges(ById(tags));
    var sink := SinkExists(edges, remaining.Keys);
    free := ById(tags)[sink];
    forall d | d in remaining[free.id].dependencies ensures d !in remaining {
      assert d in remaining ==> (free.id, d) in edges;
    }
  }

  ghost predicate AllBlocked(tags: seq<CalculatedTag>, remaining: Registry) {
    forall i :: 0 <= i < |tags| && tags[i].id in remaining ==> Blocked(remaining, tags[i].id)
  }

  lemma NothingRemains(tags: seq<CalculatedTag>, ordered: seq<CalculatedTag>, remaining: Registry)
    requires Partial(ById(tags), ordered, remaining) && Gone(tags, |tags|, remaining)
    ensures remaining == map[]
  {
    forall x | x in ById(tags) ensures x !in remaining {
      assert ById(tags)[x] in tags;
    }
  }

  lemma AllPlaced(byId: Registry, ordered: seq<CalculatedTag>)
    requires Partial(byId, ordered, map[])
    ensures IsArrangement(ordered, byId)
  {
    assert SetOf(Ids(ordered)) == byId.Keys;
  }

  /** A pass that finds every remaining tag blocked contradicts an acyclic relation. */
  lemma StuckIsCyclic(tags: seq<CalculatedTag>, ordered: seq<CalculatedTag>, remaining: Registry)
    requires Partial(ById(tags), ordered, remaining) && remaining != map[] && AllBlocked(tags, remaining)
    ensures !Acyclic(InListEdges(ById(tags)))
  {
    if Acyclic(InListEdges(ById(tags))) {
      var free := SomeTagIsFree(tags, remaining);
      assert false;
    }
  }

  /** One pass over the list: every tag found free is placed at once. */
  method Sweep(tags: seq<CalculatedTag>, ghost byId: Registry, pending: Registry, placed: seq<CalculatedTag>)
      returns (remaining: Registry, ordered: seq<CalculatedTag>, progress: bool)
    requires Partial(byId, placed, pending)
    requires forall x :: x in byId ==> byId[x].id == x
    ensures Partial(byId, ordered, remaining)
    ensures Settled(placed, pending) ==> Settled(ordered, remaining)
    ensures progress ==> |remaining| < |pending|
    ensures !progress ==> remaining == pending
    ensures !progress ==> AllBlocked(tags, remaining)
  {
    remaining, ordered, progress := pending, placed, false;
    for k := 0 to |tags|
      invariant Partial(byId, ordered, remaining)
      invariant Settled(placed, pending) ==> Settled(ordered, remaining)
      invariant if progress then |remaining| < |pending| else remaining == pending
      invariant !progress ==> forall i :: 0 <= i < k && tags[i].id in remaining ==> Blocked(remaining, tags[i].id)
    {
      var id := tags[k].id;
      if id in remaining {
        var blocked := IsBlocked(remaining, remaining[id].dependencies);
        if !blocked {
          Place(byId, ordered, remaining, id);
          ordered, remaining, progress := ordered + [remaining[id]], remaining - {id}, true;
        }
      }
    }
  }

  method IsBlocked(remaining: Registry, dependencies: seq<Uuid>) returns (blocked: bool)
    ensures blocked <==> exists d :: d in dependencies && d in remaining
  {
    for k := 0 to |dependencies|
      invariant forall i :: 0 <= i < k ==> dependencies[i] !in remaining
    {
      if dependencies[k] in remaining {
        return true;
      }
    }
    return false;
  }

  /** The first k listed tags have been placed. */
  ghost predicate Gone(tags: seq<CalculatedTag>, k: nat, remaining: Registry) {
    forall i :: 0 <= i < k && i < |tags| ==> tags[i].id !in remaining
  }

  lemma GoneNext(tags: seq<CalculatedTag>, k: nat, remaining: Registry)
    requires Gone(tags, k, remaining) && k < |tags|
    ensures Gone(tags, k + 1, remaining - {tags[k].id})
  {
  }

  /** What is left when a sweep placed nothing is appended in list order. */
  method PlaceRest(tags: seq<CalculatedTag>, ghost byId: Registry, pending: Registry, placed: seq<CalculatedTag>)
      returns (remaining: Registry, ordered: seq<CalculatedTag>)
    requires Partial(byId, placed, pending)
    requires forall x :: x in byId ==> byId[x].id == x
    ensures Partial(byId, ordered, remaining) && Gone(tags, |tags|, remaining)
  {
    remaining, ordered := pending, placed;
    for k := 0 to |tags|
      invariant Partial(byId, ordered, remaining) && Gone(tags, k, remaining)
    {
      var id := tags[k].id;
      GoneNext(tags, k, remaining);
      if id in remaining {
        Place(byId, ordered, remaining, id);
        ordered, remaining := ordered + [remaining[id]], remaining - {id};
      } else {
        assert remaining - {id} == remaining;
      }
    }
  }

  /** Repeated sweeps, and the fallback that an acyclic relation never reaches. */
  method OrderCalculatedTags(tags: seq<CalculatedTag>) returns (ordered: seq<CalculatedTag>)
    ensures IsArrangement(ordered, ById(tags))
    ensures Acyclic(InListEdges(ById(tags))) ==> DependenciesFirst(ordered)
  {
    var remaining := ById(tags);
    ordered := [];
    while |remaining| > 0
      invariant Partial(ById(tags), ordered, remaining)
      invariant Acyclic(InListEdges(ById(tags))) ==> Settled(ordered, remaining)
      decreases |remaining|
    {
      var progress;
      remaining, ordered, progress := Sweep(tags, ById(tags), remaining, ordered);
      if !progress {
        StuckIsCyclic(tags, ordered, remaining);
        remaining, ordered := PlaceRest(tags, ById(tags), remaining, ordered);
        NothingRemains(tags, ordered, remaining);
      }
    }
    AllPlaced(ById(tags), ordered);
  }

  /** An arrangement of a list without repeated identifiers is a permutation of it. */
  lemma ArrangementIsPermutation(tags: seq<CalculatedTag>, ordered: seq<CalculatedTag>)
    requires Distinct(Ids(tags)) && IsArrangement(ordered, ById(tags))
    ensures multiset(ordered) == multiset(tags)
  {
    forall x | x in ById(tags) ensures forall t :: t in tags && t.id == x ==> t == ById(tags)[x] {
      forall t | t in tags && t.id == x ensures t == ById(tags)[x] {
        SameIdSameTag(tags, t, ById(tags)[x]);
      }
    }
    forall t ensures t in ordered <==> t in tags {
      if t in tags {
        assert t.id in SetOf(Ids(ordered));
        var i :| 0 <= i < |ordered| && Ids(ordered)[i] == t.id;
      }
    }
    DistinctIdsDistinctTags(tags);
    DistinctIdsDistinctTags(ordered);
    DistinctMultiset(tags);
    DistinctMultiset(ordered);
    assert SetOf(tags) == SetOf(ordered);
  }

  lemma SameIdSameTag(tags: seq<CalculatedTag>, s: CalculatedTag, t: CalculatedTag)
    requires Distinct(Ids(tags)) && s in tags && t in tags && s.id == t.id
    ensures s == t
  {
    var i :| 0 <= i < |tags| && tags[i] == s;
    var j :| 0 <= j < |tags| && tags[j] == t;
    assert Ids(tags)[i] == Ids(tags)[j];
  }

  lemma DistinctIdsDistinctTags(tags: seq<CalculatedTag>)
    requires Distinct(Ids(tags))
    ensures Distinct(tags)
  {
    forall i, j | 0 <= i < j < |tags| ensures tags[i] != tags[j] {
      assert Ids(tags)[i] != Ids(tags)[j];
    }
  }

  lemma {:induction false} DistinctMultiset<T(!new)>(s: seq<T>)
    requires Distinct(s)
    ensures multiset(s) == multiset(SetOf(s))
  {
    if s != [] {
      var front, last := s[..|s| - 1], s[|s| - 1];
      DistinctMultiset(front);
      assert s == front + [last];
      assert SetOf(s) == SetOf(front) + {last};
    }
  }
}
