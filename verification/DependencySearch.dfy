/** The depth-limited depth-first search over tag dependencies, as a function: what it
    finishes, in which order, and the finished tags it meets again on the way. */
module DependencySearch {
  import opened Identifiers
  import opened Digraph
  import opened Ordering

  const MAX_TAG_DEPENDENCY_DEPTH := 128

  type Adjacency = map<Uuid, seq<Uuid>>

  /** The neighbours of a node; a node without an entry has none. */
  function Neighbours(graph: Adjacency, id: Uuid): seq<Uuid> {
    if id in graph then graph[id] else []
  }

  function EdgesOf(graph: Adjacency): Edges {
    set x, y | x in graph && y in graph[x] :: (x, y)
  }

  /** A finished tag met again, with the depth at which it was met. */
  datatype Meeting = Meeting(tag: Uuid, depth: nat)

  /** Without a fault: everything finished so far, in order, and the meetings on the way. */
  datatype Result = Clean(finished: seq<Uuid>, met: seq<Meeting>) | Cyclic | Deep

  /** The search from one tag; `path` are the tags being visited. */
  function Search(graph: Adjacency, path: seq<Uuid>, finished: seq<Uuid>, id: Uuid): Result
    requires |path| <= MAX_TAG_DEPENDENCY_DEPTH + 1
    decreases MAX_TAG_DEPENDENCY_DEPTH + 1 - |path|, 0
  {
    if id in path then Cyclic
    else if id in finished then Clean(finished, [Meeting(id, |path|)])
    else if |path| > MAX_TAG_DEPENDENCY_DEPTH then Deep
    else
      match SearchAll(graph, path + [id], finished, Neighbours(graph, id))
      case Clean(all, met) => Clean(all + [id], met)
      case fault => fault
  }

  function SearchAll(graph: Adjacency, path: seq<Uuid>, finished: seq<Uuid>, ids: seq<Uuid>): Result
    requires |path| <= MAX_TAG_DEPENDENCY_DEPTH + 1
    decreases MAX_TAG_DEPENDENCY_DEPTH + 1 - |path|, |ids| + 1
  {
    if ids == [] then Clean(finished, [])
    else
      match Search(graph, path, finished, ids[0])
      case Clean(first, met) =>
        (match SearchAll(graph, path, first, ids[1..])
         case Clean(all, more) => Clean(all, met + more)
         case fault => fault)
      case fault => fault
  }

  // ---------------------------------------------------------------- what a clean search says

  /** A path from `x` with exactly, at most, or more than a number of edges. */
  ghost predicate ReachesIn(edges: Edges, x: Uuid, y: Uuid, length: int) {
    exists p :: PathBetween(edges, p, x, y) && |p| - 1 == length
  }

  ghost predicate ReachesWithin(edges: Edges, x: Uuid, y: Uuid, length: int) {
    exists p :: PathBetween(edges, p, x, y) && |p| - 1 <= length
  }

  ghost predicate PathLongerThan(edges: Edges, x: Uuid, length: int) {
    exists p :: IsPath(edges, p) && p[0] == x && |p| - 1 > length
  }

  lemma PrependEdge(edges: Edges, x: Uuid, y: Uuid, z: Uuid, length: int)
    requires (x, y) in edges && ReachesWithin(edges, y, z, length)
    ensures ReachesWithin(edges, x, z, length + 1)
  {
    var p :| PathBetween(edges, p, y, z) && |p| - 1 <= length;
    assert PathBetween(edges, [x] + p, x, z);
  }

  lemma PrependEdgeIn(edges: Edges, x: Uuid, y: Uuid, z: Uuid, length: int)
    requires (x, y) in edges && ReachesIn(edges, y, z, length)
    ensures ReachesIn(edges, x, z, length + 1)
  {
    var p :| PathBetween(edges, p, y, z) && |p| - 1 == length;
    assert PathBetween(edges, [x] + p, x, z);
  }

  /** Every tag finished by a clean search is near: the search path to it is within the
      limit. So are the tags met again, at their depth. */
  lemma {:induction false} SearchedAreNear(graph: Adjacency, path: seq<Uuid>, finished: seq<Uuid>, id: Uuid)
    requires |path| <= MAX_TAG_DEPENDENCY_DEPTH + 1 && Search(graph, path, finished, id).Clean?
    ensures var result := Search(graph, path, finished, id);
            && finished <= result.finished && id in result.finished
            && (forall y :: y in result.finished && y !in finished ==>
                  ReachesWithin(EdgesOf(graph), id, y, MAX_TAG_DEPENDENCY_DEPTH - |path|))
            && (forall m :: m in result.met ==> ReachesIn(EdgesOf(graph), id, m.tag, m.depth - |path|))
            && forall m :: m in result.met ==> m.tag in result.finished
    decreases MAX_TAG_DEPENDENCY_DEPTH + 1 - |path|, 0
  {
    var edges := EdgesOf(graph);
    assert PathBetween(edges, [id], id, id);
    assert ReachesWithin(edges, id, id, 0) && ReachesIn(edges, id, id, 0);
    if id !in finished {
      AllSearchedAreNear(graph, path + [id], finished, Neighbours(graph, id), id);
    }
  }

  lemma {:induction false} AllSearchedAreNear(graph: Adjacency, path: seq<Uuid>, finished: seq<Uuid>, ids: seq<Uuid>,
                                              parent: Uuid)
    requires |path| <= MAX_TAG_DEPENDENCY_DEPTH + 1 && SearchAll(graph, path, finished, ids).Clean?
    requires forall y :: y in ids ==> (parent, y) in EdgesOf(graph)
    ensures var result := SearchAll(graph, path, finished, ids);
            && finished <= result.finished && (forall y :: y in ids ==> y in result.finished)
            && (forall y :: y in result.finished && y !in finished ==>
                  ReachesWithin(EdgesOf(graph), parent, y, MAX_TAG_DEPENDENCY_DEPTH - |path| + 1))
            && (forall m :: m in result.met ==> ReachesIn(EdgesOf(graph), parent, m.tag, m.depth - |path| + 1))
            && forall m :: m in result.met ==> m.tag in result.finished
    decreases MAX_TAG_DEPENDENCY_DEPTH + 1 - |path|, |ids| + 1
  {
    if ids != [] {
      var first := Search(graph, path, finished, ids[0]);
      SearchedAreNear(graph, path, finished, ids[0]);
      AllSearchedAreNear(graph, path, first.finished, ids[1..], parent);
      forall y, length | ReachesWithin(EdgesOf(graph), ids[0], y, length)
        ensures ReachesWithin(EdgesOf(graph), parent, y, length + 1)
      {
        PrependEdge(EdgesOf(graph), parent, ids[0], y, length);
      }
      forall y, length | ReachesIn(EdgesOf(graph), ids[0], y, length)
        ensures ReachesIn(EdgesOf(graph), parent, y, length + 1)
      {
        PrependEdgeIn(EdgesOf(graph), parent, ids[0], y, length);
      }
    }
  }

  /** What a search finishes is closed: a tag's dependencies come before it. */
  lemma {:induction false} SearchedAreClosed(graph: Adjacency, path: seq<Uuid>, finished: seq<Uuid>, id: Uuid)
    requires |path| <= MAX_TAG_DEPENDENCY_DEPTH + 1 && Search(graph, path, finished, id).Clean?
    requires ClosedOrder(EdgesOf(graph), finished) && forall x :: x in path ==> x !in finished
    ensures var all := Search(graph, path, finished, id).finished;
            && ClosedOrder(EdgesOf(graph), all) && id in all
            && (forall x :: x in finished ==> x in all)
            && forall x :: x in path ==> x !in all
    decreases MAX_TAG_DEPENDENCY_DEPTH + 1 - |path|, 0
  {
    if id !in finished {
      var all := SearchAll(graph, path + [id], finished, Neighbours(graph, id)).finished;
      AllSearchedAreClosed(graph, path + [id], finished, Neighbours(graph, id));
      assert id in path + [id] && forall x :: x in path ==> x in path + [id];
      ClosedAppend(graph, all, id);
    }
  }

  lemma {:induction false} AllSearchedAreClosed(graph: Adjacency, path: seq<Uuid>, finished: seq<Uuid>, ids: seq<Uuid>)
    requires |path| <= MAX_TAG_DEPENDENCY_DEPTH + 1 && SearchAll(graph, path, finished, ids).Clean?
    requires ClosedOrder(EdgesOf(graph), finished) && forall x :: x in path ==> x !in finished
    ensures var all := SearchAll(graph, path, finished, ids).finished;
            && ClosedOrder(EdgesOf(graph), all) && (forall y :: y in ids ==> y in all)
            && (forall x :: x in finished ==> x in all)
            && forall x :: x in path ==> x !in all
    decreases MAX_TAG_DEPENDENCY_DEPTH + 1 - |path|, |ids| + 1
  {
    if ids != [] {
      SearchedAreClosed(graph, path, finished, ids[0]);
      AllSearchedAreClosed(graph, path, Search(graph, path, finished, ids[0]).finished, ids[1..]);
    }
  }

  lemma ClosedAppend(graph: Adjacency, order: seq<Uuid>, id: Uuid)
    requires ClosedOrder(EdgesOf(graph), order) && id !in order
    requires forall y :: y in Neighbours(graph, id) ==> y in order
    ensures ClosedOrder(EdgesOf(graph), order + [id])
  {
    var longer := order + [id];
    forall i, y | 0 <= i < |longer| && (longer[i], y) in EdgesOf(graph) ensures y in longer[..i] {
      assert longer[..i] == order[..i];
      assert i == |order| ==> order[..i] == order;
    }
  }

  // ---------------------------------------------------------------- the length of paths

  /** A path longer than the limit comes from a meeting: from a tag met again, at a depth
      that its own paths do not fit under. */
  lemma {:induction false} LongPathsPassMeetings(graph: Adjacency, path: seq<Uuid>, finished: seq<Uuid>, id: Uuid)
    requires |path| <= MAX_TAG_DEPENDENCY_DEPTH + 1 && Search(graph, path, finished, id).Clean?
    requires forall m :: m in Search(graph, path, finished, id).met ==>
               !PathLongerThan(EdgesOf(graph), m.tag, MAX_TAG_DEPENDENCY_DEPTH - m.depth)
    ensures !PathLongerThan(EdgesOf(graph), id, MAX_TAG_DEPENDENCY_DEPTH - |path|)
    decreases MAX_TAG_DEPENDENCY_DEPTH + 1 - |path|, 0
  {
    var edges := EdgesOf(graph);
    if id in finished {
      assert Meeting(id, |path|) in Search(graph, path, finished, id).met;
    } else {
      AllLongPathsPassMeetings(graph, path + [id], finished, Neighbours(graph, id));
      forall p | IsPath(edges, p) && p[0] == id ensures |p| - 1 <= MAX_TAG_DEPENDENCY_DEPTH - |path| {
        if |p| > 1 {
          assert (p[0], p[1]) in edges;
          PathTail(edges, p);
        }
      }
    }
  }

  lemma {:induction false} AllLongPathsPassMeetings(graph: Adjacency, path: seq<Uuid>, finished: seq<Uuid>,
      ids: seq<Uuid>)
    requires |path| <= MAX_TAG_DEPENDENCY_DEPTH + 1 && SearchAll(graph, path, finished, ids).Clean?
    requires forall m :: m in SearchAll(graph, path, finished, ids).met ==>
               !PathLongerThan(EdgesOf(graph), m.tag, MAX_TAG_DEPENDENCY_DEPTH - m.depth)
    ensures forall y :: y in ids ==> !PathLongerThan(EdgesOf(graph), y, MAX_TAG_DEPENDENCY_DEPTH - |path|)
    decreases MAX_TAG_DEPENDENCY_DEPTH + 1 - |path|, |ids| + 1
  {
    if ids != [] {
      var first := Search(graph, path, finished, ids[0]);
      var others := SearchAll(graph, path, first.finished, ids[1..]);
      assert SearchAll(graph, path, finished, ids).met == first.met + others.met;
      LongPathsPassMeetings(graph, path, finished, ids[0]);
      AllLongPathsPassMeetings(graph, path, first.finished, ids[1..]);
      assert forall y :: y in ids ==> y == ids[0] || y in ids[1..];
    }
  }

  lemma PathTail(edges: Edges, p: seq<Uuid>)
    requires IsPath(edges, p) && |p| > 1
    ensures IsPath(edges, p[1..]) && p[1..][0] == p[1]
  {
    forall i | 0 <= i < |p[1..]| - 1 ensures (p[1..][i], p[1..][i + 1]) in edges {
      assert (p[i + 1], p[i + 2]) in edges;
    }
  }

  lemma JoinPaths(edges: Edges, x: Uuid, y: Uuid, near: int, far: int)
    requires ReachesIn(edges, x, y, near) && PathLongerThan(edges, y, far)
    ensures PathLongerThan(edges, x, near + far)
  {
    var p :| PathBetween(edges, p, x, y) && |p| - 1 == near;
    var q :| IsPath(edges, q) && q[0] == y && |q| - 1 > far;
    var whole := p + q[1..];
    forall i | 0 <= i < |whole| - 1 ensures (whole[i], whole[i + 1]) in edges {
      assert i >= |p| - 1 ==> whole[i] == q[i - (|p| - 1)] && whole[i + 1] == q[i + 1 - (|p| - 1)];
    }
    assert IsPath(edges, whole);
  }

  /** No path from the searched tag exceeds the limit exactly when every tag met again has
      its paths fit under the depth of the meeting. */
  lemma PathsFitIff(graph: Adjacency, id: Uuid)
    requires Search(graph, [], [], id).Clean?
    ensures !PathLongerThan(EdgesOf(graph), id, MAX_TAG_DEPENDENCY_DEPTH) <==>
              forall m :: m in Search(graph, [], [], id).met ==>
                !PathLongerThan(EdgesOf(graph), m.tag, MAX_TAG_DEPENDENCY_DEPTH - m.depth)
  {
    SearchedAreNear(graph, [], [], id);
    if forall m :: m in Search(graph, [], [], id).met ==>
        !PathLongerThan(EdgesOf(graph), m.tag, MAX_TAG_DEPENDENCY_DEPTH - m.depth) {
      LongPathsPassMeetings(graph, [], [], id);
    }
    forall m | m in Search(graph, [], [], id).met
               && PathLongerThan(EdgesOf(graph), m.tag, MAX_TAG_DEPENDENCY_DEPTH - m.depth)
      ensures PathLongerThan(EdgesOf(graph), id, MAX_TAG_DEPENDENCY_DEPTH)
    {
      JoinPaths(EdgesOf(graph), id, m.tag, m.depth, MAX_TAG_DEPENDENCY_DEPTH - m.depth);
    }
  }

  // ---------------------------------------------------------------- heights

  /** One more than the greatest height among the given tags, if there are any. */
  function HeightOver(heights: map<Uuid, nat>, ids: seq<Uuid>): nat {
    if ids == [] then 0
    else Max(if ids[0] in heights then heights[ids[0]] + 1 else 1, HeightOver(heights, ids[1..]))
  }

  /** The height of every finished tag, from the order in which tags were finished. */
  function Heights(graph: Adjacency, order: seq<Uuid>): (heights: map<Uuid, nat>)
    ensures forall x :: x in heights <==> x in order
  {
    if order == [] then map[]
    else
      var before, last := Heights(graph, order[..|order| - 1]), order[|order| - 1];
      before[last := HeightOver(before, Neighbours(graph, last))]
  }

  lemma {:induction false} HeightOverIs(heights: map<Uuid, nat>, ids: seq<Uuid>)
    requires forall y :: y in ids ==> y in heights
    ensures forall y :: y in ids ==> heights[y] + 1 <= HeightOver(heights, ids)
    ensures ids != [] ==> exists y :: y in ids && heights[y] + 1 == HeightOver(heights, ids)
  {
    if ids != [] {
      HeightOverIs(heights, ids[1..]);
      assert forall y :: y in ids <==> y == ids[0] || y in ids[1..];
      if HeightOver(heights, ids) == heights[ids[0]] + 1 {
        assert ids[0] in ids;
      } else {
        assert ids[1..] != [];
        var y :| y in ids[1..] && heights[y] + 1 == HeightOver(heights, ids[1..]);
        assert y in ids;
      }
    }
  }

  /** The height of a tag is the length of its longest path. */
  lemma {:induction false} HeightIsLongest(graph: Adjacency, order: seq<Uuid>, x: Uuid, length: int)
    requires ClosedOrder(EdgesOf(graph), order) && x in order
    ensures PathLongerThan(EdgesOf(graph), x, length) <==> Heights(graph, order)[x] > length
    decreases |order|
  {
    var before, last := order[..|order| - 1], order[|order| - 1];
    ClosedPrefix(graph, order);
    if x != last {
      HeightIsLongest(graph, before, x, length);
    } else {
      LastHeightIsLongest(graph, order, length);
    }
  }

  lemma ClosedPrefix(graph: Adjacency, order: seq<Uuid>)
    requires ClosedOrder(EdgesOf(graph), order) && order != []
    ensures ClosedOrder(EdgesOf(graph), order[..|order| - 1])
    ensures var before, ids := order[..|order| - 1], Neighbours(graph, order[|order| - 1]);
            order[|order| - 1] !in before && forall y :: y in ids ==> y in before
  {
    var before := order[..|order| - 1];
    forall i, y | 0 <= i < |before| && (before[i], y) in EdgesOf(graph) ensures y in before[..i] {
      assert order[..i] == before[..i];
    }
    forall y | y in Neighbours(graph, order[|order| - 1]) ensures y in before {
      assert (order[|order| - 1], y) in EdgesOf(graph);
    }
  }

  lemma {:induction false} LastHeightIsLongest(graph: Adjacency, order: seq<Uuid>, length: int)
    requires ClosedOrder(EdgesOf(graph), order) && order != []
    ensures var last := order[|order| - 1];
            PathLongerThan(EdgesOf(graph), last, length) <==> Heights(graph, order)[last] > length
    decreases |order|, 2
  {
    PathsFromLast(graph, order);
    if Heights(graph, order)[order[|order| - 1]] > length {
      LastHeightIsReached(graph, order, length);
    }
  }

  lemma {:induction false} LastHeightIsReached(graph: Adjacency, order: seq<Uuid>, length: int)
    requires ClosedOrder(EdgesOf(graph), order) && order != []
    requires Heights(graph, order)[order[|order| - 1]] > length
    ensures PathLongerThan(EdgesOf(graph), order[|order| - 1], length)
    decreases |order|, 1
  {
    var edges, before, x := EdgesOf(graph), order[..|order| - 1], order[|order| - 1];
    var heights, ids := Heights(graph, before), Neighbours(graph, x);
    ClosedPrefix(graph, order);
    HeightOverIs(heights, ids);
    if ids == [] {
      assert IsPath(edges, [x]);
    } else {
      var y :| y in ids && heights[y] + 1 == HeightOver(heights, ids);
      HeightIsLongest(graph, before, y, length - 1);
      LongerByEdge(edges, x, y, length);
    }
  }

  lemma LongerByEdge(edges: Edges, x: Uuid, y: Uuid, length: int)
    requires (x, y) in edges && PathLongerThan(edges, y, length - 1)
    ensures PathLongerThan(edges, x, length)
  {
    assert ReachesIn(edges, x, y, 1) by {
      assert PathBetween(edges, [x, y], x, y);
    }
    JoinPaths(edges, x, y, 1, length - 1);
  }

  lemma {:induction false} PathsFromLast(graph: Adjacency, order: seq<Uuid>)
    requires ClosedOrder(EdgesOf(graph), order) && order != []
    ensures var x := order[|order| - 1];
            forall p :: IsPath(EdgesOf(graph), p) && p[0] == x ==> |p| - 1 <= Heights(graph, order)[x]
    decreases |order|, 1
  {
    var x := order[|order| - 1];
    forall p | IsPath(EdgesOf(graph), p) && p[0] == x ensures |p| - 1 <= Heights(graph, order)[x] {
      if |p| > 1 {
        PathFromLast(graph, order, p);
      }
    }
  }

  /** A path from the last tag goes on from one of its dependencies. */
  lemma {:induction false} PathFromLast(graph: Adjacency, order: seq<Uuid>, p: seq<Uuid>)
    requires ClosedOrder(EdgesOf(graph), order) && order != []
    requires IsPath(EdgesOf(graph), p) && |p| > 1 && p[0] == order[|order| - 1]
    ensures |p| - 1 <= Heights(graph, order)[p[0]]
    decreases |order|, 0
  {
    var edges, before := EdgesOf(graph), order[..|order| - 1];
    ClosedPrefix(graph, order);
    HeightOverIs(Heights(graph, before), Neighbours(graph, p[0]));
    assert (p[0], p[1]) in edges;
    PathTail(edges, p);
    assert PathLongerThan(edges, p[1], |p| - 3);
    HeightIsLongest(graph, before, p[1], |p| - 3);
  }

  /** The check that the search leaves out where it meets a finished tag again. */
  ghost predicate MeetingsFit(graph: Adjacency, finished: seq<Uuid>, met: seq<Meeting>) {
    var heights := Heights(graph, finished);
    forall m :: m in met ==> m.tag in heights && m.depth + heights[m.tag] <= MAX_TAG_DEPENDENCY_DEPTH
  }

  /** After a clean search every tag it can reach is near, and no path from the searched tag
      exceeds the limit exactly when at every meeting the depth and the height of the tag
      met again stay within it together. */
  lemma DepthIsBoundedIff(graph: Adjacency, id: Uuid)
    requires Search(graph, [], [], id).Clean?
    ensures var result := Search(graph, [], [], id);
            && (forall y :: Reaches(EdgesOf(graph), id, y) ==>
                  ReachesWithin(EdgesOf(graph), id, y, MAX_TAG_DEPENDENCY_DEPTH))
            && (!PathLongerThan(EdgesOf(graph), id, MAX_TAG_DEPENDENCY_DEPTH) <==>
                  MeetingsFit(graph, result.finished, result.met))
  {
    var edges, result := EdgesOf(graph), Search(graph, [], [], id);
    SearchedAreNear(graph, [], [], id);
    SearchedAreClosed(graph, [], [], id);
    PathsFitIff(graph, id);
    forall y | Reaches(edges, id, y) ensures y in result.finished {
      var p :| PathBetween(edges, p, id, y);
      var i :| 0 <= i < |result.finished| && result.finished[i] == id;
      PathDescends(edges, result.finished, p, i);
    }
    forall m | m in result.met
      ensures PathLongerThan(edges, m.tag, MAX_TAG_DEPENDENCY_DEPTH - m.depth) <==>
                Heights(graph, result.finished)[m.tag] > MAX_TAG_DEPENDENCY_DEPTH - m.depth
    {
      HeightIsLongest(graph, result.finished, m.tag, MAX_TAG_DEPENDENCY_DEPTH - m.depth);
    }
  }

  /** No tag that can be reached has two dependents that can be reached. */
  ghost predicate OneDependent(edges: Edges, id: Uuid) {
    forall x, z, y :: (x, y) in edges && (z, y) in edges && Reaches(edges, id, x) && Reaches(edges, id, z) ==> x == z
  }

  lemma {:induction false} PathsAgree(edges: Edges, id: Uuid, p: seq<Uuid>, q: seq<Uuid>, y: Uuid)
    requires OneDependent(edges, id) && forall c :: IsCycle(edges, c) ==> id !in c
    requires PathBetween(edges, p, id, y) && PathBetween(edges, q, id, y)
    ensures |p| == |q|
    decreases |p|
  {
    assert |p| > 1 ==> p[0] in p;
    assert |q| > 1 ==> q[0] in q;
    assert |p| > 1 && |q| == 1 ==> IsCycle(edges, p);
    assert |q| > 1 && |p| == 1 ==> IsCycle(edges, q);
    if |p| > 1 && |q| > 1 {
      var before, other := p[..|p| - 1], q[..|q| - 1];
      PathFront(edges, p);
      PathFront(edges, q);
      var x, z := before[|before| - 1], other[|other| - 1];
      assert PathBetween(edges, before, id, x) && PathBetween(edges, other, id, z);
      assert (x, y) in edges && (z, y) in edges;
      PathsAgree(edges, id, before, other, x);
    }
  }

  lemma PathFront(edges: Edges, p: seq<Uuid>)
    requires IsPath(edges, p) && |p| > 1
    ensures IsPath(edges, p[..|p| - 1]) && (p[|p| - 2], p[|p| - 1]) in edges
  {
    var front := p[..|p| - 1];
    forall i | 0 <= i < |front| - 1 ensures (front[i], front[i + 1]) in edges {
      assert (p[i], p[i + 1]) in edges;
    }
  }

  /** Where no tag has two dependents, a clean search does bound every path. */
  lemma OneDependentBoundsDepth(graph: Adjacency, id: Uuid)
    requires Search(graph, [], [], id).Clean? && OneDependent(EdgesOf(graph), id)
    ensures !PathLongerThan(EdgesOf(graph), id, MAX_TAG_DEPENDENCY_DEPTH)
  {
    var edges, finished := EdgesOf(graph), Search(graph, [], [], id).finished;
    DepthIsBoundedIff(graph, id);
    SearchedAreClosed(graph, [], [], id);
    NoCycleThrough(edges, finished, id);
    forall p | IsPath(edges, p) && p[0] == id ensures |p| - 1 <= MAX_TAG_DEPENDENCY_DEPTH {
      var y := p[|p| - 1];
      assert PathBetween(edges, p, id, y);
      assert Reaches(edges, id, y);
      var q :| PathBetween(edges, q, id, y) && |q| - 1 <= MAX_TAG_DEPENDENCY_DEPTH;
      PathsAgree(edges, id, p, q, y);
    }
  }

  lemma NoCycleThrough(edges: Edges, order: seq<Uuid>, x: Uuid)
    requires ClosedOrder(edges, order) && x in order
    ensures forall c :: IsCycle(edges, c) ==> x !in c
  {
    forall c | IsCycle(edges, c) ensures x !in c {
      if x in c {
        var k :| 0 <= k < |c| && c[k] == x;
        var r := RotateCycle(edges, c, k);
        ClosedOrderHasNoCycle(edges, order, r);
      }
    }
  }
}
