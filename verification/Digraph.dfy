/** Finite directed graphs as edge sets: paths, cycles, and the two facts every graph
    algorithm in the model rests on. A finite set with no cycle has an element
    without successors in it, hence a successors-first order; and a closed
    successors-first order excludes every cycle through its elements. */
module Digraph {
  import opened Identifiers

  type Edges = set<(Uuid, Uuid)>

  ghost predicate IsPath(edges: Edges, p: seq<Uuid>) {
    |p| >= 1 && forall i :: 0 <= i < |p| - 1 ==> (p[i], p[i + 1]) in edges
  }

  ghost predicate IsCycle(edges: Edges, p: seq<Uuid>) {
    |p| >= 2 && IsPath(edges, p) && p[0] == p[|p| - 1]
  }

  ghost predicate Acyclic(edges: Edges) {
    forall p :: !IsCycle(edges, p)
  }

  ghost predicate PathBetween(edges: Edges, p: seq<Uuid>, x: Uuid, y: Uuid) {
    IsPath(edges, p) && p[0] == x && p[|p| - 1] == y
  }

  /** y can be reached from x along zero or more edges. */
  ghost predicate Reaches(edges: Edges, x: Uuid, y: Uuid) {
    exists p :: PathBetween(edges, p, x, y)
  }

  /** Successors come first: no element has a later element, or itself, as successor. */
  ghost predicate SuccessorsFirst(edges: Edges, order: seq<Uuid>) {
    forall i, j :: 0 <= i <= j < |order| ==> (order[i], order[j]) !in edges
  }

  /** Every successor of a listed element is listed before it. */
  ghost predicate ClosedOrder(edges: Edges, order: seq<Uuid>) {
    Distinct(order) &&
    forall i, y :: 0 <= i < |order| && (order[i], y) in edges ==> y in order[..i]
  }

  lemma SubgraphAcyclic(small: Edges, large: Edges)
    requires small <= large && Acyclic(large)
    ensures Acyclic(small)
  {
    forall p ensures !IsCycle(small, p) {
      if IsCycle(small, p) {
        assert IsCycle(large, p);
      }
    }
  }

  lemma Extend(edges: Edges, p: seq<Uuid>, x: Uuid, y: Uuid, z: Uuid)
    requires PathBetween(edges, p, x, y) && (y, z) in edges
    ensures PathBetween(edges, p + [z], x, z)
    ensures Reaches(edges, x, z)
  {
    assert PathBetween(edges, p + [z], x, z);
  }

  lemma ReachesStep(edges: Edges, x: Uuid, y: Uuid, z: Uuid)
    requires Reaches(edges, x, y) && (y, z) in edges
    ensures Reaches(edges, x, z)
  {
    var p :| PathBetween(edges, p, x, y);
    Extend(edges, p, x, y, z);
  }

  lemma ReachesSelf(edges: Edges, x: Uuid)
    ensures Reaches(edges, x, x)
  {
    assert PathBetween(edges, [x], x, x);
  }

  /** A cycle may be entered at any of its nodes. */
  lemma RotateCycle(edges: Edges, p: seq<Uuid>, k: nat) returns (q: seq<Uuid>)
    requires IsCycle(edges, p) && k < |p|
    ensures IsCycle(edges, q) && q[0] == p[k]
  {
    if k == |p| - 1 {
      q := p;
    } else {
      q := p[k..] + p[1..k + 1];
    }
  }

  /** Along a path, a closed order is walked strictly backwards. */
  lemma {:induction false} PathDescends(edges: Edges, order: seq<Uuid>, p: seq<Uuid>, i: nat)
    requires ClosedOrder(edges, order) && IsPath(edges, p)
    requires i < |order| && order[i] == p[0]
    ensures |p| == 1 || p[|p| - 1] in order[..i]
    decreases |p|
  {
    if |p| > 1 {
      assert (p[0], p[1]) in edges;
      var j :| 0 <= j < i && order[j] == p[1];
      assert IsPath(edges, p[1..]) by {
        forall k | 0 <= k < |p[1..]| - 1 ensures (p[1..][k], p[1..][k + 1]) in edges {
          assert (p[k + 1], p[k + 2]) in edges;
        }
      }
      PathDescends(edges, order, p[1..], j);
    }
  }

  /** Nothing listed in a closed order lies on a cycle. */
  lemma ClosedOrderHasNoCycle(edges: Edges, order: seq<Uuid>, p: seq<Uuid>)
    requires ClosedOrder(edges, order) && |p| >= 1 && p[0] in order
    ensures !IsCycle(edges, p)
  {
    if IsCycle(edges, p) {
      var i :| 0 <= i < |order| && order[i] == p[0];
      PathDescends(edges, order, p, i);
    }
  }

  ghost predicate IsSink(edges: Edges, nodes: set<Uuid>, x: Uuid) {
    x in nodes && forall y :: y in nodes ==> (x, y) !in edges
  }

  /** A walk of n steps inside a set without sinks. */
  lemma {:induction false} Walk(edges: Edges, nodes: set<Uuid>, x: Uuid, n: nat) returns (p: seq<Uuid>)
    requires x in nodes
    requires forall y :: !IsSink(edges, nodes, y)
    ensures IsPath(edges, p) && |p| == n + 1
    ensures forall i :: 0 <= i < |p| ==> p[i] in nodes
  {
    if n == 0 {
      p := [x];
    } else {
      var q := Walk(edges, nodes, x, n - 1);
      var last := q[n - 1];
      assert !IsSink(edges, nodes, last);
      var z :| z in nodes && (last, z) in edges;
      p := q + [z];
    }
  }

  /** In a graph without cycles, every non-empty finite set has a member with no
      successor in the set. */
  lemma {:induction false} SinkExists(edges: Edges, nodes: set<Uuid>) returns (sink: Uuid)
    requires Acyclic(edges) && nodes != {}
    ensures IsSink(edges, nodes, sink)
  {
    if x :| IsSink(edges, nodes, x) {
      return x;
    }
    var x :| x in nodes;
    var p := Walk(edges, nodes, x, |nodes|);
    Pigeonhole(p, nodes);
    var i, j :| 0 <= i < j < |p| && p[i] == p[j];
    assert IsCycle(edges, p[i..j + 1]);
    return x;
  }

  lemma Pigeonhole(p: seq<Uuid>, nodes: set<Uuid>)
    requires |p| > |nodes| && forall i :: 0 <= i < |p| ==> p[i] in nodes
    ensures !Distinct(p)
  {
    if Distinct(p) {
      DistinctSize(p);
      SubsetSize(SetOf(p), nodes);
    }
  }

  /** In a graph without cycles, every finite set has a successors-first order. */
  lemma {:induction false} OrderExists(edges: Edges, nodes: set<Uuid>) returns (order: seq<Uuid>)
    requires Acyclic(edges)
    ensures SuccessorsFirst(edges, order) && Distinct(order) && SetOf(order) == nodes
    decreases |nodes|
  {
    if nodes == {} {
      order := [];
    } else {
      var x := SinkExists(edges, nodes);
      var rest := OrderExists(edges, nodes - {x});
      order := [x] + rest;
      forall k | 0 <= k < |order| ensures order[k] in nodes && (x, order[k]) !in edges {
        assert k == 0 || order[k] in SetOf(rest);
      }
      forall i, j | 0 <= i <= j < |order| ensures (order[i], order[j]) !in edges {
        if i > 0 {
          assert order[i] == rest[i - 1] && order[j] == rest[j - 1];
        }
      }
      forall k | 0 <= k < |rest| ensures rest[k] != x {
        assert rest[k] in SetOf(rest);
      }
      assert SetOf(order) == {x} + SetOf(rest);
    }
  }

  lemma ReversedCycle(edges: Edges, reversed: Edges, p: seq<Uuid>, q: seq<Uuid>)
    requires forall x, y :: (x, y) in edges ==> (y, x) in reversed
    requires |q| == |p| && forall i :: 0 <= i < |p| ==> q[i] == p[|p| - 1 - i]
    ensures IsCycle(edges, p) ==> IsCycle(reversed, q)
  {
    if IsCycle(edges, p) {
      forall i | 0 <= i < |q| - 1 ensures (q[i], q[i + 1]) in reversed {
        assert (p[|p| - 2 - i], p[|p| - 2 - i + 1]) in edges;
      }
    }
  }

  /** Turning every edge around creates no cycle. */
  lemma ReversalAcyclic(edges: Edges, reversed: Edges)
    requires Acyclic(reversed) && forall x, y :: (x, y) in edges ==> (y, x) in reversed
    ensures Acyclic(edges)
  {
    forall p ensures !IsCycle(edges, p) {
      var q := seq(|p|, i requires 0 <= i < |p| => p[|p| - 1 - i]);
      ReversedCycle(edges, reversed, p, q);
    }
  }
}
