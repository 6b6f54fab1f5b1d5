/** The asset forest: lineages from the roots, and what moving a subtree does to them. */
module AssetForest {
  import opened Identifiers
  import opened Digraph

  /** Kinds arrive as text; `Unknown` stands for every other text. */
  datatype Kind = Site | Building | Area | System | Equipment | Meter | Custom | Unknown {
    predicate Valid() {
      !Unknown?
    }
  }

  datatype Parent = NoParent | Under(id: Uuid)

  datatype Asset = Asset(parent: Parent, name: string, kind: Kind, enabled: bool, position: int)

  type Assets = map<Uuid, Asset>

  /** A measurement of an owner, counted up to the boundary. */
  datatype Binding = Binding(owner: Uuid, boundary: Uuid)

  /** The path from a root down to `x`. */
  ghost predicate IsLineage(assets: Assets, x: Uuid, p: seq<Uuid>) {
    && |p| > 0 && p[|p| - 1] == x
    && (forall i :: 0 <= i < |p| ==> p[i] in assets)
    && assets[p[0]].parent == NoParent
    && forall i :: 0 < i < |p| ==> assets[p[i]].parent == Under(p[i - 1])
  }

  ghost predicate Rooted(assets: Assets, x: Uuid) {
    exists p :: IsLineage(assets, x, p)
  }

  /** Every asset hangs from a root, which is to say that parents are present and there are
      no cycles. */
  ghost predicate Forest(assets: Assets) {
    forall x :: x in assets ==> Rooted(assets, x)
  }

  function ParentEdges(assets: Assets): Edges {
    set x | x in assets && assets[x].parent.Under? :: (x, assets[x].parent.id)
  }

  lemma LineagePrefix(assets: Assets, x: Uuid, p: seq<Uuid>, k: nat)
    requires IsLineage(assets, x, p) && k < |p|
    ensures IsLineage(assets, p[k], p[..k + 1])
  {
  }

  lemma {:induction false} LineageIsUnique(assets: Assets, x: Uuid, p: seq<Uuid>, q: seq<Uuid>)
    requires IsLineage(assets, x, p) && IsLineage(assets, x, q)
    ensures p == q
    decreases |p|
  {
    assert |p| > 1 ==> assets[x].parent == Under(p[|p| - 2]);
    assert |q| > 1 ==> assets[x].parent == Under(q[|q| - 2]);
    if |p| > 1 && |q| > 1 {
      var n, m := |p| - 1, |q| - 1;
      assert p[n - 1] == q[m - 1];
      LineagePrefix(assets, x, p, n - 1);
      LineagePrefix(assets, x, q, m - 1);
      LineageIsUnique(assets, p[n - 1], p[..n], q[..m]);
      assert p == p[..n] + [x] && q == q[..m] + [x];
    }
  }

  lemma LineageIsDistinct(assets: Assets, x: Uuid, p: seq<Uuid>)
    requires IsLineage(assets, x, p)
    ensures Distinct(p)
  {
    forall i, j | 0 <= i < j < |p| ensures p[i] != p[j] {
      LineagePrefix(assets, x, p, i);
      LineagePrefix(assets, x, p, j);
      if p[i] == p[j] {
        LineageIsUnique(assets, p[i], p[..i + 1], p[..j + 1]);
      }
    }
  }

  /** Going up from `x`, a path of parents stays on the lineage of `x`. */
  lemma {:induction false} ClimbsLineage(assets: Assets, x: Uuid, p: seq<Uuid>, up: seq<Uuid>)
    requires IsLineage(assets, x, p) && IsPath(ParentEdges(assets), up) && up[0] == x
    ensures |up| <= |p| && up[|up| - 1] == p[|p| - |up|]
  {
    if |up| > 1 {
      var front := up[..|up| - 1];
      forall i | 0 <= i < |front| - 1 ensures (front[i], front[i + 1]) in ParentEdges(assets) {
        assert (up[i], up[i + 1]) in ParentEdges(assets);
      }
      ClimbsLineage(assets, x, p, front);
      assert (up[|up| - 2], up[|up| - 1]) in ParentEdges(assets);
    }
  }

  /** A forest has its parents present and no cycle of parents. */
  lemma ForestIsAcyclic(assets: Assets)
    requires Forest(assets)
    ensures Acyclic(ParentEdges(assets))
    ensures forall x :: x in assets && assets[x].parent.Under? ==> assets[x].parent.id in assets
  {
    forall up ensures !IsCycle(ParentEdges(assets), up) {
      if IsCycle(ParentEdges(assets), up) {
        assert (up[0], up[1]) in ParentEdges(assets);
        var p :| IsLineage(assets, up[0], p);
        ClimbsLineage(assets, up[0], p, up);
        LineageIsDistinct(assets, up[0], p);
      }
    }
    forall x | x in assets && assets[x].parent.Under? ensures assets[x].parent.id in assets {
      var p :| IsLineage(assets, x, p);
      assert |p| > 1;
      assert p[|p| - 2] == assets[x].parent.id;
    }
  }

  /** An asset placed under the end of a lineage, or at the top. */
  lemma LineageBelow(assets: Assets, x: Uuid, ancestors: seq<Uuid>)
    requires x in assets
    requires if assets[x].parent.Under? then IsLineage(assets, assets[x].parent.id, ancestors) else ancestors == []
    ensures IsLineage(assets, x, ancestors + [x])
  {
  }

  /** A new asset, not yet a parent of any other, leaves all other lineages alone. */
  lemma CreateKeepsForest(assets: Assets, x: Uuid, asset: Asset, ancestors: seq<Uuid>)
    requires Forest(assets) && x !in assets
    requires if asset.parent.Under? then IsLineage(assets, asset.parent.id, ancestors) else ancestors == []
    ensures Forest(assets[x := asset]) && IsLineage(assets[x := asset], x, ancestors + [x])
    ensures forall y, p :: IsLineage(assets, y, p) ==> IsLineage(assets[x := asset], y, p)
  {
    var after := assets[x := asset];
    forall y, p | IsLineage(assets, y, p) ensures IsLineage(after, y, p) {
      CreateKeepsLineage(assets, x, asset, y, p);
    }
    LineageBelow(after, x, ancestors);
    forall y | y in after ensures Rooted(after, y) {
      if y != x {
        assert Rooted(assets, y);
        var p :| IsLineage(assets, y, p);
        assert IsLineage(after, y, p);
      }
    }
  }

  lemma CreateKeepsLineage(assets: Assets, x: Uuid, asset: Asset, y: Uuid, p: seq<Uuid>)
    requires x !in assets && IsLineage(assets, y, p)
    ensures IsLineage(assets[x := asset], y, p)
  {
  }

  /** The lineage of `y` after `x` has moved below `ancestors`. */
  function Moved(p: seq<Uuid>, x: Uuid, ancestors: seq<Uuid>): seq<Uuid> {
    if p == [] then []
    else if p[0] == x then ancestors + p
    else if x in p then Moved(p[1..], x, ancestors)
    else p
  }

  lemma {:induction false} MovedIs(p: seq<Uuid>, k: nat, x: Uuid, ancestors: seq<Uuid>)
    requires k < |p| && p[k] == x && x !in p[..k]
    ensures Moved(p, x, ancestors) == ancestors + p[k..]
  {
    if k > 0 {
      assert p[0] == p[..k][0] && p[1..][k - 1] == p[k] && p[1..][..k - 1] == p[..k][1..];
      MovedIs(p[1..], k - 1, x, ancestors);
      assert p[1..][k - 1..] == p[k..];
    }
  }

  /** The ancestors of the new place and the old path from `x` on make a lineage. */
  lemma CarriedLineage(assets: Assets, x: Uuid, asset: Asset, ancestors: seq<Uuid>, y: Uuid, p: seq<Uuid>, k: nat)
    requires x in assets && x !in ancestors && IsLineage(assets, y, p)
    requires k < |p| && p[k] == x && x !in p[k + 1..]
    requires if asset.parent.Under? then IsLineage(assets, asset.parent.id, ancestors) else ancestors == []
    ensures IsLineage(assets[x := asset], y, ancestors + p[k..])
  {
    var after, q, n := assets[x := asset], ancestors + p[k..], |ancestors|;
    forall i | n < i < |q| ensures after[q[i]].parent == Under(q[i - 1]) {
      assert q[i] == p[i - n + k] && q[i - 1] == p[i - 1 - n + k];
      assert q[i] == p[k + 1..][i - n - 1];
    }
    assert q[n] == x && n > 0 ==> q[n - 1] == ancestors[n - 1];
  }

  /** Moving `x` below a lineage without `x` carries its subtree along: every lineage
      through `x` keeps its part from `x` on, and no other lineage changes. */
  lemma MoveCarriesSubtree(assets: Assets, x: Uuid, asset: Asset, ancestors: seq<Uuid>, y: Uuid, p: seq<Uuid>)
    requires x in assets && x !in ancestors && IsLineage(assets, y, p)
    requires if asset.parent.Under? then IsLineage(assets, asset.parent.id, ancestors) else ancestors == []
    ensures IsLineage(assets[x := asset], y, Moved(p, x, ancestors))
  {
    if x in p {
      var k :| 0 <= k < |p| && p[k] == x;
      LineageIsDistinct(assets, y, p);
      MovedIs(p, k, x, ancestors);
      CarriedLineage(assets, x, asset, ancestors, y, p, k);
    } else {
      assert Moved(p, x, ancestors) == p;
    }
  }

  lemma MoveKeepsForest(assets: Assets, x: Uuid, asset: Asset, ancestors: seq<Uuid>)
    requires Forest(assets) && x in assets && x !in ancestors
    requires if asset.parent.Under? then IsLineage(assets, asset.parent.id, ancestors) else ancestors == []
    ensures Forest(assets[x := asset]) && IsLineage(assets[x := asset], x, ancestors + [x])
  {
    var after := assets[x := asset];
    forall y | y in after ensures Rooted(after, y) {
      var p :| IsLineage(assets, y, p);
      MoveCarriesSubtree(assets, x, asset, ancestors, y, p);
    }
    forall i | 0 <= i < |ancestors| ensures after[ancestors[i]] == assets[ancestors[i]] {
    }
    LineageBelow(after, x, ancestors);
  }

  lemma UpdateKeepsLineage(assets: Assets, x: Uuid, asset: Asset, y: Uuid, p: seq<Uuid>)
    requires x in assets && asset.parent == assets[x].parent && IsLineage(assets, y, p)
    ensures IsLineage(assets[x := asset], y, p)
  {
    var after := assets[x := asset];
    forall i | 0 <= i < |p| ensures p[i] in after && after[p[i]].parent == assets[p[i]].parent {
    }
  }

  /** A change that keeps the parent keeps every lineage. */
  lemma UpdateKeepsForest(assets: Assets, x: Uuid, asset: Asset)
    requires Forest(assets) && x in assets && asset.parent == assets[x].parent
    ensures Forest(assets[x := asset])
  {
    var after := assets[x := asset];
    forall y | y in after ensures Rooted(after, y) {
      assert y in assets;
      var p :| IsLineage(assets, y, p);
      UpdateKeepsLineage(assets, x, asset, y, p);
    }
  }

  lemma DeleteKeepsLineage(assets: Assets, x: Uuid, y: Uuid, p: seq<Uuid>)
    requires IsLineage(assets, y, p) && y != x && forall z :: z in assets ==> assets[z].parent != Under(x)
    ensures IsLineage(assets - {x}, y, p)
  {
    forall i | 0 <= i < |p| ensures p[i] != x {
      assert i < |p| - 1 ==> assets[p[i + 1]].parent == Under(p[i]);
    }
  }

  lemma DeleteKeepsForest(assets: Assets, x: Uuid)
    requires Forest(assets) && forall y :: y in assets ==> assets[y].parent != Under(x)
    ensures Forest(assets - {x})
  {
    var after := assets - {x};
    forall y | y in after ensures Rooted(after, y) {
      var p :| IsLineage(assets, y, p);
      DeleteKeepsLineage(assets, x, y, p);
    }
  }

  // ---------------------------------------------------------------- depth and boundaries

  const MAX_HIERARCHY_DEPTH: nat := 16

  ghost predicate DepthWithin(assets: Assets, y: Uuid) {
    forall p :: IsLineage(assets, y, p) ==> |p| <= MAX_HIERARCHY_DEPTH
  }

  ghost predicate DepthsWithin(assets: Assets) {
    forall y :: y in assets ==> DepthWithin(assets, y)
  }

  lemma MovedLength(assets: Assets, x: Uuid, own: seq<Uuid>, ancestors: seq<Uuid>, y: Uuid, p: seq<Uuid>)
    requires IsLineage(assets, x, own) && IsLineage(assets, y, p) && x in p
    ensures |own| <= |p| && p == own + p[|own|..]
    ensures Moved(p, x, ancestors) == ancestors + [x] + p[|own|..]
  {
    var k := PlaceInLineage(assets, x, own, y, p);
    MovedIs(p, k, x, ancestors);
    PartsOf(p, k, ancestors);
  }

  lemma PartsOf(p: seq<Uuid>, k: nat, ancestors: seq<Uuid>)
    requires k < |p|
    ensures |p[..k + 1]| == k + 1 && ancestors + p[k..] == ancestors + [p[k]] + p[k + 1..]
  {
    assert p[k..] == [p[k]] + p[k + 1..];
  }

  lemma PlaceInLineage(assets: Assets, x: Uuid, own: seq<Uuid>, y: Uuid, p: seq<Uuid>) returns (k: nat)
    requires IsLineage(assets, x, own) && IsLineage(assets, y, p) && x in p
    ensures k < |p| && p[k] == x && x !in p[..k] && own == p[..k + 1] && p == own + p[k + 1..]
  {
    k :| 0 <= k < |p| && p[k] == x;
    LineagePrefix(assets, y, p, k);
    LineageIsUnique(assets, x, own, p[..k + 1]);
    LineageIsDistinct(assets, y, p);
  }

  /** Moving `x` keeps all depths within the limit exactly when the deepest asset below it
      still fits; the depth of `x` alone does not tell. */
  lemma MoveKeepsDepths(assets: Assets, x: Uuid, asset: Asset, ancestors: seq<Uuid>, own: seq<Uuid>)
    requires Forest(assets) && DepthsWithin(assets) && x in assets && x !in ancestors && IsLineage(assets, x, own)
    requires if asset.parent.Under? then IsLineage(assets, asset.parent.id, ancestors) else ancestors == []
    ensures DepthsWithin(assets[x := asset]) <==>
              forall y, p :: IsLineage(assets, y, p) && x in p ==> |ancestors| + 1 + |p| - |own| <= MAX_HIERARCHY_DEPTH
  {
    var after := assets[x := asset];
    if DepthsWithin(after) {
      forall y, p | IsLineage(assets, y, p) && x in p ensures |ancestors| + 1 + |p| - |own| <= MAX_HIERARCHY_DEPTH {
        MoveCarriesSubtree(assets, x, asset, ancestors, y, p);
        MovedLength(assets, x, own, ancestors, y, p);
        assert DepthWithin(after, y);
      }
    }
    if forall y, p :: IsLineage(assets, y, p) && x in p ==> |ancestors| + 1 + |p| - |own| <= MAX_HIERARCHY_DEPTH {
      forall y, q | IsLineage(after, y, q) ensures |q| <= MAX_HIERARCHY_DEPTH {
        MovedDepth(assets, x, asset, ancestors, own, y, q);
      }
    }
  }

  lemma MovedDepth(assets: Assets, x: Uuid, asset: Asset, ancestors: seq<Uuid>, own: seq<Uuid>, y: Uuid, q: seq<Uuid>)
    requires Forest(assets) && DepthsWithin(assets) && x in assets && x !in ancestors && IsLineage(assets, x, own)
    requires if asset.parent.Under? then IsLineage(assets, asset.parent.id, ancestors) else ancestors == []
    requires forall y, p :: IsLineage(assets, y, p) && x in p ==> |ancestors| + 1 + |p| - |own| <= MAX_HIERARCHY_DEPTH
    requires IsLineage(assets[x := asset], y, q)
    ensures |q| <= MAX_HIERARCHY_DEPTH
  {
    assert y in assets[x := asset] && y in assets && Rooted(assets, y) && DepthWithin(assets, y);
    var p :| IsLineage(assets, y, p);
    MovedDepthIs(assets, x, asset, ancestors, own, y, p, q);
  }

  lemma MovedDepthIs(assets: Assets, x: Uuid, asset: Asset, ancestors: seq<Uuid>, own: seq<Uuid>, y: Uuid,
                     p: seq<Uuid>, q: seq<Uuid>)
    requires x in assets && x !in ancestors && IsLineage(assets, x, own) && IsLineage(assets, y, p)
    requires if asset.parent.Under? then IsLineage(assets, asset.parent.id, ancestors) else ancestors == []
    requires IsLineage(assets[x := asset], y, q)
    ensures |q| == if x in p then |ancestors| + 1 + |p| - |own| else |p|
  {
    MoveCarriesSubtree(assets, x, asset, ancestors, y, p);
    LineageIsUnique(assets[x := asset], y, q, Moved(p, x, ancestors));
    if x in p {
      MovedLength(assets, x, own, ancestors, y, p);
    }
  }

  /** The boundary of a measurement is its owner or an ancestor of it. */
  ghost predicate BoundaryHolds(assets: Assets, binding: Binding) {
    exists p :: IsLineage(assets, binding.owner, p) && binding.boundary in p
  }

  /** Moving `x` keeps a measurement's boundary exactly when the owner is outside the moved
      subtree, the boundary is inside it, or the boundary is also above the new place. */
  lemma MoveKeepsBoundary(assets: Assets, x: Uuid, asset: Asset, ancestors: seq<Uuid>, binding: Binding,
                          p: seq<Uuid>, b: seq<Uuid>)
    requires x in assets && x !in ancestors
    requires IsLineage(assets, binding.owner, p) && binding.boundary in p && IsLineage(assets, binding.boundary, b)
    requires if asset.parent.Under? then IsLineage(assets, asset.parent.id, ancestors) else ancestors == []
    ensures BoundaryHolds(assets[x := asset], binding) <==> x !in p || x in b || binding.boundary in ancestors
  {
    var after, q := assets[x := asset], Moved(p, x, ancestors);
    MoveCarriesSubtree(assets, x, asset, ancestors, binding.owner, p);
    assert BoundaryHolds(after, binding) <==> binding.boundary in q by {
      forall r | IsLineage(after, binding.owner, r) ensures r == q {
        LineageIsUnique(after, binding.owner, r, q);
      }
    }
    if x in p {
      BoundaryInMoved(assets, x, ancestors, binding, p, b);
    } else {
      assert Moved(p, x, ancestors) == p;
    }
  }

  lemma BoundaryInMoved(assets: Assets, x: Uuid, ancestors: seq<Uuid>, binding: Binding, p: seq<Uuid>, b: seq<Uuid>)
    requires IsLineage(assets, binding.owner, p) && x in p && binding.boundary in p
    requires IsLineage(assets, binding.boundary, b)
    ensures binding.boundary in Moved(p, x, ancestors) <==> x in b || binding.boundary in ancestors
  {
    LineageIsDistinct(assets, binding.owner, p);
    var k :| 0 <= k < |p| && p[k] == x;
    MovedIs(p, k, x, ancestors);
    var j :| 0 <= j < |p| && p[j] == binding.boundary;
    LineagePrefix(assets, binding.owner, p, j);
    LineageIsUnique(assets, binding.boundary, b, p[..j + 1]);
    assert binding.boundary in p[k..] <==> k <= j by {
      if k <= j {
        assert p[k..][j - k] == binding.boundary;
      }
    }
    assert x in b <==> k <= j by {
      if k <= j {
        assert b[k] == x;
      }
    }
  }
}
