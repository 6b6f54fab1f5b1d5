/** Moves that the service accepts and that leave an asset too deep, or a measurement away
    from under its boundary. */
module AssetMoves {
  import opened Identifiers
  import opened AssetForest
  import opened AssetService

  function ChainAsset(i: nat): Asset {
    if i <= 1 then Asset(NoParent, "chain", Site, true, 0) else Asset(Under(i - 1), "chain", Area, true, 0)
  }

  /** Assets 1 to n, each below the one before. */
  function ChainTo(n: nat): (assets: Assets)
    ensures forall i :: i in assets <==> 1 <= i <= n
    ensures forall i :: i in assets ==> assets[i] == ChainAsset(i)
  {
    if n == 0 then map[] else ChainTo(n - 1)[n := ChainAsset(n)]
  }

  /** A chain of n assets, and a site with one building. */
  function Deep(n: nat): Assets {
    var site := Asset(NoParent, "other", Site, true, 0);
    ChainTo(n)[n + 1 := site][n + 2 := Asset(Under(n + 1), "hall", Building, true, 0)]
  }

  function Chain(first: nat, last: nat): seq<Uuid>
    requires first <= last
  {
    seq(last + 1 - first, i requires 0 <= i < last + 1 - first => first + i)
  }

  function DeepLineage(n: nat, y: Uuid): seq<Uuid>
    requires y in Deep(n)
  {
    if y <= n then Chain(1, y) else if y == n + 1 then [y] else [n + 1, y]
  }

  lemma DeepLineages(n: nat, y: Uuid)
    requires y in Deep(n)
    ensures IsLineage(Deep(n), y, DeepLineage(n, y))
  {
  }

  lemma DeepIsWithin(n: nat)
    requires 2 <= n <= MAX_HIERARCHY_DEPTH
    ensures Forest(Deep(n)) && DepthsWithin(Deep(n))
  {
    var assets := Deep(n);
    forall y | y in assets ensures Rooted(assets, y) && DepthWithin(assets, y) {
      DeepLineages(n, y);
      forall q | IsLineage(assets, y, q) ensures |q| <= MAX_HIERARCHY_DEPTH {
        LineageIsUnique(assets, y, DeepLineage(n, y), q);
      }
    }
  }

  lemma DeepIsMeasured(n: nat, bindings: map<Uuid, Binding>)
    requires 2 <= n && forall b :: b in bindings ==> bindings[b] == Binding(n, 1)
    ensures NIL !in Deep(n) && SitesAreRoots(Deep(n)) && LeavesMeasured(Deep(n), bindings)
  {
    assert Leaf(Deep(n), n);
  }

  /** The move of the second asset of the chain below the building. */
  function AfterMove(n: nat): Assets
    requires n >= 2
  {
    Deep(n)[2 := ChainAsset(2).(parent := Under(n + 2), position := 0)]
  }

  /** It is accepted, for it gives the asset depth three. */
  lemma MoveIsAccepted(n: nat, bindings: map<Uuid, Binding>)
    requires 2 <= n && forall b :: b in bindings ==> bindings[b] == Binding(n, 1)
    ensures Movable(Deep(n), bindings, 2, Under(n + 2), 0)
  {
    var hall := n + 2;
    DeepLineages(n, hall);
    forall p | IsLineage(Deep(n), hall, p) ensures p == [n + 1, hall] {
      LineageIsUnique(Deep(n), hall, p, [n + 1, hall]);
    }
  }

  lemma ChainMoves(n: nat)
    requires 2 <= n
    ensures IsLineage(AfterMove(n), n, [n + 1, n + 2] + Chain(2, n)) && |[n + 1, n + 2] + Chain(2, n)| == n + 1
  {
    DeepLineages(n, n);
    DeepLineages(n, n + 2);
    var chain := Chain(1, n);
    assert chain[1] == 2 && chain[1..] == Chain(2, n);
    CarriedLineage(Deep(n), 2, AfterMove(n)[2], [n + 1, n + 2], n, chain, 1);
  }

  /** The end of the chain then lies one level deeper than it did: from the greatest depth
      allowed, one too deep. */
  lemma MoveCanExceedDepth(n: nat)
    requires 2 <= n <= MAX_HIERARCHY_DEPTH
    ensures Sound(Deep(n), map[]) && DepthsWithin(Deep(n)) && Movable(Deep(n), map[], 2, Under(n + 2), 0)
    ensures exists q :: IsLineage(AfterMove(n), n, q) && |q| == n + 1
  {
    var none: map<Uuid, Binding> := map[];
    ChainMoves(n);
    DeepIsWithin(n);
    DeepIsMeasured(n, none);
    MoveIsAccepted(n, none);
  }

  /** A measurement at the end of the chain, counted up to its top, is then no longer under
      its boundary. */
  lemma MoveCanCrossBoundary(n: nat)
    requires 2 <= n <= MAX_HIERARCHY_DEPTH
    ensures var bindings := map[1 := Binding(n, 1)];
            && Sound(Deep(n), bindings) && Movable(Deep(n), bindings, 2, Under(n + 2), 0)
            && BoundaryHolds(Deep(n), Binding(n, 1)) && !BoundaryHolds(AfterMove(n), Binding(n, 1))
  {
    var bindings := map[1 := Binding(n, 1)];
    DeepIsWithin(n);
    DeepIsMeasured(n, bindings);
    MoveIsAccepted(n, bindings);
    BoundaryIsCrossed(n);
  }

  lemma BoundaryIsCrossed(n: nat)
    requires 2 <= n
    ensures BoundaryHolds(Deep(n), Binding(n, 1)) && !BoundaryHolds(AfterMove(n), Binding(n, 1))
  {
    DeepLineages(n, n);
    assert Chain(1, n)[0] == 1;
    ChainMoves(n);
    forall q | IsLineage(AfterMove(n), n, q) ensures 1 !in q {
      LineageIsUnique(AfterMove(n), n, q, [n + 1, n + 2] + Chain(2, n));
    }
  }
}
