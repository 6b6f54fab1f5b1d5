/** The asset service over its repository: placement, ancestry, and the operations that
    create, update, move and delete assets and replace their measurements. */
module AssetService {
  import opened Identifiers
  import opened AssetForest

  datatype Error =
    | InvalidInput | NotFound | InvalidAsset | InvalidKind | InvalidPlacement
    | TooDeep | Cycle | HasDependents | InvalidBinding | Refused

  datatype Outcome = Done | Failed(error: Error)

  datatype ParentKind = None | Of(kind: Kind)

  function ValidatePlacement(kind: Kind, parent: ParentKind): (r: Outcome)
    ensures r == Done <==>
              !kind.Unknown? && (parent.Of? ==> !parent.kind.Unknown?) && (kind == Site <==> parent == None)
  {
    if !kind.Valid() then Failed(InvalidKind)
    else if parent.Of? && !parent.kind.Valid() then Failed(InvalidKind)
    else if kind == Site then if parent.Of? then Failed(InvalidPlacement) else Done
    else if parent == None then Failed(InvalidPlacement)
    else Done
  }

  method ValidateAncestry(asset: Uuid, ancestors: seq<Uuid>) returns (r: Outcome)
    ensures r == Done <==>
              && asset != NIL && NIL !in ancestors
              && |ancestors| + 1 <= 16 && Distinct([asset] + ancestors)
    ensures r in {Done, Failed(Cycle), Failed(TooDeep), Failed(InvalidAsset)}
    ensures r == Failed(Cycle) ==> !Distinct([asset] + ancestors)
    ensures r == Failed(InvalidAsset) ==> asset == NIL || NIL in ancestors
    ensures r == Failed(TooDeep) <==> asset != NIL && |ancestors| + 1 > MAX_HIERARCHY_DEPTH
  {
    if asset == NIL {
      return Failed(InvalidAsset);
    }
    if |ancestors| + 1 > MAX_HIERARCHY_DEPTH {
      return Failed(TooDeep);
    }
    var seen := {asset};
    ghost var all := [asset] + ancestors;
    for i := 0 to |ancestors|
      invariant seen == SetOf(all[..i + 1]) && Distinct(all[..i + 1]) && NIL !in ancestors[..i]
    {
      assert all[i + 1] == ancestors[i] && all[..i + 2] == all[..i + 1] + [ancestors[i]];
      if ancestors[i] == NIL {
        return Failed(InvalidAsset);
      }
      if ancestors[i] in seen {
        assert exists k :: 0 <= k < i + 1 && all[k] == all[i + 1];
        return Failed(Cycle);
      }
      seen := seen + {ancestors[i]};
      assert ancestors[..i + 1] == ancestors[..i] + [ancestors[i]];
    }
    assert all[..|ancestors| + 1] == all && ancestors[..|ancestors|] == ancestors;
    return Done;
  }

  const MAX_NAME_LENGTH: nat := 100

  predicate ValidAsset(name: string, kind: Kind, position: int) {
    0 < |name| <= MAX_NAME_LENGTH && kind.Valid() && position >= 0
  }

  class Service {
    var assets: Assets
    var bindings: map<Uuid, Binding>

    ghost predicate Valid()
      reads this
    {
      Sound(assets, bindings)
    }

    constructor ()
      ensures Valid() && assets == map[] && bindings == map[]
    {
      assets, bindings := map[], map[];
    }

    predicate Measured(x: Uuid)
      reads this
    {
      Owns(bindings, x)
    }

    /** The lineage from the root, read upwards. */
    method LineageOf(x: Uuid) returns (p: seq<Uuid>)
      requires Valid() && x in assets
      ensures IsLineage(assets, x, p)
    {
      ghost var whole :| IsLineage(assets, x, whole);
      p := [x];
      ParentsAlong(assets, x, whole);
      while assets[p[0]].parent.Under?
        invariant 0 < |p| <= |whole| && whole[|whole| - |p|..] == p
        invariant p[0] == whole[|whole| - |p|] && (assets[p[0]].parent.Under? <==> |p| < |whole|)
        decreases |whole| - |p|
      {
        ghost var k := |whole| - |p|;
        assert whole[k - 1..] == [whole[k - 1]] + whole[k..];
        p := [assets[p[0]].parent.id] + p;
      }
    }

    /** The checks `Create` and `Move` share: the parent's kind and the lineage above. */
    method Place(id: Uuid, kind: Kind, parent: Parent) returns (r: Outcome, ancestors: seq<Uuid>)
      requires Valid()
      ensures r == Done ==> (if parent.Under? then IsLineage(assets, parent.id, ancestors) else ancestors == [])
      ensures r == Done <==> Placeable(assets, id, kind, parent)
      ensures r == Done ==> id !in ancestors && |ancestors| + 1 <= MAX_HIERARCHY_DEPTH
      ensures r.Failed? && id != NIL && !kind.Unknown? ==> Explains(assets, id, kind, parent, r.error)
    {
      ancestors := [];
      if parent == NoParent {
        r := ValidatePlacement(kind, None);
        if r == Done {
          r := ValidateAncestry(id, []);
        }
        return;
      }
      if parent.id !in assets {
        return Failed(NotFound), [];
      }
      ancestors := LineageOf(parent.id);
      PlaceableBelow(assets, id, kind, parent.id, ancestors);
      r := ValidatePlacement(kind, Of(assets[parent.id].kind));
      if r == Done {
        r := ValidateAncestry(id, ancestors);
      }
    }

    /** `id` is the new random identifier; `refuses` says whether the storage refuses the
        row for a reason of its own. */
    method Create(id: Uuid, asset: Asset, refuses: bool) returns (r: Outcome)
      requires Valid()
      modifies this
      ensures Valid() && bindings == old(bindings)
      ensures r == Done <==>
                && 1 <= |asset.name| <= 100 && asset.position >= 0
                && old(Placeable(assets, id, asset.kind, asset.parent))
                && !refuses && id !in old(assets)
                && !(exists b :: b in bindings && asset.parent == Under(bindings[b].owner))
      ensures assets == if r == Done then old(assets)[id := asset] else old(assets)
      ensures r == Done ==> DepthWithin(assets, id)
    {
      if !ValidAsset(asset.name, asset.kind, asset.position) {
        return Failed(InvalidInput);
      }
      var ancestors;
      r, ancestors := Place(id, asset.kind, asset.parent);
      if r != Done {
        return;
      }
      if refuses || id in assets || (asset.parent.Under? && Measured(asset.parent.id)) {
        return Failed(Refused);
      }
      CreateKeepsSound(assets, bindings, id, asset, ancestors);
      assets := assets[id := asset];
    }

    /** Every field but the parent may change. */
    method Update(id: Uuid, name: string, kind: Kind, enabled: bool, position: int, refuses: bool) returns (r: Outcome)
      requires Valid()
      modifies this
      ensures Valid() && bindings == old(bindings)
      ensures r == Done <==>
                && id in old(assets) && 1 <= |name| <= 100 && !kind.Unknown? && position >= 0 && !refuses
                && (kind == Site <==> old(assets)[id].parent == NoParent)
      ensures assets ==
              if r == Done then old(assets)[id := Asset(old(assets)[id].parent, name, kind, enabled, position)]
              else old(assets)
    {
      if id == NIL {
        return Failed(InvalidInput);
      }
      if id !in assets {
        return Failed(NotFound);
      }
      if !ValidAsset(name, kind, position) {
        return Failed(InvalidInput);
      }
      var parent := assets[id].parent;
      var parentKind := None;
      if parent.Under? {
        ParentsArePresent(assets, id);
        parentKind := Of(assets[parent.id].kind);
      }
      r := ValidatePlacement(kind, parentKind);
      if r != Done {
        return;
      }
      if refuses {
        return Failed(Refused);
      }
      var updated := Asset(parent, name, kind, enabled, position);
      UpdateKeepsSound(assets, bindings, id, updated);
      assets := assets[id := updated];
    }

    method CheckMove(id: Uuid, parent: Parent, position: int, refuses: bool) returns (r: Outcome, ancestors: seq<Uuid>)
      requires Valid()
      ensures r == Done <==> Movable(assets, bindings, id, parent, position) && !refuses
      ensures r == Done ==> (if parent.Under? then IsLineage(assets, parent.id, ancestors) else ancestors == [])
    {
      if id == NIL || position < 0 || parent == Under(NIL) {
        return Failed(InvalidInput), [];
      }
      if id !in assets {
        return Failed(NotFound), [];
      }
      r, ancestors := Place(id, assets[id].kind, parent);
      if r == Done && (refuses || (parent.Under? && Measured(parent.id))) {
        r := Failed(Refused);
      }
    }

    method Move(id: Uuid, parent: Parent, position: int, refuses: bool) returns (r: Outcome)
      requires Valid()
      modifies this
      ensures Valid() && bindings == old(bindings)
      ensures r == Done <==>
                old(Movable(assets, bindings, id, parent, position)) && !refuses
      ensures assets ==
              if r == Done then old(assets)[id := old(assets)[id].(parent := parent, position := position)]
              else old(assets)
      ensures r == Done ==> DepthWithin(assets, id)
    {
      var ancestors;
      r, ancestors := CheckMove(id, parent, position, refuses);
      if r == Done {
        var moved := assets[id].(parent := parent, position := position);
        MoveKeepsSound(assets, bindings, id, moved, ancestors);
        assets := assets[id := moved];
      }
    }

    method Delete(id: Uuid, refuses: bool) returns (r: Outcome)
      requires Valid()
      modifies this
      ensures Valid() && bindings == old(bindings)
      ensures r == Done <==>
                && id in old(assets) && !refuses && Unused(old(assets), bindings, id)
      ensures assets == if r == Done then old(assets) - {id} else old(assets)
    {
      if id == NIL {
        return Failed(InvalidInput);
      }
      if id !in assets {
        return Failed(NotFound);
      }
      UnusedIs(assets, bindings, id);
      if !Leaf(assets, id) || Measured(id) {
        return Failed(HasDependents);
      }
      if refuses || Bounds(bindings, id) {
        return Failed(Refused);
      }
      RemoveKeepsSound(assets, bindings, id);
      assets := assets - {id};
      return Done;
    }

    method CheckBindings(owner: Uuid, replacement: map<Uuid, Uuid>, compatible: bool, refuses: bool)
        returns (r: Outcome)
      requires Valid()
      ensures r == Done <==> Replaceable(assets, bindings, owner, replacement) && compatible && !refuses
    {
      if owner !in assets {
        return Failed(NotFound);
      }
      if !Leaf(assets, owner) {
        return Failed(InvalidBinding);
      }
      var lineage := LineageOf(owner);
      ReplaceableWithin(assets, bindings, owner, replacement, lineage);
      if !compatible || !BoundariesAmong(replacement, lineage) {
        return Failed(InvalidBinding);
      }
      if refuses || TakesOthers(bindings, owner, replacement) {
        return Failed(Refused);
      }
      return Done;
    }

    /** The owner's measurements are replaced as a whole. `compatible` stands for the checks
        of sources and meters, one by one and as the rollup plan of every boundary. */
    method ReplaceBindings(owner: Uuid, replacement: map<Uuid, Uuid>, compatible: bool,
                           refuses: bool) returns (r: Outcome)
      requires Valid()
      modifies this
      ensures Valid() && assets == old(assets)
      ensures r == Done <==> Replaceable(assets, old(bindings), owner, replacement) && compatible && !refuses
      ensures r != Done ==> bindings == old(bindings)
      ensures r == Done ==> forall b, binding ::
                b in bindings && bindings[b] == binding <==>
                  || (b in replacement && binding == Binding(owner, replacement[b]))
                  || (b in old(bindings) && old(bindings)[b] == binding && binding.owner != owner)
    {
      r := CheckBindings(owner, replacement, compatible, refuses);
      if r == Done {
        ReplaceKeepsSound(assets, bindings, owner, replacement);
        ReplacedIs(bindings, owner, replacement);
        bindings := Replaced(bindings, owner, replacement);
      }
    }
  }

  predicate BoundariesAmong(replacement: map<Uuid, Uuid>, lineage: seq<Uuid>) {
    forall b :: b in replacement ==> replacement[b] in lineage
  }

  predicate TakesOthers(bindings: map<Uuid, Binding>, owner: Uuid, replacement: map<Uuid, Uuid>) {
    exists b :: b in replacement && b in bindings && bindings[b].owner != owner
  }

  /** A leaf's measurements, with boundaries on its lineage, none of them another asset's. */
  ghost predicate Replaceable(assets: Assets, bindings: map<Uuid, Binding>, owner: Uuid, replacement: map<Uuid, Uuid>) {
    && owner in assets && (forall x :: x in assets ==> assets[x].parent != Under(owner))
    && (forall b :: b in replacement && b in bindings ==> bindings[b].owner == owner)
    && forall b :: b in replacement ==> BoundaryHolds(assets, Binding(owner, replacement[b]))
  }

  lemma ReplaceableWithin(assets: Assets, bindings: map<Uuid, Binding>, owner: Uuid, replacement: map<Uuid, Uuid>,
                          lineage: seq<Uuid>)
    requires owner in assets && Leaf(assets, owner) && IsLineage(assets, owner, lineage)
    ensures Replaceable(assets, bindings, owner, replacement)
       <==> BoundariesAmong(replacement, lineage) && !TakesOthers(bindings, owner, replacement)
  {
    BoundaryInLineage(assets, owner, lineage);
  }

  predicate Owns(bindings: map<Uuid, Binding>, x: Uuid) {
    exists b :: b in bindings && bindings[b].owner == x
  }

  predicate Bounds(bindings: map<Uuid, Binding>, x: Uuid) {
    exists b :: b in bindings && bindings[b].boundary == x
  }

  /** Nothing lies below the asset, and no measurement is its own or counted up to it. */
  ghost predicate Unused(assets: Assets, bindings: map<Uuid, Binding>, id: Uuid) {
    && (forall x :: x in assets ==> assets[x].parent != Under(id))
    && (forall b :: b in bindings ==> bindings[b].owner != id && bindings[b].boundary != id)
  }

  lemma UnusedIs(assets: Assets, bindings: map<Uuid, Binding>, id: Uuid)
    ensures Unused(assets, bindings, id) <==> Leaf(assets, id) && !Owns(bindings, id) && !Bounds(bindings, id)
  {
  }

  /** Asset kinds are valid, and exactly the roots are sites. */
  predicate SitesAreRoots(assets: Assets) {
    forall x :: x in assets ==> !assets[x].kind.Unknown? && (assets[x].kind == Site <==> assets[x].parent == NoParent)
  }

  /** Measurements are owned by leaves, and their boundaries are present. */
  predicate LeavesMeasured(assets: Assets, bindings: map<Uuid, Binding>) {
    forall b :: b in bindings ==>
      bindings[b].owner in assets && bindings[b].boundary in assets && Leaf(assets, bindings[b].owner)
  }

  /** What every operation keeps: a forest whose roots are exactly the sites, and
      measurements only on leaves, with their boundary present. */
  ghost predicate Sound(assets: Assets, bindings: map<Uuid, Binding>) {
    Forest(assets) && NIL !in assets && SitesAreRoots(assets) && LeavesMeasured(assets, bindings)
  }

  lemma PutKeepsSites(assets: Assets, id: Uuid, asset: Asset)
    requires SitesAreRoots(assets) && !asset.kind.Unknown? && (asset.kind == Site <==> asset.parent == NoParent)
    ensures SitesAreRoots(assets[id := asset])
  {
  }

  lemma PutKeepsLeaves(assets: Assets, bindings: map<Uuid, Binding>, id: Uuid, asset: Asset)
    requires LeavesMeasured(assets, bindings)
    requires asset.parent.Under? ==>
               !Owns(bindings, asset.parent.id) || (id in assets && assets[id].parent == asset.parent)
    ensures LeavesMeasured(assets[id := asset], bindings)
  {
    forall b | b in bindings ensures Leaf(assets[id := asset], bindings[b].owner) {
      assert Leaf(assets, bindings[b].owner);
    }
  }

  lemma CreateKeepsSound(assets: Assets, bindings: map<Uuid, Binding>, id: Uuid, asset: Asset, ancestors: seq<Uuid>)
    requires Sound(assets, bindings) && id !in assets && Placeable(assets, id, asset.kind, asset.parent)
    requires asset.parent.Under? ==> !Owns(bindings, asset.parent.id)
    requires if asset.parent.Under? then IsLineage(assets, asset.parent.id, ancestors) else ancestors == []
    ensures Sound(assets[id := asset], bindings) && DepthWithin(assets[id := asset], id)
  {
    CreateKeepsForest(assets, id, asset, ancestors);
    PutKeepsSites(assets, id, asset);
    PutKeepsLeaves(assets, bindings, id, asset);
    DepthFrom(assets[id := asset], id, ancestors + [id]);
  }

  lemma UpdateKeepsSound(assets: Assets, bindings: map<Uuid, Binding>, id: Uuid, asset: Asset)
    requires Sound(assets, bindings) && id in assets && asset.parent == assets[id].parent
    requires !asset.kind.Unknown? && (asset.kind == Site <==> asset.parent == NoParent)
    ensures Sound(assets[id := asset], bindings)
  {
    UpdateKeepsForest(assets, id, asset);
    PutKeepsSites(assets, id, asset);
    PutKeepsLeaves(assets, bindings, id, asset);
  }

  lemma MoveKeepsSound(assets: Assets, bindings: map<Uuid, Binding>, id: Uuid, asset: Asset, ancestors: seq<Uuid>)
    requires Sound(assets, bindings) && id in assets && Placeable(assets, id, asset.kind, asset.parent)
    requires asset.parent.Under? ==> !Owns(bindings, asset.parent.id)
    requires if asset.parent.Under? then IsLineage(assets, asset.parent.id, ancestors) else ancestors == []
    ensures Sound(assets[id := asset], bindings) && DepthWithin(assets[id := asset], id)
  {
    MoveKeepsForest(assets, id, asset, ancestors);
    PutKeepsSites(assets, id, asset);
    PutKeepsLeaves(assets, bindings, id, asset);
    DepthFrom(assets[id := asset], id, ancestors + [id]);
  }

  lemma RemoveKeepsSound(assets: Assets, bindings: map<Uuid, Binding>, id: Uuid)
    requires Sound(assets, bindings) && Leaf(assets, id) && !Owns(bindings, id)
    requires !Bounds(bindings, id)
    ensures Sound(assets - {id}, bindings)
  {
    DeleteKeepsForest(assets, id);
    RemoveKeepsLeaves(assets, bindings, id);
  }

  lemma RemoveKeepsLeaves(assets: Assets, bindings: map<Uuid, Binding>, id: Uuid)
    requires LeavesMeasured(assets, bindings) && SitesAreRoots(assets) && !Owns(bindings, id) && !Bounds(bindings, id)
    ensures LeavesMeasured(assets - {id}, bindings) && SitesAreRoots(assets - {id})
  {
    forall b | b in bindings ensures Leaf(assets - {id}, bindings[b].owner) {
      assert Leaf(assets, bindings[b].owner);
    }
  }

  /** The bindings after those of one owner have been replaced. */
  function Replaced(bindings: map<Uuid, Binding>, owner: Uuid, replacement: map<Uuid, Uuid>): map<Uuid, Binding> {
    (map b | b in bindings && bindings[b].owner != owner :: bindings[b])
    + (map b | b in replacement :: Binding(owner, replacement[b]))
  }

  /** The owner's measurements are the replacement, and nobody else's change. */
  lemma ReplacedIs(bindings: map<Uuid, Binding>, owner: Uuid, replacement: map<Uuid, Uuid>)
    requires !TakesOthers(bindings, owner, replacement)
    ensures var after := Replaced(bindings, owner, replacement);
            forall b, binding ::
              b in after && after[b] == binding <==>
                || (b in replacement && binding == Binding(owner, replacement[b]))
                || (b in bindings && bindings[b] == binding && binding.owner != owner)
  {
    forall b ensures !(b in replacement && b in bindings && bindings[b].owner != owner) {
    }
  }

  lemma ReplaceKeepsSound(assets: Assets, bindings: map<Uuid, Binding>, owner: Uuid, replacement: map<Uuid, Uuid>)
    requires Sound(assets, bindings) && Replaceable(assets, bindings, owner, replacement)
    ensures Sound(assets, Replaced(bindings, owner, replacement))
  {
    forall b | b in replacement ensures replacement[b] in assets {
      assert BoundaryHolds(assets, Binding(owner, replacement[b]));
    }
    ReplaceKeepsLeaves(assets, bindings, owner, replacement);
  }

  lemma ReplaceKeepsLeaves(assets: Assets, bindings: map<Uuid, Binding>, owner: Uuid, replacement: map<Uuid, Uuid>)
    requires LeavesMeasured(assets, bindings) && owner in assets && Leaf(assets, owner)
    requires forall b :: b in replacement ==> replacement[b] in assets
    ensures LeavesMeasured(assets, Replaced(bindings, owner, replacement))
  {
  }

  lemma BoundaryInLineage(assets: Assets, owner: Uuid, lineage: seq<Uuid>)
    requires IsLineage(assets, owner, lineage)
    ensures forall boundary :: BoundaryHolds(assets, Binding(owner, boundary)) <==> boundary in lineage
  {
    forall p | IsLineage(assets, owner, p) ensures p == lineage {
      LineageIsUnique(assets, owner, p, lineage);
    }
  }

  predicate Leaf(assets: Assets, x: Uuid) {
    forall y :: y in assets ==> assets[y].parent != Under(x)
  }

  /** The kind fits the parent, and the asset's depth the limit, without a cycle. */
  ghost predicate Placeable(assets: Assets, id: Uuid, kind: Kind, parent: Parent) {
    && id != NIL && !kind.Unknown?
    && match parent
       case NoParent => kind == Site
       case Under(above) =>
         && kind != Site && above in assets
         && forall p :: IsLineage(assets, above, p) ==> id !in p && |p| + 1 <= MAX_HIERARCHY_DEPTH
  }

  /** The error says what is wrong with the place. */
  ghost predicate Explains(assets: Assets, id: Uuid, kind: Kind, parent: Parent, error: Error) {
    match error
    case NotFound => parent.Under? && parent.id !in assets
    case InvalidPlacement => kind == Site <==> parent.Under?
    case TooDeep => parent.Under? && exists p :: IsLineage(assets, parent.id, p) && |p| + 1 > MAX_HIERARCHY_DEPTH
    case Cycle => parent.Under? && exists p :: IsLineage(assets, parent.id, p) && id in p
    case _ => false
  }

  lemma ParentsAlong(assets: Assets, x: Uuid, p: seq<Uuid>)
    requires IsLineage(assets, x, p)
    ensures forall k :: 0 <= k < |p| ==> (assets[p[k]].parent.Under? <==> k > 0)
    ensures forall k :: 0 < k < |p| ==> assets[p[k]].parent == Under(p[k - 1])
  {
    forall k | 0 <= k < |p| ensures assets[p[k]].parent.Under? <==> k > 0 {
      assert k > 0 ==> assets[p[k]].parent == Under(p[k - 1]);
    }
  }

  /** What makes a move acceptable. */
  ghost predicate Movable(assets: Assets, bindings: map<Uuid, Binding>, id: Uuid, parent: Parent, position: int) {
    && position >= 0 && parent != Under(NIL) && id in assets
    && Placeable(assets, id, assets[id].kind, parent)
    && !(exists b :: b in bindings && parent == Under(bindings[b].owner))
  }

  lemma PlaceableBelow(assets: Assets, id: Uuid, kind: Kind, above: Uuid, ancestors: seq<Uuid>)
    requires IsLineage(assets, above, ancestors) && NIL !in assets
    ensures NIL !in ancestors
    ensures Distinct([id] + ancestors) <==> id !in ancestors
    ensures Placeable(assets, id, kind, Under(above)) <==>
              && id != NIL && !kind.Unknown? && kind != Site
              && id !in ancestors && |ancestors| + 1 <= MAX_HIERARCHY_DEPTH
  {
    LineageIsDistinct(assets, above, ancestors);
    DistinctCons(id, ancestors);
    forall p | IsLineage(assets, above, p) ensures p == ancestors {
      LineageIsUnique(assets, above, p, ancestors);
    }
  }

  lemma DistinctCons(x: Uuid, p: seq<Uuid>)
    requires Distinct(p)
    ensures Distinct([x] + p) <==> x !in p
  {
    var all := [x] + p;
    if x in p {
      var k :| 0 <= k < |p| && p[k] == x;
      assert all[0] == all[k + 1];
    }
  }

  lemma ParentsArePresent(assets: Assets, x: Uuid)
    requires Forest(assets) && x in assets && assets[x].parent.Under?
    ensures assets[x].parent.id in assets
  {
    ForestIsAcyclic(assets);
  }

  lemma DepthFrom(assets: Assets, x: Uuid, p: seq<Uuid>)
    requires IsLineage(assets, x, p) && |p| <= MAX_HIERARCHY_DEPTH
    ensures DepthWithin(assets, x)
  {
    forall q | IsLineage(assets, x, q) ensures q == p {
      LineageIsUnique(assets, x, q, p);
    }
  }
}
