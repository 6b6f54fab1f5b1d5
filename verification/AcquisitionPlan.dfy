/** How reconciliation groups the enabled calculated tags by trigger, and why tags kept by
    the tag service give the cascade a well-formed relation. */
module AcquisitionPlan {
  import opened Identifiers
  import opened Digraph
  import opened Runs
  import opened CalculatedOrder
  import opened CalculatedCascade
  import TagGraph

  /** A listed tag with its configuration. */
  datatype Tag = Tag(id: Uuid, config: TagGraph.TagInput)

  function TagIds(tags: seq<Tag>): (r: seq<Uuid>)
    ensures |r| == |tags| && forall i :: 0 <= i < |r| ==> r[i] == tags[i].id
  {
    seq(|tags|, i requires 0 <= i < |tags| => tags[i].id)
  }

  /** Under each trigger exactly the listed calculated tags with this trigger, each with the
      references of its expression. */
  ghost predicate Groups(relation: Relation, tags: seq<Tag>) {
    forall t, c :: t in relation && c in relation[t] <==>
      Tag(c.id, TagGraph.CalculatedInput(c.dependencies, t)) in tags
  }

  lemma GroupsOneMore(before: Relation, after: Relation, tags: seq<Tag>, tag: Tag)
    requires Groups(before, tags)
    requires after == match tag.config
                      case CalculatedInput(references, trigger) =>
                        before[trigger := TriggeredBy(before, trigger) + [CalculatedTag(tag.id, references)]]
                      case _ => before
    ensures Groups(after, tags + [tag])
  {
    forall t, c ensures t in after && c in after[t] <==>
                          Tag(c.id, TagGraph.CalculatedInput(c.dependencies, t)) in tags + [tag] {
      assert t in before && c in before[t] <==> Tag(c.id, TagGraph.CalculatedInput(c.dependencies, t)) in tags;
    }
  }

  method GroupByTrigger(tags: seq<Tag>) returns (calculated: Relation)
    ensures Groups(calculated, tags)
  {
    calculated := map[];
    for i := 0 to |tags|
      invariant Groups(calculated, tags[..i])
    {
      var tag, previous := tags[i], calculated;
      match tag.config {
        case CalculatedInput(references, trigger) =>
          calculated := calculated[trigger := TriggeredBy(calculated, trigger) + [CalculatedTag(tag.id, references)]];
        case _ =>
      }
      GroupsOneMore(previous, calculated, tags[..i], tag);
      assert tags[..i + 1] == tags[..i] + [tag];
    }
    assert tags[..|tags|] == tags;
  }

  /** Stored tags, each at most once, with their configurations: what listing the enabled
      tags returns. */
  ghost predicate ListsStored(tags: seq<Tag>, catalogue: TagGraph.Catalogue) {
    && Distinct(TagIds(tags))
    && forall tag :: tag in tags ==> tag.id in catalogue && catalogue[tag.id].config == tag.config
  }

  lemma SameIdSameListing(tags: seq<Tag>, a: Tag, b: Tag)
    requires Distinct(TagIds(tags)) && a in tags && b in tags && a.id == b.id
    ensures a == b
  {
    var i :| 0 <= i < |tags| && tags[i] == a;
    var j :| 0 <= j < |tags| && tags[j] == b;
    assert TagIds(tags)[i] == TagIds(tags)[j];
  }

  /** A trigger edge comes from a listed tag; if the trigger is still stored, the edge is
      that of the tag's dependency row. */
  lemma TriggerIsRecorded(relation: Relation, tags: seq<Tag>, stored: TagGraph.Stored, t: Uuid, x: Uuid)
    requires TagGraph.Recorded(stored) && ListsStored(tags, stored.catalogue) && Groups(relation, tags)
    requires (t, x) in TriggerEdges(relation)
    ensures exists tag :: tag in tags && tag.id == x && tag.config.CalculatedInput? && tag.config.trigger == t
    ensures x in stored.catalogue
    ensures t in stored.catalogue ==> (x, t) in TagGraph.CatalogueEdges(stored.catalogue)
  {
    var c :| t in relation && c in relation[t] && c.id == x;
    var tag := Tag(c.id, TagGraph.CalculatedInput(c.dependencies, t));
    assert tag in tags && TagGraph.EntryRecorded(stored, x);
    assert tag.config.DependsOn(t);
  }

  lemma TriggersAreAcyclic(relation: Relation, tags: seq<Tag>, stored: TagGraph.Stored)
    requires TagGraph.Kept(stored) && ListsStored(tags, stored.catalogue) && Groups(relation, tags)
    ensures Acyclic(TriggerEdges(relation))
  {
    var edges, rows := TriggerEdges(relation), TagGraph.CatalogueEdges(stored.catalogue);
    var among := set e | e in edges && e.0 in stored.catalogue :: e;
    forall t, x | (t, x) in among ensures (x, t) in rows {
      TriggerIsRecorded(relation, tags, stored, t, x);
    }
    ReversalAcyclic(among, rows);
    forall t, x | (t, x) in edges ensures x in stored.catalogue {
      TriggerIsRecorded(relation, tags, stored, t, x);
    }
    forall p ensures !IsCycle(edges, p) {
      if IsCycle(edges, p) {
        CycleStaysAmong(edges, among, stored.catalogue.Keys, p);
      }
    }
  }

  /** A cycle passes only through nodes that edges lead to. */
  lemma CycleStaysAmong(edges: Edges, among: Edges, nodes: set<Uuid>, p: seq<Uuid>)
    requires IsCycle(edges, p) && forall x, y :: (x, y) in edges ==> y in nodes
    requires forall x, y :: (x, y) in edges && x in nodes ==> (x, y) in among
    ensures IsCycle(among, p)
  {
    forall k | 0 < k < |p| ensures p[k] in nodes {
      assert (p[k - 1], p[k]) in edges;
    }
    forall i | 0 <= i < |p| - 1 ensures (p[i], p[i + 1]) in among {
      assert (p[i], p[i + 1]) in edges && p[i] in nodes;
    }
  }

  lemma TriggersAreUnique(relation: Relation, tags: seq<Tag>, stored: TagGraph.Stored)
    requires TagGraph.Recorded(stored) && ListsStored(tags, stored.catalogue) && Groups(relation, tags)
    ensures OneTrigger(relation)
  {
    forall s, t, x | (s, x) in TriggerEdges(relation) && (t, x) in TriggerEdges(relation) ensures s == t {
      TriggerIsRecorded(relation, tags, stored, s, x);
      TriggerIsRecorded(relation, tags, stored, t, x);
      var a :| a in tags && a.id == x && a.config.CalculatedInput? && a.config.trigger == s;
      var b :| b in tags && b.id == x && b.config.CalculatedInput? && b.config.trigger == t;
      SameIdSameListing(tags, a, b);
    }
  }

  lemma SiblingsAreAcyclic(relation: Relation, tags: seq<Tag>, stored: TagGraph.Stored, t: Uuid)
    requires TagGraph.Kept(stored) && ListsStored(tags, stored.catalogue) && Groups(relation, tags)
    ensures Acyclic(InListEdges(ById(TriggeredBy(relation, t))))
  {
    var byId, rows := ById(TriggeredBy(relation, t)), TagGraph.CatalogueEdges(stored.catalogue);
    forall x, y | (x, y) in InListEdges(byId) ensures (x, y) in rows {
      var a, b := Tag(x, TagGraph.CalculatedInput(byId[x].dependencies, t)),
                  Tag(y, TagGraph.CalculatedInput(byId[y].dependencies, t));
      assert byId[x] in TriggeredBy(relation, t) && byId[y] in TriggeredBy(relation, t);
      assert a in tags && b in tags && TagGraph.EntryRecorded(stored, x);
      assert a.config.DependsOn(y);
    }
    SubgraphAcyclic(InListEdges(byId), rows);
  }

  /** After any run of service operations, whatever stored tags are listed, the relation
      that reconciliation builds meets the hypotheses of the cascade. */
  lemma ServiceDrivesCascade(run: seq<TagGraph.Stored>, n: nat, tags: seq<Tag>, relation: Relation)
    requires Run(run, TagGraph.Step) && n < |run| && run[0] == TagGraph.Stored(map[], {})
    requires ListsStored(tags, run[n].catalogue) && Groups(relation, tags)
    ensures WellFormed(relation) && DependenciesAcyclic(relation)
  {
    TagGraph.NothingIsKept();
    TagGraph.RunStaysSound(run, n);
    TriggersAreAcyclic(relation, tags, run[n]);
    TriggersAreUnique(relation, tags, run[n]);
    forall t ensures Acyclic(InListEdges(ById(TriggeredBy(relation, t)))) {
      SiblingsAreAcyclic(relation, tags, run[n], t);
    }
  }
}
