/** The tag dependency graph: the depth-limited depth-first search that guards every
    create and update, and the catalogue whose dependency relation it keeps acyclic. */
module TagGraph {
  import opened Identifiers
  import opened Digraph
  import opened Ordering
  import opened DependencySearch
  import opened Runs

  /** Some cycle can be reached from x. */
  ghost predicate CycleFrom(edges: Edges, x: Uuid) {
    exists p :: IsCycle(edges, p) && Reaches(edges, x, p[0])
  }

  /** Some simple path from x has more than the permitted number of edges. */
  ghost predicate DeepFrom(edges: Edges, x: Uuid) {
    exists p :: LongPath(edges, x, p)
  }

  ghost predicate LongPath(edges: Edges, x: Uuid, p: seq<Uuid>) {
    IsPath(edges, p) && Distinct(p) && p[0] == x && |p| - 1 > MAX_TAG_DEPENDENCY_DEPTH
  }

  datatype Mark = Visiting | Finished

  /** The colour map agrees with the search path and with a closed order of finished nodes. */
  ghost predicate Consistent(edges: Edges, state: map<Uuid, Mark>, stack: seq<Uuid>, finished: seq<Uuid>) {
    && ClosedOrder(edges, finished)
    && Distinct(stack)
    && (forall x :: x in stack <==> x in state && state[x] == Visiting)
    && (forall x :: x in finished <==> x in state && state[x] == Finished)
  }

  /** A result with the meetings that came before it. */
  function After(seen: seq<Meeting>, result: Result): Result {
    if result.Clean? then Clean(result.finished, seen + result.met) else result
  }

  /** The search of graphCycleState: `state` is its colour map. The ghost fields record
      the current search path, the order in which nodes were finished, and the finished
      nodes met again. */
  class CycleSearch {
    const graph: Adjacency
    var state: map<Uuid, Mark>
    ghost var stack: seq<Uuid>
    ghost var finished: seq<Uuid>
    ghost var met: seq<Meeting>

    ghost predicate Valid()
      reads this
    {
      Consistent(EdgesOf(graph), state, stack, finished)
    }

    constructor (graph: Adjacency)
      ensures Valid() && this.graph == graph && stack == [] && finished == [] && met == []
    {
      this.graph := graph;
      state := map[];
      stack, finished, met := [], [], [];
    }

    method Visit(id: Uuid, depth: nat) returns (circular: bool, tooDeep: bool)
      requires Valid() && depth == |stack| <= MAX_TAG_DEPENDENCY_DEPTH + 1
      requires IsPath(EdgesOf(graph), stack + [id])
      modifies this
      ensures var result := Search(graph, old(stack), old(finished), id);
              && circular == result.Cyclic? && tooDeep == result.Deep?
              && (result.Clean? ==> finished == result.finished && met == old(met) + result.met)
      ensures !circular && !tooDeep ==>
                Valid() && stack == old(stack) && id in finished && old(finished) <= finished
      ensures circular ==> CycleFrom(EdgesOf(graph), old(stack + [id])[0])
      ensures tooDeep ==> DeepFrom(EdgesOf(graph), old(stack + [id])[0])
      decreases MAX_TAG_DEPENDENCY_DEPTH + 1 - depth, 1
    {
      if id in state && state[id] == Visiting {
        BackEdge(EdgesOf(graph), stack, id);
        return true, false;
      }
      if id in state && state[id] == Finished {
        met := met + [Meeting(id, depth)];
        return false, false;
      }
      EnterNode(EdgesOf(graph), state, stack, finished, id);
      if depth > MAX_TAG_DEPENDENCY_DEPTH {
        assert LongPath(EdgesOf(graph), (stack + [id])[0], stack + [id]);
        return false, true;
      }
      state := state[id := Visiting];
      stack := stack + [id];
      circular, tooDeep := VisitNeighbours(id, depth);
      if circular || tooDeep {
        return;
      }
      FinishNode(graph, state, old(stack), finished, id);
      state := state[id := Finished];
      stack := old(stack);
      finished := finished + [id];
    }

    /** The loop of the search over the neighbours of the node just marked. */
    method VisitNeighbours(id: Uuid, depth: nat) returns (circular: bool, tooDeep: bool)
      requires Valid() && depth + 1 == |stack| <= MAX_TAG_DEPENDENCY_DEPTH + 1
      requires IsPath(EdgesOf(graph), stack) && stack[depth] == id
      modifies this
      ensures var result := SearchAll(graph, old(stack), old(finished), Neighbours(graph, id));
              && circular == result.Cyclic? && tooDeep == result.Deep?
              && (result.Clean? ==> finished == result.finished && met == old(met) + result.met)
      ensures !circular && !tooDeep ==>
                Valid() && stack == old(stack) && old(finished) <= finished
                && forall y :: y in Neighbours(graph, id) ==> y in finished
      ensures circular ==> CycleFrom(EdgesOf(graph), old(stack)[0])
      ensures tooDeep ==> DeepFrom(EdgesOf(graph), old(stack)[0])
      decreases MAX_TAG_DEPENDENCY_DEPTH + 1 - depth, 0
    {
      var dependencies := Neighbours(graph, id);
      ghost var seen: seq<Meeting> := [];
      NothingSearched(graph, stack, finished, dependencies);
      ghost var edges := EdgesOf(graph);
      for i := 0 to |dependencies|
        invariant Consistent(edges, state, stack, finished) && stack == old(stack) && met == old(met) + seen
        invariant SearchedTo(graph, old(stack), old(finished), dependencies, i, seen, finished)
      {
        StepAlongEdge(graph, stack, dependencies[i]);
        ghost var result := Search(graph, stack, finished, dependencies[i]);
        NextNeighbour(graph, stack, old(finished), dependencies, i, seen, finished);
        circular, tooDeep := Visit(dependencies[i], depth + 1);
        if circular || tooDeep {
          return;
        }
        seen := seen + result.met;
      }
      AllSearched(graph, old(stack), old(finished), dependencies, seen, finished);
      AllFinished(graph, old(stack), old(finished), id);
      return false, false;
    }
  }

  /** The search of the neighbours before number i has given `seen` and `finished`. */
  ghost predicate SearchedTo(graph: Adjacency, path: seq<Uuid>, first: seq<Uuid>, ids: seq<Uuid>, i: nat,
                             seen: seq<Meeting>, finished: seq<Uuid>)
  {
    && |path| <= MAX_TAG_DEPENDENCY_DEPTH + 1 && i <= |ids|
    && SearchAll(graph, path, first, ids) == After(seen, SearchAll(graph, path, finished, ids[i..]))
  }

  lemma NothingSearched(graph: Adjacency, path: seq<Uuid>, finished: seq<Uuid>, ids: seq<Uuid>)
    requires |path| <= MAX_TAG_DEPENDENCY_DEPTH + 1
    ensures SearchedTo(graph, path, finished, ids, 0, [], finished)
  {
    assert ids[0..] == ids;
    var all := SearchAll(graph, path, finished, ids);
    assert all.Clean? ==> [] + all.met == all.met;
  }

  lemma AllSearched(graph: Adjacency, path: seq<Uuid>, first: seq<Uuid>, ids: seq<Uuid>, seen: seq<Meeting>,
                    finished: seq<Uuid>)
    requires SearchedTo(graph, path, first, ids, |ids|, seen, finished)
    ensures SearchAll(graph, path, first, ids) == Clean(finished, seen)
  {
    assert seen + [] == seen;
  }

  /** A clean search of a node's neighbours finishes them, and keeps what was finished. */
  lemma AllFinished(graph: Adjacency, stack: seq<Uuid>, finished: seq<Uuid>, id: Uuid)
    requires 0 < |stack| <= MAX_TAG_DEPENDENCY_DEPTH + 1
    requires SearchAll(graph, stack, finished, Neighbours(graph, id)).Clean?
    requires ClosedOrder(EdgesOf(graph), finished) && forall x :: x in stack ==> x !in finished
    ensures var all := SearchAll(graph, stack, finished, Neighbours(graph, id)).finished;
            finished <= all && forall y :: y in Neighbours(graph, id) ==> y in all
  {
    AllSearchedAreClosed(graph, stack, finished, Neighbours(graph, id));
    AllSearchedAreNear(graph, stack, finished, Neighbours(graph, id), id);
  }

  /** The search of neighbour number i carries the search of them all on, or decides it. */
  lemma NextNeighbour(graph: Adjacency, path: seq<Uuid>, first: seq<Uuid>, ids: seq<Uuid>, i: nat,
                      seen: seq<Meeting>, finished: seq<Uuid>)
    requires SearchedTo(graph, path, first, ids, i, seen, finished) && i < |ids|
    ensures var next := Search(graph, path, finished, ids[i]);
            if next.Clean? then SearchedTo(graph, path, first, ids, i + 1, seen + next.met, next.finished)
            else SearchAll(graph, path, first, ids) == next
  {
    assert ids[i..][1..] == ids[i + 1..];
    var next := Search(graph, path, finished, ids[i]);
    if next.Clean? && SearchAll(graph, path, next.finished, ids[i + 1..]).Clean? {
      var more := SearchAll(graph, path, next.finished, ids[i + 1..]).met;
      assert seen + (next.met + more) == seen + next.met + more;
    }
  }

  lemma StepAlongEdge(graph: Adjacency, stack: seq<Uuid>, y: Uuid)
    requires IsPath(EdgesOf(graph), stack) && y in Neighbours(graph, stack[|stack| - 1])
    ensures IsPath(EdgesOf(graph), stack + [y]) && (stack + [y])[0] == stack[0]
  {
  }

  /** Meeting a node of the search path again closes a cycle. */
  lemma BackEdge(edges: Edges, stack: seq<Uuid>, id: Uuid)
    requires IsPath(edges, stack + [id]) && id in stack
    ensures CycleFrom(edges, stack[0])
  {
    var whole := stack + [id];
    var k :| 0 <= k < |stack| && stack[k] == id;
    assert IsCycle(edges, whole[k..]);
    assert PathBetween(edges, whole[..k + 1], stack[0], id);
  }

  lemma EnterNode(edges: Edges, state: map<Uuid, Mark>, stack: seq<Uuid>, finished: seq<Uuid>, id: Uuid)
    requires Consistent(edges, state, stack, finished) && id !in state
    ensures Consistent(edges, state[id := Visiting], stack + [id], finished)
  {
    assert id !in stack && id !in finished;
  }

  lemma FinishNode(graph: Adjacency, state: map<Uuid, Mark>, stack: seq<Uuid>, finished: seq<Uuid>, id: Uuid)
    requires Consistent(EdgesOf(graph), state, stack + [id], finished)
    requires forall y :: y in Neighbours(graph, id) ==> y in finished
    ensures Consistent(EdgesOf(graph), state[id := Finished], stack, finished + [id])
  {
    var path, order := stack + [id], finished + [id];
    assert path[|stack|] == id;
    forall i | 0 <= i < |stack| ensures path[i] == stack[i] && stack[i] != id {
      assert path[i] != path[|stack|];
    }
    assert forall x :: x in path <==> x in stack || x == id;
    assert id in path && id !in finished;
    assert forall x :: x in order <==> x in finished || x == id;
    forall i, y | 0 <= i < |order| && (order[i], y) in EdgesOf(graph) ensures y in order[..i] {
      if i < |finished| {
        assert order[..i] == finished[..i];
      } else {
        assert order[..i] == finished;
      }
    }
  }

  /** The finished nodes contain everything reachable from any of them, and no cycle. */
  lemma FinishedCoversReachable(edges: Edges, order: seq<Uuid>, x: Uuid, y: Uuid)
    requires ClosedOrder(edges, order) && x in order && Reaches(edges, x, y)
    ensures y in order && forall p :: IsCycle(edges, p) ==> y !in p
  {
    var q :| PathBetween(edges, q, x, y);
    var i :| 0 <= i < |order| && order[i] == q[0];
    PathDescends(edges, order, q, i);
    forall p | IsCycle(edges, p) ensures y !in p {
      if y in p {
        var k :| 0 <= k < |p| && p[k] == y;
        var r := RotateCycle(edges, p, k);
        ClosedOrderHasNoCycle(edges, order, r);
      }
    }
  }

  // ---------------------------------------------------------------- the catalogue

  /** The configuration of a tag, as parsed; only calculated tags depend on others. */
  datatype TagInput =
    | ReadingInput
    | ConstantInput
    | CalculatedInput(references: seq<Uuid>, trigger: Uuid)
  {
    predicate DependsOn(x: Uuid) {
      CalculatedInput? && (x in references || x == trigger)
    }

    predicate SameKind(other: TagInput) {
      && (ReadingInput? <==> other.ReadingInput?)
      && (ConstantInput? <==> other.ConstantInput?)
    }

    /** The references of the expression, followed by the trigger when it is not among them. */
    function Dependencies(): seq<Uuid> {
      if !CalculatedInput? then []
      else if trigger in references then references
      else references + [trigger]
    }

    function Entry(): TagEntry {
      TagEntry(this, Dependencies())
    }
  }

  /** The dependencies are what the configuration names: the references, in their order, and
      the trigger, each once. */
  lemma DependenciesAreNamed(input: TagInput)
    ensures forall x :: x in input.Dependencies() <==>
              input.CalculatedInput? && (x in input.references || x == input.trigger)
    ensures input.CalculatedInput? && Distinct(input.references) ==>
              input.references <= input.Dependencies() && Distinct(input.Dependencies())
  {
  }

  /** A stored tag: its configuration, and its rows of the dependency table. */
  datatype TagEntry = TagEntry(config: TagInput, dependencies: seq<Uuid>)

  type Catalogue = map<Uuid, TagEntry>

  /** Stored dependencies are listed by identifier. */
  function Listed(dependencies: seq<Uuid>): (r: seq<Uuid>)
    ensures forall y :: y in r <==> y in dependencies
  {
    InOrderKeepsElements(dependencies);
    var sorted := InOrder(dependencies);
    assert forall i :: 0 <= i < |sorted| ==> sorted[i] in sorted;
    assert forall x :: x in sorted ==> x in dependencies && x >= 0;
    sorted
  }

  /** The adjacency searched for an edit of id: stored edges, with those of id replaced. */
  function EditedGraph(catalogue: Catalogue, id: Uuid, dependencies: seq<Uuid>): Adjacency {
    (map x | x in catalogue && x != id :: Listed(catalogue[x].dependencies))[id := dependencies]
  }

  function CatalogueEdges(catalogue: Catalogue): Edges {
    EdgesOf(map x | x in catalogue :: catalogue[x].dependencies)
  }

  /** Dependencies exist and form no cycle. */
  ghost predicate Sound(catalogue: Catalogue) {
    && Acyclic(CatalogueEdges(catalogue))
    && forall x, y :: x in catalogue && y in catalogue[x].dependencies ==> y in catalogue
  }

  /** The validation of an edit: its dependencies are stored, and the search is clean. */
  predicate Validates(catalogue: Catalogue, id: Uuid, dependencies: seq<Uuid>) {
    DependenciesStored(catalogue, id, dependencies) && EditSearch(catalogue, id, dependencies).Clean?
  }

  predicate DependenciesStored(catalogue: Catalogue, id: Uuid, dependencies: seq<Uuid>) {
    forall d :: d in dependencies ==> d != id && d in catalogue
  }

  function EditSearch(catalogue: Catalogue, id: Uuid, dependencies: seq<Uuid>): Result {
    Search(EditedGraph(catalogue, id, dependencies), [], [], id)
  }

  /** What the validation promises of an accepted edit. */
  ghost predicate Acceptable(catalogue: Catalogue, id: Uuid, dependencies: seq<Uuid>) {
    && id !in dependencies
    && (forall d :: d in dependencies ==> d in catalogue)
    && !CycleFrom(EdgesOf(EditedGraph(catalogue, id, dependencies)), id)
  }

  lemma NoCycleFromFinished(edges: Edges, order: seq<Uuid>, id: Uuid)
    requires ClosedOrder(edges, order) && id in order
    ensures !CycleFrom(edges, id)
  {
    forall p | IsCycle(edges, p) ensures !Reaches(edges, id, p[0]) {
      if Reaches(edges, id, p[0]) {
        FinishedCoversReachable(edges, order, id, p[0]);
      }
    }
  }

  lemma CleanSearchFindsNoCycle(graph: Adjacency, id: Uuid)
    requires Search(graph, [], [], id).Clean?
    ensures !CycleFrom(EdgesOf(graph), id)
  {
    SearchedAreClosed(graph, [], [], id);
    NoCycleFromFinished(EdgesOf(graph), Search(graph, [], [], id).finished, id);
  }

  /** An edit that validates closes no cycle, and brings every tag it reaches near. */
  lemma CleanEditIsAcceptable(catalogue: Catalogue, id: Uuid, dependencies: seq<Uuid>)
    requires Validates(catalogue, id, dependencies)
    ensures Acceptable(catalogue, id, dependencies)
    ensures var edges := EdgesOf(EditedGraph(catalogue, id, dependencies));
            forall y :: Reaches(edges, id, y) ==> ReachesWithin(edges, id, y, MAX_TAG_DEPENDENCY_DEPTH)
  {
    CleanSearchFindsNoCycle(EditedGraph(catalogue, id, dependencies), id);
    DepthIsBoundedIff(EditedGraph(catalogue, id, dependencies), id);
  }

  lemma SelfDependencyIsCycle(catalogue: Catalogue, id: Uuid, dependencies: seq<Uuid>)
    requires id in dependencies
    ensures CycleFrom(EdgesOf(EditedGraph(catalogue, id, dependencies)), id)
  {
    var edges := EdgesOf(EditedGraph(catalogue, id, dependencies));
    assert IsCycle(edges, [id, id]);
    ReachesSelf(edges, id);
  }

  lemma EditedGraphMatches(catalogue: Catalogue, id: Uuid, entry: TagEntry)
    ensures CatalogueEdges(catalogue[id := entry])
         == EdgesOf(EditedGraph(catalogue, id, entry.dependencies))
  {
    var updated := catalogue[id := entry];
    var graph := map x | x in updated :: updated[x].dependencies;
    var edited := EditedGraph(catalogue, id, entry.dependencies);
    assert graph.Keys == edited.Keys;
    assert forall x, y :: x in graph ==> (y in graph[x] <==> y in edited[x]);
  }

  /** A cycle that does not pass the edited tag was there before. */
  lemma OldCycle(catalogue: Catalogue, id: Uuid, entry: TagEntry, p: seq<Uuid>)
    requires IsCycle(CatalogueEdges(catalogue[id := entry]), p)
    ensures id in p || IsCycle(CatalogueEdges(catalogue), p)
  {
    var edges := CatalogueEdges(catalogue[id := entry]);
    if id !in p {
      forall i | 0 <= i < |p| - 1 ensures (p[i], p[i + 1]) in CatalogueEdges(catalogue) {
        assert (p[i], p[i + 1]) in edges && p[i] in p;
      }
    }
  }

  /** An edit of an acyclic catalogue creates a cycle exactly when one can be reached
      from the edited tag: any new cycle passes through it. */
  lemma NewCyclePassesThroughEdited(catalogue: Catalogue, id: Uuid, entry: TagEntry)
    requires Acyclic(CatalogueEdges(catalogue))
    ensures Acyclic(CatalogueEdges(catalogue[id := entry]))
       <==> !CycleFrom(EdgesOf(EditedGraph(catalogue, id, entry.dependencies)), id)
    ensures forall p :: IsCycle(CatalogueEdges(catalogue[id := entry]), p) ==> id in p
  {
    var edges := CatalogueEdges(catalogue[id := entry]);
    EditedGraphMatches(catalogue, id, entry);
    forall p | IsCycle(edges, p) ensures id in p && CycleFrom(edges, id) {
      OldCycle(catalogue, id, entry, p);
      var k :| 0 <= k < |p| && p[k] == id;
      var q := RotateCycle(edges, p, k);
      ReachesSelf(edges, id);
    }
  }

  /** An edit that leaves the catalogue sound gives the search nothing to find but depth. */
  lemma SoundEditPassesSearch(catalogue: Catalogue, id: Uuid, entry: TagEntry)
    requires Sound(catalogue) && Sound(catalogue[id := entry])
    ensures forall d :: d in entry.dependencies ==> d == id || d in catalogue
    ensures !CycleFrom(EdgesOf(EditedGraph(catalogue, id, entry.dependencies)), id)
    ensures CatalogueEdges(catalogue[id := entry])
         == EdgesOf(EditedGraph(catalogue, id, entry.dependencies))
  {
    var updated := catalogue[id := entry];
    NewCyclePassesThroughEdited(catalogue, id, entry);
    EditedGraphMatches(catalogue, id, entry);
    forall d | d in entry.dependencies ensures d == id || d in catalogue {
      assert id in updated && d in updated[id].dependencies;
      assert d in updated;
    }
  }

  lemma SoundEditHasNoSelf(catalogue: Catalogue, id: Uuid, entry: TagEntry)
    requires Sound(catalogue[id := entry])
    ensures id !in entry.dependencies
  {
    assert id in entry.dependencies ==> IsCycle(CatalogueEdges(catalogue[id := entry]), [id, id]);
  }

  lemma AcceptedEditStaysSound(catalogue: Catalogue, id: Uuid, entry: TagEntry)
    requires Sound(catalogue) && Acceptable(catalogue, id, entry.dependencies)
    ensures Sound(catalogue[id := entry])
  {
    NewCyclePassesThroughEdited(catalogue, id, entry);
  }

  /** Removal of a tag; its dependency rows, in both directions, go with it. */
  function Without(catalogue: Catalogue, id: Uuid): Catalogue {
    map x | x in catalogue && x != id ::
      TagEntry(catalogue[x].config, Drop(catalogue[x].dependencies, id))
  }

  function Drop(s: seq<Uuid>, id: Uuid): (r: seq<Uuid>)
    ensures forall x :: x in r <==> x in s && x != id
  {
    if s == [] then [] else (if s[0] == id then [] else [s[0]]) + Drop(s[1..], id)
  }

  lemma DeleteStaysSound(catalogue: Catalogue, id: Uuid)
    requires Sound(catalogue)
    ensures Sound(Without(catalogue, id))
  {
    SubgraphAcyclic(CatalogueEdges(Without(catalogue, id)), CatalogueEdges(catalogue));
  }

  /** The stored tags, and the identifiers given out so far: a deleted tag's is not used again. */
  datatype Stored = Stored(catalogue: Catalogue, used: set<Uuid>)

  /** An accepted creation takes a new identifier; an accepted update keeps the kind. */
  ghost predicate Edits(before: Stored, after: Stored, id: Uuid, input: TagInput) {
    && (if id in before.catalogue then input.SameKind(before.catalogue[id].config) else id !in before.used)
    && Acceptable(before.catalogue, id, input.Dependencies())
    && after == Stored(before.catalogue[id := input.Entry()], before.used + {id})
  }

  ghost predicate Deletes(before: Stored, after: Stored, id: Uuid) {
    id in before.catalogue && after == before.(catalogue := Without(before.catalogue, id))
  }

  /** One service operation: refused, an accepted create or update, or a delete. */
  ghost predicate Step(before: Stored, after: Stored) {
    || after == before
    || (exists id, input: TagInput :: Edits(before, after, id, input))
    || (exists id :: Deletes(before, after, id))
  }

  /** What a stored tag's configuration names has been stored at some time, and is among its
      dependency rows for as long as it is stored. */
  ghost predicate EntryRecorded(s: Stored, id: Uuid)
    requires id in s.catalogue
  {
    forall x :: s.catalogue[id].config.DependsOn(x) ==>
      x in s.used && (x in s.catalogue ==> x in s.catalogue[id].dependencies)
  }

  ghost predicate Recorded(s: Stored) {
    s.catalogue.Keys <= s.used && forall id :: id in s.catalogue ==> EntryRecorded(s, id)
  }

  lemma EditStaysRecorded(s: Stored, t: Stored, id: Uuid, input: TagInput)
    requires Recorded(s) && Edits(s, t, id, input)
    ensures Recorded(t)
  {
    DependenciesAreNamed(input);
    forall y | y in t.catalogue ensures EntryRecorded(t, y) {
      assert y != id ==> EntryRecorded(s, y);
    }
  }

  lemma DeleteStaysRecorded(s: Stored, t: Stored, id: Uuid)
    requires Recorded(s) && Deletes(s, t, id)
    ensures Recorded(t)
  {
    forall y | y in t.catalogue ensures EntryRecorded(t, y) {
      assert EntryRecorded(s, y);
    }
  }

  ghost predicate Kept(s: Stored) {
    Sound(s.catalogue) && Recorded(s)
  }

  lemma NothingIsKept()
    ensures Kept(Stored(map[], {}))
  {
    var edges := CatalogueEdges(map[]);
    forall p ensures !IsCycle(edges, p) {
      assert |p| >= 2 ==> (p[0], p[1]) !in edges;
    }
  }

  lemma StepStaysSound(before: Stored, after: Stored)
    requires Kept(before) && Step(before, after)
    ensures Kept(after)
  {
    if id, input: TagInput :| Edits(before, after, id, input) {
      AcceptedEditStaysSound(before.catalogue, id, input.Entry());
      EditStaysRecorded(before, after, id, input);
    } else if id :| Deletes(before, after, id) {
      DeleteStaysSound(before.catalogue, id);
      DeleteStaysRecorded(before, after, id);
    }
  }

  /** Over every run of service operations, the stored dependency relation stays acyclic
      and complete, and every configuration is recorded in it. */
  lemma RunStaysSound(run: seq<Stored>, n: nat)
    requires Run(run, Step) && n < |run| && Kept(run[0])
    ensures Sound(run[n].catalogue) && Recorded(run[n])
  {
    forall before, after | Kept(before) && Step(before, after) ensures Kept(after) {
      StepStaysSound(before, after);
    }
    Preserved(run, Step, Kept, n);
  }

  /** Something the configuration names leads back to the tag in the stored relation. */
  ghost predicate LeadsBack(catalogue: Catalogue, id: Uuid, input: TagInput) {
    input.CalculatedInput? &&
    exists x :: (x in input.references || x == input.trigger) && Reaches(CatalogueEdges(catalogue), x, id)
  }

  /** A path up to the edited tag survives the edit of that tag. */
  lemma {:induction false} PathSurvivesEdit(edges: Edges, edited: Edges, p: seq<Uuid>, id: Uuid)
    requires IsPath(edges, p) && p[|p| - 1] == id
    requires forall x, y :: x != id && (x, y) in edges ==> (x, y) in edited
    ensures Reaches(edited, p[0], id)
    decreases |p|
  {
    if p[0] == id {
      ReachesSelf(edited, id);
    } else {
      PathSurvivesEdit(edges, edited, p[1..], id);
      assert (p[0], p[1]) in edges;
      var q :| PathBetween(edited, q, p[1], id);
      assert PathBetween(edited, [p[0]] + q, p[0], id);
    }
  }

  /** An edit that names something leading back to the tag closes a cycle. */
  lemma LeadingBackIsCycle(catalogue: Catalogue, id: Uuid, input: TagInput)
    requires LeadsBack(catalogue, id, input)
    ensures CycleFrom(EdgesOf(EditedGraph(catalogue, id, input.Dependencies())), id)
  {
    var x :| (x in input.references || x == input.trigger) && Reaches(CatalogueEdges(catalogue), x, id);
    DependenciesAreNamed(input);
    EditedGraphMatches(catalogue, id, input.Entry());
    var edited := CatalogueEdges(catalogue[id := input.Entry()]);
    var p :| PathBetween(CatalogueEdges(catalogue), p, x, id);
    PathSurvivesEdit(CatalogueEdges(catalogue), edited, p, id);
    var q :| PathBetween(edited, q, x, id);
    assert (id, x) in edited;
    assert IsCycle(edited, [id] + q);
    ReachesSelf(edited, id);
  }

  // ---------------------------------------------------------------- the service

  datatype Verdict =
    | Accepted
    | NotFound
    | TriggerInvalid
    | DependencyMissing
    | Circular
    | TooDeep

  /** The trigger is another stored tag, and not a constant. */
  predicate TriggerSuits(catalogue: Catalogue, id: Uuid, input: TagInput) {
    input.CalculatedInput? ==>
      && input.trigger !in {NIL, id} && input.trigger in catalogue
      && !catalogue[input.trigger].config.ConstantInput?
  }

  /** What makes the service accept a configuration for a tag. */
  predicate Admissible(catalogue: Catalogue, id: Uuid, input: TagInput) {
    TriggerSuits(catalogue, id, input) && Validates(catalogue, id, input.Dependencies())
  }

  lemma LeadingBackIsRefused(catalogue: Catalogue, id: Uuid, input: TagInput)
    ensures LeadsBack(catalogue, id, input) ==> !Acceptable(catalogue, id, input.Dependencies())
  {
    if LeadsBack(catalogue, id, input) {
      LeadingBackIsCycle(catalogue, id, input);
    }
  }

  class TagService {
    var catalogue: Catalogue
    ghost var used: set<Uuid>

    ghost function State(): Stored
      reads this
    {
      Stored(catalogue, used)
    }

    constructor ()
      ensures State() == Stored(map[], {})
    {
      catalogue := map[];
      used := {};
    }

    /** Stored dependencies are left alone; only the verdict is computed. */
    method ValidateDependencyGraph(id: Uuid, dependencies: seq<Uuid>) returns (verdict: Verdict)
      ensures verdict in {Accepted, DependencyMissing, Circular, TooDeep}
      ensures verdict == Accepted ==> Acceptable(catalogue, id, dependencies)
      ensures verdict == DependencyMissing ==>
                exists d :: d in dependencies && d != id && d !in catalogue
      ensures verdict == Circular ==> CycleFrom(EdgesOf(EditedGraph(catalogue, id, dependencies)), id)
      ensures verdict == TooDeep ==> DeepFrom(EdgesOf(EditedGraph(catalogue, id, dependencies)), id)
      ensures verdict == Accepted <==> Validates(catalogue, id, dependencies)
      ensures verdict == TooDeep <==>
                DependenciesStored(catalogue, id, dependencies) && EditSearch(catalogue, id, dependencies).Deep?
      ensures verdict == Accepted ==>
                var edges := EdgesOf(EditedGraph(catalogue, id, dependencies));
                forall y :: Reaches(edges, id, y) ==> ReachesWithin(edges, id, y, 128)
    {
      if |dependencies| == 0 {
        assert EditSearch(catalogue, id, dependencies) == Clean([id], []);
        CleanEditIsAcceptable(catalogue, id, dependencies);
        return Accepted;
      }
      for i := 0 to |dependencies|
        invariant forall k :: 0 <= k < i ==> dependencies[k] != id && dependencies[k] in catalogue
      {
        if dependencies[i] == id {
          SelfDependencyIsCycle(catalogue, id, dependencies);
          return Circular;
        }
        if dependencies[i] !in catalogue {
          return DependencyMissing;
        }
      }
      var circular, tooDeep := SearchEdit(EditedGraph(catalogue, id, dependencies), id);
      if tooDeep {
        return TooDeep;
      }
      if circular {
        return Circular;
      }
      CleanEditIsAcceptable(catalogue, id, dependencies);
      return Accepted;
    }

    /** The search with no tag visited yet. */
    method SearchEdit(graph: Adjacency, id: Uuid) returns (circular: bool, tooDeep: bool)
      ensures circular == Search(graph, [], [], id).Cyclic? && tooDeep == Search(graph, [], [], id).Deep?
      ensures circular ==> CycleFrom(EdgesOf(graph), id)
      ensures tooDeep ==> DeepFrom(EdgesOf(graph), id)
    {
      var search := new CycleSearch(graph);
      assert search.stack + [id] == [id];
      circular, tooDeep := search.Visit(id, 0);
    }

    method ValidateTrigger(id: Uuid, input: TagInput) returns (verdict: Verdict)
      ensures verdict in {Accepted, TriggerInvalid, DependencyMissing}
      ensures verdict == Accepted && input.CalculatedInput? ==>
                input.trigger != id && input.trigger in catalogue
                && !catalogue[input.trigger].config.ConstantInput?
      ensures verdict == TriggerInvalid ==>
                && input.CalculatedInput?
                && (|| input.trigger in {NIL, id}
                    || (input.trigger in catalogue && catalogue[input.trigger].config.ConstantInput?))
      ensures verdict == DependencyMissing ==>
                input.CalculatedInput? && input.trigger != id && input.trigger !in catalogue
      ensures verdict == Accepted <==> TriggerSuits(catalogue, id, input)
    {
      if !input.CalculatedInput? {
        return Accepted;
      }
      if input.trigger == NIL || input.trigger == id {
        return TriggerInvalid;
      }
      if input.trigger !in catalogue {
        return DependencyMissing;
      }
      if catalogue[input.trigger].config.ConstantInput? {
        return TriggerInvalid;
      }
      return Accepted;
    }

    /** Creation under a freshly generated identifier. */
    method Create(id: Uuid, input: TagInput) returns (verdict: Verdict)
      requires id !in catalogue && id !in used
      modifies this
      ensures catalogue == if verdict == Accepted then old(catalogue)[id := input.Entry()] else old(catalogue)
      ensures Step(old(State()), State())
      ensures Sound(old(catalogue)) ==> Sound(catalogue)
      ensures verdict == Accepted <==> Admissible(old(catalogue), id, input)
      // What an accepted configuration names, and only that, is stored as its dependencies.
      ensures verdict == Accepted ==>
                && catalogue[id].config == input
                && forall x :: x in catalogue[id].dependencies <==>
                     input.CalculatedInput? && (x in input.references || x == input.trigger)
      ensures LeadsBack(old(catalogue), id, input) ==> verdict != Accepted
      ensures verdict == DependencyMissing ==>
                && input.CalculatedInput?
                && exists x :: (x in input.references || x == input.trigger) && x != id && x !in old(catalogue)
      ensures verdict == TriggerInvalid ==>
                && input.CalculatedInput?
                && (|| input.trigger in {NIL, id}
                    || (input.trigger in old(catalogue) && old(catalogue)[input.trigger].config.ConstantInput?))
      // A sound creation is refused only for its trigger or for a path that is too deep.
      ensures Sound(old(catalogue)) && Sound(old(catalogue)[id := input.Entry()]) ==>
                verdict in {Accepted, TriggerInvalid}
                || DeepFrom(CatalogueEdges(old(catalogue)[id := input.Entry()]), id)
    {
      if Sound(catalogue) && Sound(catalogue[id := input.Entry()]) {
        SoundEditPassesSearch(catalogue, id, input.Entry());
        SoundEditHasNoSelf(catalogue, id, input.Entry());
      }
      DependenciesAreNamed(input);
      verdict := ValidateTrigger(id, input);
      if verdict != Accepted {
        return;
      }
      verdict := ValidateDependencyGraph(id, input.Dependencies());
      if verdict != Accepted {
        return;
      }
      assert Acceptable(catalogue, id, input.Entry().dependencies);
      if Sound(catalogue) {
        AcceptedEditStaysSound(catalogue, id, input.Entry());
      }
      LeadingBackIsRefused(catalogue, id, input);
      assert Edits(State(), Stored(catalogue[id := input.Entry()], used + {id}), id, input);
      catalogue := catalogue[id := input.Entry()];
      used := used + {id};
    }

    /** Replacement of a tag's configuration; its kind never changes. */
    method Update(id: Uuid, input: TagInput) returns (verdict: Verdict)
      requires id in catalogue ==> input.SameKind(catalogue[id].config)
      modifies this
      ensures verdict == NotFound <==> id !in old(catalogue)
      ensures verdict == Accepted ==>
                && (input.CalculatedInput? <==> old(catalogue)[id].config.CalculatedInput?)
                && (input.ConstantInput? <==> old(catalogue)[id].config.ConstantInput?)
      ensures catalogue == if verdict == Accepted then old(catalogue)[id := input.Entry()] else old(catalogue)
      ensures Step(old(State()), State())
      ensures Sound(old(catalogue)) ==> Sound(catalogue)
      // A sound edit is refused only for its trigger or for a path that is too deep.
      ensures Sound(old(catalogue)) && Sound(old(catalogue)[id := input.Entry()]) ==>
                verdict in {Accepted, NotFound, TriggerInvalid}
                || DeepFrom(CatalogueEdges(old(catalogue)[id := input.Entry()]), id)
      ensures verdict == Accepted <==> id in old(catalogue) && Admissible(old(catalogue), id, input)
      // What an accepted configuration names, and only that, is stored as its dependencies.
      ensures verdict == Accepted ==>
                && catalogue[id].config == input
                && forall x :: x in catalogue[id].dependencies <==>
                     input.CalculatedInput? && (x in input.references || x == input.trigger)
      ensures LeadsBack(old(catalogue), id, input) ==> verdict != Accepted
      ensures verdict == DependencyMissing ==>
                && input.CalculatedInput?
                && exists x :: (x in input.references || x == input.trigger) && x != id && x !in old(catalogue)
      ensures verdict == TriggerInvalid ==>
                && input.CalculatedInput?
                && (|| input.trigger in {NIL, id}
                    || (input.trigger in old(catalogue) && old(catalogue)[input.trigger].config.ConstantInput?))
    {
      if id !in catalogue {
        return NotFound;
      }
      if Sound(catalogue) && Sound(catalogue[id := input.Entry()]) {
        SoundEditPassesSearch(catalogue, id, input.Entry());
      }
      DependenciesAreNamed(input);
      verdict := ValidateTrigger(id, input);
      if verdict != Accepted {
        return;
      }
      verdict := ValidateDependencyGraph(id, input.Dependencies());
      if verdict != Accepted {
        return;
      }
      assert Acceptable(catalogue, id, input.Entry().dependencies);
      if Sound(catalogue) {
        AcceptedEditStaysSound(catalogue, id, input.Entry());
      }
      LeadingBackIsRefused(catalogue, id, input);
      assert Edits(State(), Stored(catalogue[id := input.Entry()], used + {id}), id, input);
      catalogue := catalogue[id := input.Entry()];
      used := used + {id};
    }

    method Delete(id: Uuid) returns (verdict: Verdict)
      modifies this
      ensures verdict == if id in old(catalogue) then Accepted else NotFound
      ensures catalogue == if verdict == Accepted then Without(old(catalogue), id) else old(catalogue)
      ensures Step(old(State()), State())
      ensures Sound(old(catalogue)) ==> Sound(catalogue)
    {
      if id !in catalogue {
        return NotFound;
      }
      if Sound(catalogue) {
        DeleteStaysSound(catalogue, id);
      }
      assert Deletes(State(), Stored(Without(catalogue, id), used), id);
      catalogue := Without(catalogue, id);
      return Accepted;
    }
  }
}
