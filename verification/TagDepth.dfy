/** What the depth limit of the dependency search means for the stored relation: the exact
    condition under which it bounds every path, and accepted tags whose paths it does not. */
module TagDepth {
  import opened Identifiers
  import opened Digraph
  import opened Ordering
  import opened DependencySearch
  import opened TagGraph

  /** After an accepted edit, no path from the edited tag exceeds the limit exactly when, at
      every meeting of a finished tag, depth and height stay within it together. */
  lemma AcceptedDepthIff(catalogue: Catalogue, id: Uuid, entry: TagEntry)
    requires Validates(catalogue, id, entry.dependencies)
    ensures var graph := EditedGraph(catalogue, id, entry.dependencies);
            var result := EditSearch(catalogue, id, entry.dependencies);
            !PathLongerThan(CatalogueEdges(catalogue[id := entry]), id, MAX_TAG_DEPENDENCY_DEPTH) <==>
              MeetingsFit(graph, result.finished, result.met)
  {
    EditedGraphMatches(catalogue, id, entry);
    DepthIsBoundedIff(EditedGraph(catalogue, id, entry.dependencies), id);
  }

  /** In particular it does so where no tag has two dependents that the edited one reaches. */
  lemma TreesAreBounded(catalogue: Catalogue, id: Uuid, entry: TagEntry)
    requires Validates(catalogue, id, entry.dependencies)
    requires OneDependent(CatalogueEdges(catalogue[id := entry]), id)
    ensures !PathLongerThan(CatalogueEdges(catalogue[id := entry]), id, MAX_TAG_DEPENDENCY_DEPTH)
  {
    EditedGraphMatches(catalogue, id, entry);
    OneDependentBoundsDepth(EditedGraph(catalogue, id, entry.dependencies), id);
  }

  // ---------------------------------------------------------------- a ladder of tags

  /** Tag 1 is a reading; every other depends on the one before it, and those after the
      m-th also on the m-th. */
  function LadderInput(m: nat, i: nat): TagInput
    requires i > 0
  {
    if i == 1 then ReadingInput
    else if i <= m + 1 then CalculatedInput([i - 1], i - 1)
    else CalculatedInput([m, i - 1], i - 1)
  }

  /** The catalogue once tags 1 to n have been created. */
  function Ladder(m: nat, n: nat): (catalogue: Catalogue)
    ensures forall i :: i in catalogue <==> 1 <= i <= n
    ensures forall i :: i in catalogue ==> catalogue[i] == LadderInput(m, i).Entry()
  {
    if n == 0 then map[] else Ladder(m, n - 1)[n := LadderInput(m, n).Entry()]
  }

  ghost predicate IsLadder(graph: Adjacency, m: nat, n: nat) {
    forall i :: 1 <= i <= n ==> Neighbours(graph, i) == Rung(m, i)
  }

  function Upto(n: nat): (s: seq<Uuid>)
    ensures |s| == n && forall x :: x in s <==> 1 <= x <= n
  {
    if n == 0 then [] else Upto(n - 1) + [n]
  }

  /** The dependencies of a ladder's tag. */
  function Rung(m: nat, i: nat): seq<Uuid>
    requires i > 0
  {
    if i == 1 then [] else if i <= m + 1 then [i - 1] else [m, i - 1]
  }

  lemma RungIsListed(m: nat, i: nat)
    requires m > 0 && i > 0
    ensures LadderInput(m, i).Dependencies() == Rung(m, i)
    ensures Listed(Rung(m, i)) == Rung(m, i)
    ensures forall d :: d in Rung(m, i) ==> 1 <= d < i
    ensures i > 1 ==> i - 1 in Rung(m, i)
  {
    assert i > m + 1 ==> [m, i - 1][1] == i - 1;
    IncreasingIsInOrder(Rung(m, i));
  }

  lemma EditedLadder(m: nat, n: nat)
    requires m > 0 && n > 0
    ensures IsLadder(EditedGraph(Ladder(m, n - 1), n, Rung(m, n)), m, n)
  {
    var catalogue, graph := Ladder(m, n - 1), EditedGraph(Ladder(m, n - 1), n, Rung(m, n));
    forall i | 1 <= i <= n ensures Neighbours(graph, i) == Rung(m, i) {
      RungIsListed(m, i);
      assert i < n ==> catalogue[i].dependencies == LadderInput(m, i).Dependencies();
    }
  }

  lemma OneNeighbour(graph: Adjacency, path: seq<Uuid>, finished: seq<Uuid>, x: Uuid)
    requires |path| <= MAX_TAG_DEPENDENCY_DEPTH + 1 && Search(graph, path, finished, x).Clean?
    ensures SearchAll(graph, path, finished, [x]) == Search(graph, path, finished, x)
  {
    var first := Search(graph, path, finished, x);
    assert SearchAll(graph, path, first.finished, [x][1..]) == Clean(first.finished, []);
    assert first.met + [] == first.met;
  }

  lemma TwoNeighbours(graph: Adjacency, path: seq<Uuid>, finished: seq<Uuid>, x: Uuid, y: Uuid)
    requires |path| <= MAX_TAG_DEPENDENCY_DEPTH + 1 && Search(graph, path, finished, x).Clean?
    requires Search(graph, path, Search(graph, path, finished, x).finished, y).Clean?
    ensures var first := Search(graph, path, finished, x);
            var second := Search(graph, path, first.finished, y);
            SearchAll(graph, path, finished, [x, y]) == Clean(second.finished, first.met + second.met)
  {
    assert [x, y][1..] == [y];
    OneNeighbour(graph, path, Search(graph, path, finished, x).finished, y);
  }

  /** The lower part is a chain. */
  lemma {:induction false} ChainSearch(graph: Adjacency, m: nat, n: nat, path: seq<Uuid>, i: nat)
    requires IsLadder(graph, m, n) && 1 <= i <= m && i <= n
    requires (forall x :: x in path ==> x > i) && |path| + i <= MAX_TAG_DEPENDENCY_DEPTH + 1
    ensures Search(graph, path, [], i) == Clean(Upto(i), [])
    decreases i
  {
    if i == 1 {
      assert SearchAll(graph, path + [1], [], []) == Clean([], []);
    } else {
      ChainSearch(graph, m, n, path + [i], i - 1);
      OneNeighbour(graph, path + [i], [], i - 1);
    }
  }

  /** Above it, the m-th tag has been finished before, so each tag is entered one level
      below the next. */
  lemma {:induction false} UpperSearch(graph: Adjacency, m: nat, n: nat, path: seq<Uuid>, i: nat)
    requires IsLadder(graph, m, n) && 1 <= m < i <= n
    requires (forall x :: x in path ==> x > i) && |path| + i - m <= MAX_TAG_DEPENDENCY_DEPTH + 1
    ensures Search(graph, path, Upto(m), i).Clean? && Search(graph, path, Upto(m), i).finished == Upto(i)
    decreases i
  {
    var down := path + [i];
    assert Search(graph, down, Upto(m), m) == Clean(Upto(m), [Meeting(m, |down|)]);
    if i == m + 1 {
      OneNeighbour(graph, down, Upto(m), m);
    } else {
      UpperSearch(graph, m, n, down, i - 1);
      TwoNeighbours(graph, down, Upto(m), m, i - 1);
    }
  }

  lemma TopSearch(graph: Adjacency, m: nat, n: nat)
    requires IsLadder(graph, m, n) && 1 <= m <= MAX_TAG_DEPENDENCY_DEPTH && 1 <= n <= m + MAX_TAG_DEPENDENCY_DEPTH + 1
    ensures Search(graph, [], [], n).Clean?
  {
    if n <= m {
      ChainSearch(graph, m, n, [], n);
    } else {
      assert [] + [n] == [n];
      ChainSearch(graph, m, n, [n], m);
      if n == m + 1 {
        OneNeighbour(graph, [n], [], m);
      } else {
        UpperSearch(graph, m, n, [n], n - 1);
        TwoNeighbours(graph, [n], [], m, n - 1);
      }
    }
  }

  lemma CreationIsAdmissible(m: nat, n: nat)
    requires 1 <= m <= MAX_TAG_DEPENDENCY_DEPTH && 1 <= n <= m + MAX_TAG_DEPENDENCY_DEPTH + 1
    ensures Admissible(Ladder(m, n - 1), n, LadderInput(m, n))
  {
    LadderValidates(m, n);
    RungIsListed(m, n);
  }

  lemma LadderValidates(m: nat, n: nat)
    requires 1 <= m <= MAX_TAG_DEPENDENCY_DEPTH && 1 <= n <= m + MAX_TAG_DEPENDENCY_DEPTH + 1
    ensures Validates(Ladder(m, n - 1), n, Rung(m, n))
  {
    RungIsStored(m, n, Ladder(m, n - 1), Rung(m, n));
    LadderSearchIsClean(m, n, EditedGraph(Ladder(m, n - 1), n, Rung(m, n)));
    CleanValidates(Ladder(m, n - 1), n, Rung(m, n));
  }

  lemma RungIsStored(m: nat, n: nat, catalogue: Catalogue, dependencies: seq<Uuid>)
    requires m > 0 && n > 0 && catalogue == Ladder(m, n - 1) && dependencies == Rung(m, n)
    ensures DependenciesStored(catalogue, n, dependencies)
  {
    RungIsListed(m, n);
  }

  lemma CleanValidates(catalogue: Catalogue, id: Uuid, dependencies: seq<Uuid>)
    requires DependenciesStored(catalogue, id, dependencies)
    requires Search(EditedGraph(catalogue, id, dependencies), [], [], id).Clean?
    ensures Validates(catalogue, id, dependencies)
  {
  }

  lemma LadderSearchIsClean(m: nat, n: nat, graph: Adjacency)
    requires 1 <= m <= MAX_TAG_DEPENDENCY_DEPTH && 1 <= n <= m + MAX_TAG_DEPENDENCY_DEPTH + 1
    requires graph == EditedGraph(Ladder(m, n - 1), n, Rung(m, n))
    ensures Search(graph, [], [], n).Clean?
  {
    EditedLadder(m, n);
    TopSearch(graph, m, n);
  }

  /** The path down a ladder. */
  function Down(n: nat): (p: seq<Uuid>)
    requires n > 0
    ensures |p| == n && p[0] == n && forall i :: 0 <= i < n ==> p[i] == n - i
  {
    if n == 1 then [1] else [n] + Down(n - 1)
  }

  lemma LadderEdge(m: nat, n: nat, i: nat)
    requires m > 0 && 2 <= i <= n
    ensures Descends(CatalogueEdges(Ladder(m, n)), i)
  {
    RungIsListed(m, i);
    assert Ladder(m, n)[i].dependencies == LadderInput(m, i).Dependencies();
  }

  predicate Descends(edges: Edges, i: nat)
    requires i > 0
  {
    (i, i - 1) in edges
  }

  lemma DownIsPath(edges: Edges, n: nat)
    requires n > 0 && forall i :: 2 <= i <= n ==> Descends(edges, i)
    ensures PathLongerThan(edges, n, n - 2)
  {
    var p := Down(n);
    forall k | 0 <= k < |p| - 1 ensures (p[k], p[k + 1]) in edges {
      var i := n - k;
      assert Descends(edges, i) && p[k] == i && p[k + 1] == i - 1;
    }
    assert IsPath(edges, p);
  }

  /** Every creation of the ladder is accepted, in order, and leaves a path through all its
      tags: up to twice the limit, with no tag depending on more than two others. */
  lemma AcceptedPathsExceedLimit(m: nat, n: nat)
    requires 1 <= m <= MAX_TAG_DEPENDENCY_DEPTH && 1 <= n <= m + MAX_TAG_DEPENDENCY_DEPTH + 1
    ensures forall i :: 1 <= i <= n ==> Admissible(Ladder(m, i - 1), i, LadderInput(m, i))
    ensures PathLongerThan(CatalogueEdges(Ladder(m, n)), n, n - 2)
  {
    forall i | 1 <= i <= n ensures Admissible(Ladder(m, i - 1), i, LadderInput(m, i)) {
      CreationIsAdmissible(m, i);
    }
    forall i | 2 <= i <= n ensures Descends(CatalogueEdges(Ladder(m, n)), i) {
      LadderEdge(m, n, i);
    }
    DownIsPath(CatalogueEdges(Ladder(m, n)), n);
  }
}
