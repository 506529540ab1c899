/** The import graph: edges in insertion order, cycle detection on every addition, and the two orderings. */
module ImportGraph {
  import opened Wrappers
  import opened ImportGraphSpec
  import Order = SourceOrder

  datatype Edge = Edge(importer: Id, imported: Id, location: nat)

  /** Linked hash maps as insertion-ordered lists: the importers, and the edges of each. */
  datatype Store = Store(importers: seq<Id>, outgoing: map<Id, seq<Edge>>)

  function Imported(edges: seq<Edge>): seq<Id>
  {
    seq(|edges|, i requires 0 <= i < |edges| => edges[i].imported)
  }

  function EdgesFrom(g: Store, x: Id): seq<Edge>
  {
    if x in g.outgoing then g.outgoing[x] else []
  }

  function AllImported(g: Store, importers: seq<Id>): seq<Id>
  {
    if importers == [] then [] else Imported(EdgesFrom(g, importers[0])) + AllImported(g, importers[1..])
  }

  /** Importers, then what they import, then the roots, each once. */
  function Vertices(g: Store, roots: seq<Id>): seq<Id>
  {
    Order.Distinct(g.importers + AllImported(g, g.importers) + roots)
  }

  function Children(g: Store, x: Id, sorted: bool): seq<Id>
  {
    var imported := Imported(EdgesFrom(g, x));
    if sorted then Order.Sorted(imported) else imported
  }

  function AdjacencyOf(g: Store, roots: seq<Id>, sorted: bool): Adjacency
  {
    map x | x in Vertices(g, roots) :: Children(g, x, sorted)
  }

  ghost predicate Consistent(g: Store)
  {
    && Order.NoDuplicates(g.importers)
    && (forall x :: x in g.importers <==> x in g.outgoing)
    && forall x | x in g.outgoing ::
         Order.NoDuplicates(Imported(g.outgoing[x])) && forall e | e in g.outgoing[x] :: e.importer == x
  }

  ghost function GraphOf(g: Store): Edges
  {
    set x, e | x in g.outgoing && e in g.outgoing[x] :: (x, e.imported)
  }

  ghost predicate Has(g: Store, x: Id, y: Id)
  {
    y in Imported(EdgesFrom(g, x))
  }

  lemma HasIsEdge(g: Store, x: Id, y: Id)
    ensures Has(g, x, y) <==> (x, y) in GraphOf(g)
  {
    var edges := EdgesFrom(g, x);
    if Has(g, x, y) {
      var i :| 0 <= i < |Imported(edges)| && Imported(edges)[i] == y;
      assert edges[i] in g.outgoing[x];
    }
    if (x, y) in GraphOf(g) {
      var e :| e in g.outgoing[x] && e.imported == y;
      var i :| 0 <= i < |edges| && edges[i] == e;
      assert Imported(edges)[i] == y;
    }
  }

  lemma {:induction false} AllImportedHolds(g: Store, importers: seq<Id>, y: Id)
    ensures y in AllImported(g, importers) <==> exists x :: x in importers && Has(g, x, y)
  {
    if importers != [] {
      AllImportedHolds(g, importers[1..], y);
      assert importers == [importers[0]] + importers[1..];
      assert y in AllImported(g, importers) <==> Has(g, importers[0], y) || y in AllImported(g, importers[1..]);
    }
  }

  /** The vertices are the ends of the edges and the roots. */
  lemma VerticesHold(g: Store, roots: seq<Id>, y: Id)
    requires Consistent(g)
    ensures y in Vertices(g, roots) <==>
              y in g.outgoing || y in roots || exists x :: (x, y) in GraphOf(g)
  {
    AllImportedHolds(g, g.importers, y);
    forall x { HasIsEdge(g, x, y); }
    if x :| (x, y) in GraphOf(g) { assert x in g.importers && Has(g, x, y); }
  }

  lemma AdjacencyHas(g: Store, roots: seq<Id>, sorted: bool, x: Id, y: Id)
    requires Consistent(g)
    ensures var adj := AdjacencyOf(g, roots, sorted);
            && (x in adj && y in adj[x] <==> (x, y) in GraphOf(g))
            && ((x, y) in GraphOf(g) ==> y in adj)
  {
    HasIsEdge(g, x, y);
    VerticesHold(g, roots, x);
    VerticesHold(g, roots, y);
    assert y in Children(g, x, sorted) <==> Has(g, x, y);
  }

  lemma AdjacencyIsClosed(g: Store, roots: seq<Id>, sorted: bool)
    requires Consistent(g)
    ensures Closed(AdjacencyOf(g, roots, sorted))
  {
    var adj := AdjacencyOf(g, roots, sorted);
    forall x | x in adj ensures forall y | y in adj[x] :: y in adj {
      forall y | y in adj[x] ensures y in adj { AdjacencyHas(g, roots, sorted, x, y); }
    }
  }

  lemma AdjacencyIsGraph(g: Store, roots: seq<Id>, sorted: bool)
    requires Consistent(g)
    ensures Closed(AdjacencyOf(g, roots, sorted))
    ensures Relation(AdjacencyOf(g, roots, sorted)) == GraphOf(g)
  {
    AdjacencyIsClosed(g, roots, sorted);
    forall x, y ensures (x, y) in Relation(AdjacencyOf(g, roots, sorted)) <==> (x, y) in GraphOf(g) {
      AdjacencyHas(g, roots, sorted, x, y);
    }
  }

  /* ---------- the canonical order is a function of the edges and roots ---------- */

  /** What either ordering function computes on a graph. */
  ghost function Ordering(g: Store, roots: seq<Id>, sorted: bool): Search
    requires Consistent(g)
  {
    AdjacencyIsGraph(g, roots, sorted);
    var adj := AdjacencyOf(g, roots, sorted);
    var vertices := Vertices(g, roots);
    VisitAll(adj, if sorted then Order.Sorted(vertices) else roots + vertices, [], [])
  }

  ghost predicate NoEmptyImporter(g: Store)
  {
    forall x | x in g.outgoing :: g.outgoing[x] != []
  }

  lemma OrderingIsCanonical(g: Store, g': Store, roots: seq<Id>, roots': seq<Id>)
    requires Consistent(g) && Consistent(g') && NoEmptyImporter(g) && NoEmptyImporter(g')
    requires GraphOf(g) == GraphOf(g') && Order.Elements(roots) == Order.Elements(roots')
    ensures Ordering(g, roots, true) == Ordering(g', roots', true)
  {
    SameVertices(g, g', roots, roots');
    Order.SortedIsCanonical(Vertices(g, roots), Vertices(g', roots'));
    SameAdjacency(g, g', roots, roots');
  }

  lemma SameAdjacency(g: Store, g': Store, roots: seq<Id>, roots': seq<Id>)
    requires Consistent(g) && Consistent(g') && GraphOf(g) == GraphOf(g')
    requires Order.Elements(Vertices(g, roots)) == Order.Elements(Vertices(g', roots'))
    ensures AdjacencyOf(g, roots, true) == AdjacencyOf(g', roots', true)
  {
    var adj, adj' := AdjacencyOf(g, roots, true), AdjacencyOf(g', roots', true);
    assert adj.Keys == Order.Elements(Vertices(g, roots));
    assert adj'.Keys == Order.Elements(Vertices(g', roots'));
    forall x | x in adj
      ensures adj[x] == adj'[x]
    {
      SameChildren(g, g', x);
    }
  }

  lemma SameChildren(g: Store, g': Store, x: Id)
    requires Consistent(g) && Consistent(g') && GraphOf(g) == GraphOf(g')
    ensures Children(g, x, true) == Children(g', x, true)
  {
    var a, b := Imported(EdgesFrom(g, x)), Imported(EdgesFrom(g', x));
    forall y
      ensures y in a <==> y in b
    {
      HasIsEdge(g, x, y);
      HasIsEdge(g', x, y);
    }
    Order.SortedIsCanonical(a, b);
  }

  lemma SameVertices(g: Store, g': Store, roots: seq<Id>, roots': seq<Id>)
    requires Consistent(g) && Consistent(g') && NoEmptyImporter(g) && NoEmptyImporter(g')
    requires GraphOf(g) == GraphOf(g') && Order.Elements(roots) == Order.Elements(roots')
    ensures Order.Elements(Vertices(g, roots)) == Order.Elements(Vertices(g', roots'))
  {
    forall y
      ensures y in Vertices(g, roots) <==> y in Vertices(g', roots')
    {
      VerticesHold(g, roots, y);
      VerticesHold(g', roots', y);
      ImporterHasEdge(g, y);
      ImporterHasEdge(g', y);
      assert y in roots <==> y in Order.Elements(roots);
      assert y in roots' <==> y in Order.Elements(roots');
    }
  }

  lemma ImporterHasEdge(g: Store, x: Id)
    requires NoEmptyImporter(g)
    ensures x in g.outgoing <==> exists y :: (x, y) in GraphOf(g)
  {
    if x in g.outgoing {
      assert g.outgoing[x][0] in g.outgoing[x];
      assert (x, g.outgoing[x][0].imported) in GraphOf(g);
    }
  }

  /* ---------- the searches' mutable state ---------- */

  ghost predicate Agree(state: map<Id, int>, path: seq<Id>, result: seq<Id>)
  {
    forall x ::
      && (x in path <==> x in state && state[x] == 1)
      && (x in result <==> x in state && state[x] == 2)
  }

  lemma Starting(state: map<Id, int>, path: seq<Id>, result: seq<Id>, x: Id)
    requires Agree(state, path, result) && x !in path && x !in result
    ensures Agree(state[x := 1], path + [x], result)
  {
  }

  lemma Finishing(state: map<Id, int>, path: seq<Id>, result: seq<Id>, x: Id)
    requires Agree(state, path + [x], result) && x !in path
    ensures Agree(state[x := 2], path, result + [x])
    ensures (path + [x])[..|path|] == path
  {
    assert x in path + [x];
    assert forall y :: y in path + [x] <==> y in path || y == x;
  }

  /** One ordering run: vertex states 1 (being visited) and 2 (finished), the current path, the result. */
  class DependencySearch {
    const imports: Adjacency
    var state: map<Id, int>
    var path: seq<Id>
    var result: seq<Id>

    constructor (imports: Adjacency)
      ensures this.imports == imports && path == [] && result == [] && StatesAgree()
    {
      this.imports := imports;
      state, path, result := map[], [], [];
    }

    ghost predicate StatesAgree()
      reads this
    {
      Agree(state, path, result)
    }

    /** No cycle found: the search stands where it did, with more vertices finished. */
    method VisitOne(x: Id) returns (cycle: Option<seq<Id>>)
      requires Closed(imports) && x in imports && StatesAgree()
      modifies this
      ensures var r := Visit(imports, x, old(path), old(result));
              match cycle
              case None => r.Ordered? && StatesAgree() && path == old(path) && result == r.done
              case Some(c) => r == Looped(c)
      decreases Room(imports, path), 0
    {
      if x in state && state[x] == 2 { return None; }
      if x in state && state[x] == 1 { return Some(DropTo(path, x) + [x]); }
      assert x !in path && x !in result;
      ghost var outer := path;
      Starting(state, path, result, x);
      state := state[x := 1];
      path := path + [x];
      RoomShrinks(imports, outer, x);
      cycle := VisitEach(imports[x]);
      if cycle.Some? { return; }
      Finishing(state, outer, result, x);
      path := path[..|path| - 1];
      state := state[x := 2];
      result := result + [x];
    }

    method VisitEach(xs: seq<Id>) returns (cycle: Option<seq<Id>>)
      requires Closed(imports) && (forall x | x in xs :: x in imports) && StatesAgree()
      modifies this
      ensures var r := VisitAll(imports, xs, old(path), old(result));
              match cycle
              case None => r.Ordered? && StatesAgree() && path == old(path) && result == r.done
              case Some(c) => r == Looped(c)
      decreases Room(imports, path), 1 + |xs|
    {
      ghost var total := VisitAll(imports, xs, path, result);
      for i := 0 to |xs|
        invariant StatesAgree() && path == old(path)
        invariant total == VisitAll(imports, xs[i..], path, result)
      {
        assert xs[i..][0] == xs[i] && xs[i..][1..] == xs[i + 1..];
        cycle := VisitOne(xs[i]);
        if cycle.Some? { return; }
      }
      cycle := None;
    }
  }

  /* ---------- the graph ---------- */

  class SourceImportGraph {
    var importers: seq<Id>
    var outgoing: map<Id, seq<Edge>>

    function State(): Store
      reads this
    {
      Store(importers, outgoing)
    }

    ghost predicate Valid()
      reads this
    {
      Consistent(State()) && NoEmptyImporter(State())
    }

    ghost function Graph(): Edges
      reads this
    {
      GraphOf(State())
    }

    function ImportsOf(source: Id): (r: seq<Edge>)
      reads this
    {
      EdgesFrom(State(), source)
    }

    constructor ()
      ensures Valid() && Graph() == {}
    {
      importers, outgoing := [], map[];
    }

    /**
     Adds the edge. The answer is a closed path over edges of the enlarged graph exactly when the
     importer was already reachable from what it imports. The first edge between two sources stays.
     */
    method Add(edge: Edge) returns (cycle: Option<seq<Id>>)
      requires Valid()
      modifies this
      ensures Valid()
      ensures Graph() == old(Graph()) + {(edge.importer, edge.imported)}
      ensures cycle.Some? <==> Reaches(old(Graph()), edge.imported, edge.importer)
      ensures cycle.Some? ==>
                && IsCycle(Graph(), cycle.value)
                && cycle.value[0] == edge.importer && cycle.value[1] == edge.imported
      ensures forall x | x != edge.importer :: ImportsOf(x) == old(ImportsOf(x))
      ensures ImportsOf(edge.importer)
           == old(ImportsOf(edge.importer)) + if (edge.importer, edge.imported) in old(Graph()) then [] else [edge]
    {
      var pathBack := FindPath(edge.imported, edge.importer);
      ghost var graph := Graph();
      Insert(edge);
      cycle := None;
      if pathBack.Some? {
        PathBackCloses(graph, pathBack.value, edge);
        cycle := Some([edge.importer] + pathBack.value);
      }
    }

    method Insert(edge: Edge)
      requires Valid()
      modifies this
      ensures Valid()
      ensures Graph() == old(Graph()) + {(edge.importer, edge.imported)}
      ensures forall x | x != edge.importer :: ImportsOf(x) == old(ImportsOf(x))
      ensures ImportsOf(edge.importer)
           == old(ImportsOf(edge.importer)) + if (edge.importer, edge.imported) in old(Graph()) then [] else [edge]
    {
      ghost var before := State();
      if edge.importer !in outgoing {
        importers := importers + [edge.importer];
        outgoing := outgoing[edge.importer := []];
      }
      HasIsEdge(before, edge.importer, edge.imported);
      Append(edge);
      StoreGrows(before, State(), edge);
      GraphGrows(before, State(), edge);
    }

    /** Appends the edge to its importer's list unless the list has one to the same source. */
    method Append(edge: Edge)
      requires edge.importer in outgoing
      modifies this`outgoing
      ensures outgoing.Keys == old(outgoing).Keys
      ensures forall x | x in outgoing && x != edge.importer :: outgoing[x] == old(outgoing)[x]
      ensures var edges := old(outgoing)[edge.importer];
              outgoing[edge.importer] == if edge.imported in Imported(edges) then edges else edges + [edge]
    {
      var edges := outgoing[edge.importer];
      if edge.imported !in Imported(edges) {
        outgoing := outgoing[edge.importer := edges + [edge]];
      }
    }

    /** Adds edges one after the other and gathers the answers. */
    method AddAll(edges: seq<Edge>) returns (answers: seq<Option<seq<Id>>>)
      requires Valid() && Graph() == {}
      modifies this
      ensures Valid() && Graph() == EdgesOf(Pairs(edges)) && |answers| == |edges|
      ensures AnswersAreRight(edges, answers)
    {
      answers := [];
      for i := 0 to |edges|
        invariant Valid() && Graph() == EdgesOf(Pairs(edges[..i])) && |answers| == i
        invariant AnswersAreRight(edges[..i], answers)
      {
        var answer := Add(edges[i]);
        OneMoreAnswer(edges[..i], answers, edges[i], answer);
        answers := answers + [answer];
        assert edges[..i + 1] == edges[..i] + [edges[i]];
      }
      assert edges[..|edges|] == edges;
    }

    /** A path between two sources, found exactly when there is one. */
    method FindPath(start: Id, target: Id) returns (path: Option<seq<Id>>)
      requires Valid()
      ensures path.Some? <==> Reaches(Graph(), start, target)
      ensures path.Some? ==> IsPathFrom(Graph(), path.value, start, target)
    {
      ghost var all := Ends(State()) + {start};
      var visited;
      path, visited := Search(start, target, {}, all);
      if path.None? && Reaches(Graph(), start, target) {
        ghost var p :| IsPathFrom(Graph(), p, start, target);
        ClosedKeepsPaths(Graph(), visited, p, |p| - 1);
      }
    }

    /**
     Without a path, everything newly visited has its imports visited too, and the target is not
     among them.
     */
    method Search(current: Id, target: Id, visited: set<Id>, ghost all: set<Id>)
      returns (path: Option<seq<Id>>, visited': set<Id>)
      requires Valid() && Ends(State()) <= all && current in all && visited <= all && target !in visited
      ensures visited <= visited' <= all
      ensures path.Some? ==> IsPathFrom(Graph(), path.value, current, target)
      ensures path.None? ==> current in visited' && target !in visited'
      ensures path.None? ==> forall e | e in Graph() && e.0 in visited' && e.0 !in visited :: e.1 in visited'
      decreases all - visited
    {
      visited' := visited;
      if current == target {
        assert IsPathFrom(Graph(), [current], current, target);
        return Some([current]), visited';
      }
      if current in visited { return None, visited'; }
      visited' := visited + {current};
      ghost var g := Graph();
      var edges := ImportsOf(current);
      for i := 0 to |edges|
        invariant visited + {current} <= visited' <= all && target !in visited'
        invariant forall k | 0 <= k < i :: edges[k].imported in visited'
        invariant forall e | e in g && e.0 in visited' && e.0 !in visited && e.0 != current :: e.1 in visited'
      {
        assert (current, edges[i].imported) in g;
        var suffix;
        ghost var v := visited';
        suffix, visited' := Search(edges[i].imported, target, visited', all);
        if suffix.Some? {
          assert IsPathFrom(g, [current] + suffix.value, current, target);
          return Some([current] + suffix.value), visited';
        }
      }
      forall e | e in g && e.0 in visited' && e.0 !in visited
        ensures e.1 in visited'
      {
        if e.0 == current {
          HasIsEdge(State(), current, e.1);
          assert e.1 in Imported(edges);
        }
      }
      path := None;
    }

    /** Imports before importers, independent sources in the order of their identifiers. */
    method DependencyOrder(roots: seq<Id>) returns (r: Search)
      requires Valid()
      ensures r == Ordering(State(), roots, true)
    {
      r := Run(roots, true);
    }

    /** Imports before importers, in the order of discovery. */
    method DependencyOrderInInsertionOrder(roots: seq<Id>) returns (r: Search)
      requires Valid()
      ensures r == Ordering(State(), roots, false)
    {
      r := Run(roots, false);
    }

    method Run(roots: seq<Id>, sorted: bool) returns (r: Search)
      requires Valid()
      ensures r == Ordering(State(), roots, sorted)
    {
      AdjacencyIsGraph(State(), roots, sorted);
      var vertices := Vertices(State(), roots);
      var search := new DependencySearch(AdjacencyOf(State(), roots, sorted));
      var cycle := search.VisitEach(if sorted then Order.Sorted(vertices) else roots + vertices);
      r := if cycle.Some? then Looped(cycle.value) else Ordered(search.result);
    }
  }

  function Pairs(edges: seq<Edge>): (r: seq<(Id, Id)>)
    ensures |r| == |edges|
  {
    seq(|edges|, i requires 0 <= i < |edges| => (edges[i].importer, edges[i].imported))
  }

  /** The answer to edge i is a cycle exactly when the edge closed one. */
  ghost predicate AnswerIsRight(edges: seq<Edge>, i: nat, answer: Option<seq<Id>>)
    requires i < |edges|
  {
    && (answer.Some? <==> Reaches(EdgesOf(Pairs(edges[..i])), edges[i].imported, edges[i].importer))
    && (answer.Some? ==> IsCycle(EdgesOf(Pairs(edges[..i + 1])), answer.value))
  }

  ghost predicate AnswersAreRight(edges: seq<Edge>, answers: seq<Option<seq<Id>>>)
  {
    |answers| == |edges| && forall i | 0 <= i < |edges| :: AnswerIsRight(edges, i, answers[i])
  }

  lemma OneMoreAnswer(edges: seq<Edge>, answers: seq<Option<seq<Id>>>, edge: Edge, answer: Option<seq<Id>>)
    requires AnswersAreRight(edges, answers)
    requires var graph := EdgesOf(Pairs(edges));
             && (answer.Some? <==> Reaches(graph, edge.imported, edge.importer))
             && (answer.Some? ==> IsCycle(graph + {(edge.importer, edge.imported)}, answer.value))
    ensures EdgesOf(Pairs(edges + [edge])) == EdgesOf(Pairs(edges)) + {(edge.importer, edge.imported)}
    ensures AnswersAreRight(edges + [edge], answers + [answer])
  {
    var more, n := edges + [edge], |edges|;
    assert Pairs(more) == Pairs(edges) + [(edge.importer, edge.imported)];
    assert EdgesOf(Pairs(more)) == EdgesOf(Pairs(edges)) + {(edge.importer, edge.imported)};
    forall i | 0 <= i < |more|
      ensures AnswerIsRight(more, i, (answers + [answer])[i])
    {
      if i < n {
        assert more[..i] == edges[..i] && more[..i + 1] == edges[..i + 1] && AnswerIsRight(edges, i, answers[i]);
      } else {
        assert more[..n] == edges && more[..n + 1] == more;
      }
    }
  }

  /** No edge closed a cycle exactly when there is none in the end. */
  lemma AnswersDecide(edges: seq<Edge>, answers: seq<Option<seq<Id>>>)
    requires AnswersAreRight(edges, answers)
    ensures (forall a | a in answers :: a.None?) <==> Acyclic(EdgesOf(Pairs(edges)))
  {
    var history := Pairs(edges);
    UnclosedHistoryIsAcyclic(history);
    forall i | 0 <= i < |edges|
      ensures answers[i].None? <==> !Reaches(EdgesOf(history[..i]), history[i].1, history[i].0)
    {
      assert history[..i] == Pairs(edges[..i]) && AnswerIsRight(edges, i, answers[i]);
    }
    assert NeverClosed(history) <==> forall i | 0 <= i < |answers| :: answers[i].None?;
  }

  /** Imports come before importers. */
  ghost predicate Topological(graph: Edges, order: seq<Id>)
  {
    forall i, j | 0 <= i < |order| && 0 <= j < |order| && (order[i], order[j]) in graph :: j < i
  }

  ghost predicate Decides(r: Search, graph: Edges)
  {
    && (r.Ordered? <==> Acyclic(graph))
    && (r.Ordered? ==> Topological(graph, r.done) && forall e | e in graph :: e.0 in r.done && e.1 in r.done)
    && (r.Looped? ==> IsCycle(graph, r.cycle))
  }

  /**
   A whole history: both orderings of the graph that results from adding edges one by one succeed
   exactly when no addition reported a cycle, and then put imports before importers.
   */
  method BuildAndOrder(edges: seq<Edge>, roots: seq<Id>)
    returns (answers: seq<Option<seq<Id>>>, sorted: Search, inserted: Search)
    ensures |answers| == |edges|
    ensures forall i | 0 <= i < |answers| :: AnswerIsRight(edges, i, answers[i])
    ensures sorted.Ordered? <==> forall a | a in answers :: a.None?
    ensures inserted.Ordered? <==> forall a | a in answers :: a.None?
    ensures Decides(sorted, EdgesOf(Pairs(edges))) && Decides(inserted, EdgesOf(Pairs(edges)))
  {
    var graph := new SourceImportGraph();
    answers := graph.AddAll(edges);
    AnswersDecide(edges, answers);
    sorted := graph.DependencyOrder(roots);
    OrderingDecides(graph.State(), roots, true);
    inserted := graph.DependencyOrderInInsertionOrder(roots);
    OrderingDecides(graph.State(), roots, false);
  }

  lemma OrderingDecides(g: Store, roots: seq<Id>, sorted: bool)
    requires Consistent(g)
    ensures Decides(Ordering(g, roots, sorted), GraphOf(g))
  {
    OrderingIsRight(g, roots, sorted);
    var r := Ordering(g, roots, sorted);
    if r.Ordered? {
      forall e | e in GraphOf(g)
        ensures e.0 in r.done && e.1 in r.done
      {
        assert (e.0, e.1) in GraphOf(g);
        HasIsEdge(g, e.0, e.1);
      }
    }
  }

  ghost function Ends(g: Store): set<Id>
  {
    (set e | e in GraphOf(g) :: e.0) + (set e | e in GraphOf(g) :: e.1)
  }

  lemma PathBackCloses(graph: Edges, path: seq<Id>, edge: Edge)
    requires IsPathFrom(graph, path, edge.imported, edge.importer)
    ensures var cycle := [edge.importer] + path;
            && IsCycle(graph + {(edge.importer, edge.imported)}, cycle)
            && cycle[0] == edge.importer && cycle[1] == edge.imported
  {
  }

  lemma StoreGrows(before: Store, after: Store, edge: Edge)
    requires Consistent(before) && NoEmptyImporter(before)
    requires after.importers == before.importers + if edge.importer in before.outgoing then [] else [edge.importer]
    requires after.outgoing.Keys == before.outgoing.Keys + {edge.importer}
    requires forall x | x in before.outgoing && x != edge.importer :: after.outgoing[x] == before.outgoing[x]
    requires var edges := EdgesFrom(before, edge.importer);
             after.outgoing[edge.importer] == edges + if edge.imported in Imported(edges) then [] else [edge]
    ensures Consistent(after) && NoEmptyImporter(after)
  {
    var edges := EdgesFrom(before, edge.importer);
    assert edges == [] || edge.importer in before.outgoing;
    if edge.imported in Imported(edges) {
      assert after.outgoing[edge.importer] == edges;
    } else {
      OneMoreImport(edges, edge);
    }
  }

  lemma OneMoreImport(edges: seq<Edge>, edge: Edge)
    requires Order.NoDuplicates(Imported(edges)) && edge.imported !in Imported(edges)
    ensures Order.NoDuplicates(Imported(edges + [edge]))
  {
    assert Imported(edges + [edge]) == Imported(edges) + [edge.imported];
  }

  lemma GraphGrows(before: Store, after: Store, edge: Edge)
    requires forall x | x != edge.importer :: EdgesFrom(after, x) == EdgesFrom(before, x)
    requires EdgesFrom(after, edge.importer)
          == EdgesFrom(before, edge.importer) + if Has(before, edge.importer, edge.imported) then [] else [edge]
    ensures GraphOf(after) == GraphOf(before) + {(edge.importer, edge.imported)}
  {
    forall x, y
      ensures (x, y) in GraphOf(after) <==> (x, y) in GraphOf(before) || (x, y) == (edge.importer, edge.imported)
    {
      HasIsEdge(before, x, y);
      HasIsEdge(after, x, y);
      var a, b := EdgesFrom(after, x), EdgesFrom(before, x);
      if a == b + [edge] { assert Imported(a) == Imported(b) + [edge.imported]; }
    }
  }

  /**
   Both orderings return normally exactly when the whole import graph is acyclic. The order then
   holds every source and root once, imports before importers; otherwise the reported path is a cycle.
   */
  lemma OrderingIsRight(g: Store, roots: seq<Id>, sorted: bool)
    requires Consistent(g)
    ensures var r := Ordering(g, roots, sorted);
            && (r.Ordered? <==> Acyclic(GraphOf(g)))
            && (r.Looped? ==> IsCycle(GraphOf(g), r.cycle))
            && (r.Ordered? ==>
                  && Order.NoDuplicates(r.done)
                  && (forall y :: y in r.done <==> y in g.outgoing || y in roots || exists x :: (x, y) in GraphOf(g))
                  && Topological(GraphOf(g), r.done))
  {
    AdjacencyIsGraph(g, roots, sorted);
    var adj := AdjacencyOf(g, roots, sorted);
    var vertices := Vertices(g, roots);
    var starts := if sorted then Order.Sorted(vertices) else roots + vertices;
    SearchDecidesAcyclicity(adj, starts);
    var r := Ordering(g, roots, sorted);
    if r.Ordered? {
      forall y
        ensures y in r.done <==> y in g.outgoing || y in roots || exists x :: (x, y) in GraphOf(g)
      {
        VerticesHold(g, roots, y);
        assert y in r.done <==> y in ImportGraphSpec.Elements(r.done);
      }
      forall i, j | 0 <= i < |r.done| && 0 <= j < |r.done| && (r.done[i], r.done[j]) in GraphOf(g)
        ensures j < i
      {
        assert (r.done[i], r.done[j]) in Relation(adj);
        assert r.done[j] in r.done[..i];
      }
    }
  }
}
