/**
 Import graphs as relations: paths, cycles and acyclicity, and the depth-first ordering as a
 function of an ordered adjacency.
 */
module ImportGraphSpec {
  import opened Wrappers

  type Id = string

  type Edges = set<(Id, Id)>

  /* ---------- paths ---------- */

  ghost predicate IsPath(g: Edges, p: seq<Id>)
  {
    p != [] && forall i | 0 <= i < |p| - 1 :: (p[i], p[i + 1]) in g
  }

  ghost predicate IsPathFrom(g: Edges, p: seq<Id>, a: Id, b: Id)
  {
    IsPath(g, p) && p[0] == a && p[|p| - 1] == b
  }

  ghost predicate Reaches(g: Edges, a: Id, b: Id)
  {
    exists p :: IsPathFrom(g, p, a, b)
  }

  ghost predicate IsCycle(g: Edges, p: seq<Id>)
  {
    IsPath(g, p) && |p| >= 2 && p[0] == p[|p| - 1]
  }

  lemma CycleHasEdge(g: Edges, p: seq<Id>)
    requires IsCycle(g, p)
    ensures g != {}
  {
    assert (p[0], p[1]) in g;
  }

  ghost predicate Acyclic(g: Edges)
  {
    forall p :: !IsCycle(g, p)
  }

  /** A set that keeps its successors keeps everything it reaches. */
  lemma {:induction false} ClosedKeepsPaths(g: Edges, s: set<Id>, p: seq<Id>, k: nat)
    requires forall e | e in g && e.0 in s :: e.1 in s
    requires IsPath(g, p) && p[0] in s && k < |p|
    ensures p[k] in s
  {
    if k > 0 {
      ClosedKeepsPaths(g, s, p, k - 1);
      assert (p[k - 1], p[k]) in g;
    }
  }

  /** A walk from b to a in the enlarged graph contains one that the new edge a -> b is no part of. */
  lemma {:induction false} WithoutNewEdge(g: Edges, a: Id, b: Id, p: seq<Id>)
    requires IsPathFrom(g + {(a, b)}, p, b, a)
    ensures Reaches(g, b, a)
  {
    if k :| 0 <= k < |p| - 1 && p[k] == a {
      WithoutNewEdge(g, a, b, p[..k + 1]);
    } else {
      assert IsPathFrom(g, p, b, a);
    }
  }

  /** Behind one of its edges, a cycle is a path back to where the edge began. */
  lemma Rotated(h: Edges, c: seq<Id>, i: nat)
    requires IsCycle(h, c) && i < |c| - 1
    ensures IsPathFrom(h, c[i + 1..] + c[1..i + 1], c[i + 1], c[i])
  {
    var p, n := c[i + 1..] + c[1..i + 1], |c| - 1 - i;
    assert |p| == |c| - 1;
    assert forall k | 0 <= k < |p| :: p[k] == if k < n then c[i + 1 + k] else c[1 + k - n];
    forall k | 0 <= k < |p| - 1 ensures (p[k], p[k + 1]) in h {
      if k < n - 1 {
        assert (c[i + 1 + k], c[i + 2 + k]) in h;
      } else if k == n - 1 {
        assert (c[0], c[1]) in h;
      } else {
        assert (c[1 + k - n], c[2 + k - n]) in h;
      }
    }
  }

  /** An edge closes a cycle in an acyclic graph exactly when its source was reachable from its target. */
  lemma EdgeClosesCycle(g: Edges, a: Id, b: Id)
    requires Acyclic(g)
    ensures Acyclic(g + {(a, b)}) <==> !Reaches(g, b, a)
  {
    var h := g + {(a, b)};
    if Reaches(g, b, a) {
      var p :| IsPathFrom(g, p, b, a);
      assert IsCycle(h, [a] + p);
    } else if c :| IsCycle(h, c) {
      if i :| 0 <= i < |c| - 1 && (c[i], c[i + 1]) !in g {
        Rotated(h, c, i);
        WithoutNewEdge(g, a, b, c[i + 1..] + c[1..i + 1]);
      } else {
        assert IsCycle(g, c);
      }
    }
  }

  ghost function EdgesOf(history: seq<(Id, Id)>): Edges
  {
    set e | e in history
  }

  /** Adding edges one by one, each leaving its importer unreachable from what it imports. */
  ghost predicate NeverClosed(history: seq<(Id, Id)>)
  {
    forall i | 0 <= i < |history| :: !Reaches(EdgesOf(history[..i]), history[i].1, history[i].0)
  }

  lemma {:induction false} UnclosedHistoryIsAcyclic(history: seq<(Id, Id)>)
    ensures NeverClosed(history) <==> Acyclic(EdgesOf(history))
  {
    if history == [] {
      forall p ensures !IsCycle(EdgesOf(history), p) {
        if IsCycle(EdgesOf(history), p) { CycleHasEdge(EdgesOf(history), p); }
      }
    } else {
      var n := |history| - 1;
      var rest := history[..n];
      var e := history[n];
      UnclosedHistoryIsAcyclic(rest);
      assert EdgesOf(history) == EdgesOf(rest) + {(e.0, e.1)};
      assert forall i | 0 <= i < n :: rest[..i] == history[..i];
      assert NeverClosed(history) <==> NeverClosed(rest) && !Reaches(EdgesOf(rest), e.1, e.0);
      if Acyclic(EdgesOf(history)) {
        forall p ensures !IsCycle(EdgesOf(rest), p) {
          assert IsCycle(EdgesOf(rest), p) ==> IsCycle(EdgesOf(history), p);
        }
      }
      if Acyclic(EdgesOf(rest)) {
        EdgeClosesCycle(EdgesOf(rest), e.0, e.1);
      }
    }
  }

  /* ---------- the search ---------- */

  /** Each vertex with the vertices it imports, in the order the search takes them. */
  type Adjacency = map<Id, seq<Id>>

  ghost predicate Closed(adj: Adjacency)
  {
    forall x | x in adj :: forall y | y in adj[x] :: y in adj
  }

  ghost function Relation(adj: Adjacency): Edges
    requires Closed(adj)
  {
    set x, y | x in adj && y in adj && y in adj[x] :: (x, y)
  }

  ghost function Elements(s: seq<Id>): set<Id>
  {
    set x | x in s
  }

  datatype Search = Ordered(done: seq<Id>) | Looped(cycle: seq<Id>)

  function DropTo(path: seq<Id>, x: Id): seq<Id>
  {
    if path == [] || path[0] == x then path else DropTo(path[1..], x)
  }

  ghost function Room(adj: Adjacency, path: seq<Id>): nat
  {
    |adj.Keys - Elements(path)|
  }

  lemma RoomShrinks(adj: Adjacency, path: seq<Id>, x: Id)
    requires x in adj && x !in path
    ensures Room(adj, path + [x]) < Room(adj, path)
  {
    assert x in adj.Keys - Elements(path);
    assert adj.Keys - Elements(path + [x]) == adj.Keys - Elements(path) - {x};
  }

  /** One call of the search: `path` is being visited, `done` is finished, in finishing order. */
  ghost function Visit(adj: Adjacency, x: Id, path: seq<Id>, done: seq<Id>): Search
    requires Closed(adj) && x in adj
    decreases Room(adj, path), 0
  {
    if x in done then Ordered(done)
    else if x in path then Looped(DropTo(path, x) + [x])
    else
      RoomShrinks(adj, path, x);
      var r := VisitAll(adj, adj[x], path + [x], done);
      if r.Ordered? then Ordered(r.done + [x]) else r
  }

  ghost function VisitAll(adj: Adjacency, xs: seq<Id>, path: seq<Id>, done: seq<Id>): Search
    requires Closed(adj) && forall x | x in xs :: x in adj
    decreases Room(adj, path), 1 + |xs|
  {
    if xs == [] then Ordered(done)
    else
      var r := Visit(adj, xs[0], path, done);
      if r.Ordered? then VisitAll(adj, xs[1..], path, r.done) else r
  }

  /* ---------- what the search finds ---------- */

  /** Each vertex once, after everything it imports. */
  ghost predicate Topological(adj: Adjacency, d: seq<Id>)
  {
    && (forall i, j | 0 <= i < j < |d| :: d[i] != d[j])
    && (forall i | 0 <= i < |d| :: d[i] in adj && forall y | y in adj[d[i]] :: y in d[..i])
  }

  /** The search is at x: what is being visited leads there and is not finished. */
  ghost predicate At(adj: Adjacency, x: Id, path: seq<Id>, done: seq<Id>)
    requires Closed(adj)
  {
    IsPath(Relation(adj), path + [x]) && Topological(adj, done) && forall y | y in path :: y !in done
  }

  ghost predicate Sound(adj: Adjacency, xs: seq<Id>, path: seq<Id>, done: seq<Id>, r: Search)
    requires Closed(adj)
  {
    match r
    case Ordered(d) =>
      && done <= d && Topological(adj, d)
      && (forall x | x in xs :: x in d)
      && (forall y | y in path :: y !in d)
    case Looped(c) => IsCycle(Relation(adj), c)
  }

  lemma {:induction false} DropToStarts(path: seq<Id>, x: Id)
    requires x in path
    ensures exists k :: 0 <= k < |path| && DropTo(path, x) == path[k..] && path[k] == x
  {
    if path[0] == x {
      assert path[0..] == path;
    } else {
      DropToStarts(path[1..], x);
      var k :| 0 <= k < |path[1..]| && DropTo(path[1..], x) == path[1..][k..] && path[1..][k] == x;
      assert path[1..][k..] == path[k + 1..];
    }
  }

  lemma {:induction false} VisitIsSound(adj: Adjacency, x: Id, path: seq<Id>, done: seq<Id>)
    requires Closed(adj) && x in adj && At(adj, x, path, done)
    ensures Sound(adj, [x], path, done, Visit(adj, x, path, done))
    decreases Room(adj, path), 0
  {
    if x in done {
    } else if x in path {
      DropToStarts(path, x);
      var k :| 0 <= k < |path| && DropTo(path, x) == path[k..] && path[k] == x;
      assert DropTo(path, x) + [x] == (path + [x])[k..];
    } else {
      RoomShrinks(adj, path, x);
      forall y | y in adj[x]
        ensures IsPath(Relation(adj), path + [x] + [y])
      {
        var p := path + [x];
        forall i | 0 <= i < |p + [y]| - 1
          ensures ((p + [y])[i], (p + [y])[i + 1]) in Relation(adj)
        {
          assert i < |p| - 1 ==> (p[i], p[i + 1]) in Relation(adj);
        }
      }
      VisitAllIsSound(adj, adj[x], path + [x], done);
      var r := VisitAll(adj, adj[x], path + [x], done);
      if r.Ordered? {
        FinishVertex(adj, r.done, x);
      }
    }
  }

  lemma FinishVertex(adj: Adjacency, d: seq<Id>, x: Id)
    requires Topological(adj, d) && x in adj && x !in d && forall y | y in adj[x] :: y in d
    ensures Topological(adj, d + [x])
  {
    var e := d + [x];
    forall i | 0 <= i < |e|
      ensures e[i] in adj && forall y | y in adj[e[i]] :: y in e[..i]
    {
      assert e[..i] == d[..i];
      assert d[..|d|] == d;
    }
  }

  lemma {:induction false} VisitAllIsSound(adj: Adjacency, xs: seq<Id>, path: seq<Id>, done: seq<Id>)
    requires Closed(adj) && (forall x | x in xs :: x in adj)
    requires Topological(adj, done) && (forall y | y in path :: y !in done)
    requires forall x | x in xs :: IsPath(Relation(adj), path + [x])
    ensures Sound(adj, xs, path, done, VisitAll(adj, xs, path, done))
    decreases Room(adj, path), 1 + |xs|
  {
    if xs != [] {
      VisitIsSound(adj, xs[0], path, done);
      var r := Visit(adj, xs[0], path, done);
      if r.Ordered? {
        VisitAllIsSound(adj, xs[1..], path, r.done);
        assert xs[0] in [xs[0]];
        assert forall x | x in xs :: x == xs[0] || x in xs[1..];
      }
    }
  }

  /** Positions in a topological order fall along every path, so no path closes. */
  lemma {:induction false} TopologicalPathsFall(adj: Adjacency, d: seq<Id>, p: seq<Id>, i: nat, k: nat)
    requires Closed(adj) && Topological(adj, d) && (forall x | x in adj :: x in d)
    requires IsPath(Relation(adj), p) && k < |p| && i < |d| && d[i] == p[0]
    ensures exists j :: 0 <= j < |d| && d[j] == p[k] && (if k == 0 then j == i else j < i)
  {
    if k > 0 {
      TopologicalPathsFall(adj, d, p, i, k - 1);
      var j :| 0 <= j < |d| && d[j] == p[k - 1] && j <= i;
      assert (p[k - 1], p[k]) in Relation(adj);
      assert p[k] in d[..j];
    }
  }

  lemma TopologicalIsAcyclic(adj: Adjacency, d: seq<Id>)
    requires Closed(adj) && Topological(adj, d) && forall x | x in adj :: x in d
    ensures Acyclic(Relation(adj))
  {
    forall p
      ensures !IsCycle(Relation(adj), p)
    {
      if IsCycle(Relation(adj), p) {
        assert (p[0], p[1]) in Relation(adj);
        var i :| 0 <= i < |d| && d[i] == p[0];
        TopologicalPathsFall(adj, d, p, i, |p| - 1);
      }
    }
  }

  /**
   Searching from every vertex, in any order and with any order of imports, succeeds exactly on
   acyclic graphs. Success lists every vertex once, imports before importers; failure shows a cycle.
   */
  lemma SearchDecidesAcyclicity(adj: Adjacency, starts: seq<Id>)
    requires Closed(adj) && (forall x | x in starts :: x in adj) && (forall x | x in adj :: x in starts)
    ensures var r := VisitAll(adj, starts, [], []);
            && (r.Ordered? <==> Acyclic(Relation(adj)))
            && (r.Ordered? ==> Topological(adj, r.done) && Elements(r.done) == adj.Keys)
            && (r.Looped? ==> IsCycle(Relation(adj), r.cycle))
  {
    VisitAllIsSound(adj, starts, [], []);
    var r := VisitAll(adj, starts, [], []);
    if r.Ordered? {
      TopologicalIsAcyclic(adj, r.done);
      assert forall x | x in r.done :: x in adj;
    }
  }
}
