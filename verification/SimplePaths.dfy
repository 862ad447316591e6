/** The depth-first visitor that prints every path between two vertices. */
module SimplePaths {
  import opened Sequences

  type Vertex = nat

  /** The targets of the edges out of each vertex, in edge order. Parallel
      edges are repeated targets. */
  type Graph = map<Vertex, seq<Vertex>>

  predicate Closed(g: Graph) {
    forall v <- g.Keys :: forall t <- g[v] :: t in g
  }

  // ------------------------------------------------- what a simple path is

  /** `p` chooses an edge out of each vertex it reaches, starting at `v`. */
  predicate Walks(g: Graph, v: Vertex, p: seq<nat>)
    decreases |p|
  {
    v in g && (p == [] || (p[0] < |g[v]| && Walks(g, g[v][p[0]], p[1..])))
  }

  /** The vertices it passes, both ends included. */
  function Passes(g: Graph, v: Vertex, p: seq<nat>): (vs: seq<Vertex>)
    ensures |vs| > 0 && vs[0] == v
    ensures Walks(g, v, p) ==> |vs| == |p| + 1
    decreases |p|
  {
    if p == [] || v !in g || p[0] >= |g[v]| then [v] else [v] + Passes(g, g[v][p[0]], p[1..])
  }

  /** From `v` to `target`, through no vertex twice and none of `visited`. */
  predicate IsSimplePath(g: Graph, target: Vertex, visited: set<Vertex>, v: Vertex, p: seq<nat>)
  {
    && Walks(g, v, p)
    && var vs := Passes(g, v, p);
       vs[|p|] == target && Distinct(vs) && forall i :: 0 <= i < |vs| ==> vs[i] !in visited
  }

  // ------------------------------------------------------- what is emitted

  function Prefixed(e: nat, ps: seq<seq<nat>>): (r: seq<seq<nat>>)
    ensures |r| == |ps| && forall i :: 0 <= i < |ps| ==> r[i] == [e] + ps[i]
  {
    seq(|ps|, i requires 0 <= i < |ps| => [e] + ps[i])
  }

  /** The paths found from `v`, in the order in which they are found. */
  function Found(g: Graph, target: Vertex, visited: set<Vertex>, v: Vertex): seq<seq<nat>>
    requires Closed(g) && v in g && v !in visited
    decreases |g.Keys - visited|, 1, 0
  {
    if v == target then [[]] else
    FewerLeft(g, visited, v);
    FoundFrom(g, target, visited + {v}, v, |g[v]|)
  }

  /** The ones that start with one of the first `n` edges out of `v`. */
  function FoundFrom(g: Graph, target: Vertex, visited: set<Vertex>, v: Vertex, n: nat): seq<seq<nat>>
    requires Closed(g) && v in g && n <= |g[v]|
    decreases |g.Keys - visited|, 2, n
  {
    if n == 0 then [] else
    FoundFrom(g, target, visited, v, n - 1)
    + if g[v][n - 1] in visited then [] else Prefixed(n - 1, Found(g, target, visited, g[v][n - 1]))
  }

  lemma FewerLeft(g: Graph, visited: set<Vertex>, v: Vertex)
    requires v in g && v !in visited
    ensures |g.Keys - (visited + {v})| < |g.Keys - visited|
  {
    assert g.Keys - visited == g.Keys - (visited + {v}) + {v};
  }

  /** The printed lines: the path so far, then the vertices of each path. */
  function Lines(g: Graph, path: seq<Vertex>, v: Vertex, ps: seq<seq<nat>>): (r: seq<seq<Vertex>>)
    ensures |r| == |ps| && forall i :: 0 <= i < |ps| ==> r[i] == path + Passes(g, v, ps[i])
  {
    seq(|ps|, i requires 0 <= i < |ps| => path + Passes(g, v, ps[i]))
  }

  lemma LinesOfConcat(g: Graph, path: seq<Vertex>, v: Vertex, ps: seq<seq<nat>>, qs: seq<seq<nat>>)
    ensures Lines(g, path, v, ps + qs) == Lines(g, path, v, ps) + Lines(g, path, v, qs)
  {
  }

  lemma LinesThroughEdge(g: Graph, path: seq<Vertex>, v: Vertex, e: nat, ps: seq<seq<nat>>)
    requires v in g && e < |g[v]|
    ensures Lines(g, path, v, Prefixed(e, ps)) == Lines(g, path + [v], g[v][e], ps)
  {
    var qs := Prefixed(e, ps);
    forall i | 0 <= i < |ps| ensures path + Passes(g, v, qs[i]) == path + [v] + Passes(g, g[v][e], ps[i]) {
      assert qs[i][1..] == ps[i];
    }
  }

  /** The lines printed through one more edge. */
  lemma LinesThroughOneMore(g: Graph, target: Vertex, visited: set<Vertex>, path: seq<Vertex>, v: Vertex, i: nat,
                            printed: seq<seq<Vertex>>)
    requires Closed(g) && v in g && i < |g[v]|
    ensures printed + Lines(g, path, v, FoundFrom(g, target, visited, v, i + 1))
         == printed + Lines(g, path, v, FoundFrom(g, target, visited, v, i))
            + if g[v][i] in visited then []
              else Lines(g, path + [v], g[v][i], Found(g, target, visited, g[v][i]))
  {
    var t, before := g[v][i], FoundFrom(g, target, visited, v, i);
    if t in visited {
      assert before + [] == before;
    } else {
      var through := Found(g, target, visited, t);
      LinesThroughEdge(g, path, v, i, through);
      LinesOfConcat(g, path, v, before, Prefixed(i, through));
    }
  }

  // --------------------------------------------- found = all simple, each once

  lemma {:induction false} FoundIsSound(g: Graph, target: Vertex, visited: set<Vertex>, v: Vertex)
    requires Closed(g) && v in g && v !in visited
    ensures forall p <- Found(g, target, visited, v) :: IsSimplePath(g, target, visited, v, p)
    decreases |g.Keys - visited|, 1, 0
  {
    if v != target {
      FewerLeft(g, visited, v);
      FoundFromIsSound(g, target, visited, v, |g[v]|);
    }
  }

  predicate StartsBefore(p: seq<nat>, n: nat) {
    p != [] && p[0] < n
  }

  lemma {:induction false} FoundFromIsSound(g: Graph, target: Vertex, visited: set<Vertex>, v: Vertex, n: nat)
    requires Closed(g) && v in g && v !in visited && n <= |g[v]|
    ensures forall p <- FoundFrom(g, target, visited + {v}, v, n) ::
              StartsBefore(p, n) && IsSimplePath(g, target, visited, v, p)
    decreases |g.Keys - (visited + {v})|, 2, n
  {
    if n > 0 {
      FoundFromIsSound(g, target, visited, v, n - 1);
      var t := g[v][n - 1];
      if t !in visited + {v} {
        FoundIsSound(g, target, visited + {v}, t);
        PrefixedAreSimple(g, target, visited, v, n - 1, Found(g, target, visited + {v}, t));
      }
    }
  }

  lemma PrefixedAreSimple(g: Graph, target: Vertex, visited: set<Vertex>, v: Vertex, e: nat, ps: seq<seq<nat>>)
    requires v in g && v !in visited && e < |g[v]|
    requires forall p <- ps :: IsSimplePath(g, target, visited + {v}, g[v][e], p)
    ensures forall q <- Prefixed(e, ps) :: StartsBefore(q, e + 1) && IsSimplePath(g, target, visited, v, q)
  {
    var qs := Prefixed(e, ps);
    forall i | 0 <= i < |qs| ensures StartsBefore(qs[i], e + 1) && IsSimplePath(g, target, visited, v, qs[i]) {
      assert ps[i] in ps;
      ExtendedIsSimple(g, target, visited, v, e, ps[i]);
    }
  }

  /** A first edge to an unvisited vertex keeps a path simple. */
  lemma ExtendedIsSimple(g: Graph, target: Vertex, visited: set<Vertex>, v: Vertex, e: nat, p: seq<nat>)
    requires v in g && v !in visited && e < |g[v]|
    requires IsSimplePath(g, target, visited + {v}, g[v][e], p)
    ensures IsSimplePath(g, target, visited, v, [e] + p)
  {
    assert ([e] + p)[1..] == p;
    var vs, ws := Passes(g, g[v][e], p), Passes(g, v, [e] + p);
    assert ws == [v] + vs;
    forall i, j | 0 <= i < j < |ws| ensures ws[i] != ws[j] {
      assert ws[j] == vs[j - 1] && vs[j - 1] !in visited + {v};
    }
  }

  lemma {:induction false} FoundIsComplete(g: Graph, target: Vertex, visited: set<Vertex>, v: Vertex, p: seq<nat>)
    requires Closed(g) && v !in visited && IsSimplePath(g, target, visited, v, p)
    ensures p in Found(g, target, visited, v)
    decreases |p|
  {
    var vs := Passes(g, v, p);
    if v == target {
      assert vs[0] == vs[|p|];
      assert p == [];
      assert p in [[]];
    } else {
      var e := p[0];
      var t := g[v][e];
      ShortenedIsSimple(g, target, visited, v, p);
      FoundIsComplete(g, target, visited + {v}, t, p[1..]);
      assert p == [e] + p[1..];
      FoundFromHasEdge(g, target, visited + {v}, v, |g[v]|, p);
    }
  }

  lemma ShortenedIsSimple(g: Graph, target: Vertex, visited: set<Vertex>, v: Vertex, p: seq<nat>)
    requires IsSimplePath(g, target, visited, v, p) && v != target
    ensures p != [] && g[v][p[0]] !in visited + {v}
    ensures IsSimplePath(g, target, visited + {v}, g[v][p[0]], p[1..])
  {
    var vs := Passes(g, v, p);
    assert p != [];
    var ws := Passes(g, g[v][p[0]], p[1..]);
    assert vs == [v] + ws;
    forall i | 0 <= i < |ws| ensures ws[i] !in visited + {v} {
      assert ws[i] == vs[i + 1] && vs[0] == v;
    }
    forall i, j | 0 <= i < j < |ws| ensures ws[i] != ws[j] {
      assert ws[i] == vs[i + 1] && ws[j] == vs[j + 1];
    }
    assert ws[0] !in visited + {v};
  }

  lemma {:induction false} FoundFromHasEdge(g: Graph, target: Vertex, visited: set<Vertex>, v: Vertex, n: nat,
                                            p: seq<nat>)
    requires Closed(g) && v in g && n <= |g[v]| && p != [] && p[0] < n
    requires g[v][p[0]] !in visited && p[1..] in Found(g, target, visited, g[v][p[0]])
    ensures p in FoundFrom(g, target, visited, v, n)
  {
    if p[0] < n - 1 {
      FoundFromHasEdge(g, target, visited, v, n - 1, p);
    } else {
      var ps := Found(g, target, visited, g[v][n - 1]);
      var i :| 0 <= i < |ps| && ps[i] == p[1..];
      assert p == [n - 1] + ps[i] == Prefixed(n - 1, ps)[i];
    }
  }

  lemma {:induction false} FoundIsDistinct(g: Graph, target: Vertex, visited: set<Vertex>, v: Vertex)
    requires Closed(g) && v in g && v !in visited
    ensures Distinct(Found(g, target, visited, v))
    decreases |g.Keys - visited|, 1, 0
  {
    if v != target {
      FewerLeft(g, visited, v);
      FoundFromIsDistinct(g, target, visited, v, |g[v]|);
    }
  }

  lemma {:induction false} FoundFromIsDistinct(g: Graph, target: Vertex, visited: set<Vertex>, v: Vertex, n: nat)
    requires Closed(g) && v in g && v !in visited && n <= |g[v]|
    ensures Distinct(FoundFrom(g, target, visited + {v}, v, n))
    decreases |g.Keys - (visited + {v})|, 2, n
  {
    if n > 0 {
      FoundFromIsDistinct(g, target, visited, v, n - 1);
      FoundFromIsSound(g, target, visited, v, n - 1);
      var t := g[v][n - 1];
      if t !in visited + {v} {
        FoundIsDistinct(g, target, visited + {v}, t);
        ByFirstEdge(FoundFrom(g, target, visited + {v}, v, n - 1), n - 1, Found(g, target, visited + {v}, t));
      }
    }
  }

  lemma ByFirstEdge(ps: seq<seq<nat>>, e: nat, qs: seq<seq<nat>>)
    requires Distinct(ps) && Distinct(qs) && forall p <- ps :: StartsBefore(p, e)
    ensures Distinct(ps + Prefixed(e, qs))
  {
    var rs := Prefixed(e, qs);
    forall i, j | 0 <= i < j < |qs| ensures rs[i] != rs[j] {
      assert rs[i][1..] == qs[i] && rs[j][1..] == qs[j];
    }
    forall i, j | 0 <= i < |ps| && 0 <= j < |rs| ensures ps[i] != rs[j] {
      assert ps[i] in ps && rs[j][0] == e;
    }
  }

  /** The visitor finds exactly the simple paths that avoid the visited
      vertices, each once. */
  lemma FoundIsEverySimplePathOnce(g: Graph, target: Vertex, visited: set<Vertex>, v: Vertex)
    requires Closed(g) && v in g && v !in visited
    ensures forall p :: p in Found(g, target, visited, v) <==> IsSimplePath(g, target, visited, v, p)
    ensures Distinct(Found(g, target, visited, v))
  {
    FoundIsSound(g, target, visited, v);
    FoundIsDistinct(g, target, visited, v);
    forall p | IsSimplePath(g, target, visited, v, p) ensures p in Found(g, target, visited, v) {
      FoundIsComplete(g, target, visited, v, p);
    }
  }

  // ---------------------------------------------------------------- the visitor

  class PrintPathsVisitor {
    const graph: Graph
    const target: Vertex
    var path: seq<Vertex>
    var visited: set<Vertex>
    var printed: seq<seq<Vertex>>

    constructor (graph: Graph, target: Vertex)
      ensures this.graph == graph && this.target == target && path == [] && visited == {} && printed == []
    {
      this.graph, this.target := graph, target;
      path, visited, printed := [], {}, [];
    }

    /** Prints one line for every path found and puts the state back. */
    method Visit(v: Vertex)
      requires Closed(graph) && v in graph && v !in visited
      modifies this
      ensures path == old(path) && visited == old(visited)
      ensures printed == old(printed) + Lines(graph, old(path), v, Found(graph, target, old(visited), v))
      decreases |graph.Keys - visited|, 0
    {
      FewerLeft(graph, visited, v);
      visited := visited + {v};
      if v == target {
        printed := printed + [path + [target]];
        LastLine(graph, path, v);
      } else {
        VisitTargets(v);
      }
      visited := visited - {v};
    }

    method VisitTargets(v: Vertex)
      requires Closed(graph) && v in graph && v in visited
      modifies this
      ensures path == old(path) && visited == old(visited)
      ensures printed == old(printed) + Lines(graph, path, v, FoundFrom(graph, target, visited, v, |graph[v]|))
      decreases |graph.Keys - visited|, 1
    {
      path := path + [v];
      for i := 0 to |graph[v]|
        invariant path == old(path) + [v] && visited == old(visited)
        invariant printed == old(printed) + Lines(graph, old(path), v, FoundFrom(graph, target, visited, v, i))
      {
        var t := graph[v][i];
        LinesThroughOneMore(graph, target, visited, old(path), v, i, old(printed));
        if t !in visited {
          Visit(t);
        }
      }
      path := path[..|path| - 1];
    }
  }

  lemma LastLine(g: Graph, path: seq<Vertex>, v: Vertex)
    ensures Lines(g, path, v, [[]]) == [path + [v]]
  {
  }

  /** All paths from one vertex to another: what is printed are the vertices of the
      simple paths between them, a line for each. */
  method PrintPaths(graph: Graph, source: Vertex, target: Vertex) returns (printed: seq<seq<Vertex>>)
    requires Closed(graph) && source in graph
    ensures var paths := Found(graph, target, {}, source);
            && printed == Lines(graph, [], source, paths) && Distinct(paths)
            && forall p :: p in paths <==> IsSimplePath(graph, target, {}, source, p)
  {
    var visitor := new PrintPathsVisitor(graph, target);
    visitor.Visit(source);
    printed := visitor.printed;
    FoundIsEverySimplePathOnce(graph, target, {}, source);
  }
}
