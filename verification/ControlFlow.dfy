/** The control-flow graph: vertices labelled with nodes, the table from nodes
    back to vertices, and edges that may be parallel. */
module ControlFlow {
  import opened Seals

  /** Blocks and proxies. Only code blocks and proxies belong in a CFG. */
  datatype Node = CodeBlock(id: nat) | DataBlock(id: nat) | ProxyBlock(id: nat)

  type Vertex = nat
  datatype EdgeType = Branch | Call | Fallthrough | Return | Syscall | Sysret
  datatype EdgeLabel = NoLabel | Label(onTrue: bool, direct: bool, kind: EdgeType)
  datatype Edge = Edge(from: Vertex, to: Vertex, tag: EdgeLabel)

  /** The edges that are not dropped, in their order. */
  function Kept(es: seq<Edge>, drop: Edge -> bool): seq<Edge> {
    if es == [] then []
    else Kept(es[..|es| - 1], drop) + if drop(es[|es| - 1]) then [] else [es[|es| - 1]]
  }

  lemma {:induction false} KeptMembers(es: seq<Edge>, drop: Edge -> bool, e: Edge)
    ensures e in Kept(es, drop) <==> e in es && !drop(e)
  {
    if es != [] {
      KeptMembers(es[..|es| - 1], drop, e);
      assert es == es[..|es| - 1] + [es[|es| - 1]];
    }
  }

  lemma {:induction false} KeptAgree(es: seq<Edge>, drop: Edge -> bool, drop': Edge -> bool)
    requires forall i :: 0 <= i < |es| ==> drop(es[i]) == drop'(es[i])
    ensures Kept(es, drop) == Kept(es, drop')
  {
    if es != [] {
      KeptAgree(es[..|es| - 1], drop, drop');
    }
  }

  lemma {:induction false} NothingDropped(es: seq<Edge>, drop: Edge -> bool)
    requires forall i :: 0 <= i < |es| ==> !drop(es[i])
    ensures Kept(es, drop) == es
  {
    if es != [] {
      var init := es[..|es| - 1];
      NothingDropped(init, drop);
      assert es == init + [es[|es| - 1]];
    }
  }

  /** Taking out one dropped edge changes nothing for the others. */
  lemma {:induction false} KeptWithoutOne(es: seq<Edge>, i: nat, drop: Edge -> bool)
    requires i < |es| && drop(es[i])
    ensures Kept(es[..i] + es[i + 1..], drop) == Kept(es, drop)
  {
    var n := |es| - 1;
    if i < n {
      KeptWithoutOne(es[..n], i, drop);
      assert (es[..i] + es[i + 1..])[..n - 1] == es[..n][..i] + es[..n][i + 1..];
    } else {
      assert es[..i] + es[i + 1..] == es[..n];
    }
  }

  /** Edges are dropped just if one of them is to be. */
  lemma {:induction false} KeptChanges(es: seq<Edge>, drop: Edge -> bool)
    ensures Kept(es, drop) != es <==> exists e <- es :: drop(e)
  {
    if e :| e in es && drop(e) {
      KeptMembers(es, drop, e);
    } else {
      NothingDropped(es, drop);
    }
  }

  lemma {:induction false} KeptTwice(es: seq<Edge>, first: Edge -> bool, later: Edge -> bool, either: Edge -> bool)
    requires forall i :: 0 <= i < |es| ==> either(es[i]) == (first(es[i]) || later(es[i]))
    ensures Kept(Kept(es, first), later) == Kept(es, either)
  {
    if es != [] {
      var n := |es| - 1;
      KeptTwice(es[..n], first, later, either);
      var kept := Kept(es[..n], first);
      if first(es[n]) {
        assert Kept(es, first) == kept;
      } else {
        assert Kept(es, first) == kept + [es[n]] && (kept + [es[n]])[..|kept|] == kept;
      }
    }
  }

  /** What a graph holds: its vertices, the table back to them, and its edges. */
  datatype Drawing = Drawing(labels: map<Vertex, Node>, table: map<Node, Vertex>, edges: seq<Edge>) {
    /** The table is the inverse of the labelling, and every edge runs between
        vertices of the graph. */
    ghost predicate Proper() {
      && (forall n <- table :: table[n] in labels && labels[table[n]] == n)
      && (forall v <- labels :: labels[v] in table && table[labels[v]] == v)
      && forall e <- edges :: e.from in labels && e.to in labels
    }
  }

  const BLANK := Drawing(map[], map[], [])

  /** Edges with an end among the nodes. */
  function Ends(labels: map<Vertex, Node>, nodes: set<Node>): Edge -> bool {
    (e: Edge) => (e.from in labels && labels[e.from] in nodes) || (e.to in labels && labels[e.to] in nodes)
  }

  /** Some nodes have left and then some have joined: an edge is still there, in
      its place and between the same vertices, just if neither end has left. */
  ghost predicate Redrawn(d: Drawing, d': Drawing, gone: set<Node>, come: set<Node>) {
    forall k {:trigger Open(k)} :: k == d && Open(k) ==>
      && d'.Proper() && d'.table.Keys == d.table.Keys - gone + come
      && d'.edges == Kept(d.edges, Ends(d.labels, gone))
      && forall n <- d.table :: n !in gone ==> n in d'.table && d'.table[n] == d.table[n]
  }

  lemma RedrawnHolds(d: Drawing, d': Drawing, gone: set<Node>, come: set<Node>)
    requires Redrawn(d, d', gone, come)
    ensures d'.Proper() && d'.table.Keys == d.table.Keys - gone + come
  {
    assert Open(d);
  }

  lemma NotRedrawn(d: Drawing, gone: set<Node>, come: set<Node>)
    requires d.Proper() && gone !! d.table.Keys && come <= d.table.Keys
    ensures Redrawn(d, d, gone, come)
  {
    forall i | 0 <= i < |d.edges| ensures !Ends(d.labels, gone)(d.edges[i]) {
      assert d.edges[i] in d.edges;
    }
    NothingDropped(d.edges, Ends(d.labels, gone));
  }

  /** Which edges leave in a second step can be told from the first labelling. */
  lemma EdgesKeptTwice(d: Drawing, m: Drawing, gone: set<Node>, come: set<Node>, gone': set<Node>)
    requires d.Proper() && Redrawn(d, m, gone, come)
    ensures Kept(m.edges, Ends(m.labels, gone')) == Kept(d.edges, Ends(d.labels, gone + gone'))
  {
    assert Open(d);
    forall i | 0 <= i < |m.edges| ensures Ends(m.labels, gone')(m.edges[i]) == Ends(d.labels, gone')(m.edges[i]) {
      SurvivingEnds(d, m, gone, come, m.edges[i]);
    }
    KeptAgree(m.edges, Ends(m.labels, gone'), Ends(d.labels, gone'));
    KeptTwice(d.edges, Ends(d.labels, gone), Ends(d.labels, gone'), Ends(d.labels, gone + gone'));
  }

  lemma SurvivingEnds(d: Drawing, m: Drawing, gone: set<Node>, come: set<Node>, e: Edge)
    requires d.Proper() && Redrawn(d, m, gone, come) && e in m.edges
    ensures e.from in d.labels && e.from in m.labels && d.labels[e.from] == m.labels[e.from]
    ensures e.to in d.labels && e.to in m.labels && d.labels[e.to] == m.labels[e.to]
  {
    assert Open(d);
    KeptMembers(d.edges, Ends(d.labels, gone), e);
    assert m.table[d.labels[e.from]] == e.from && m.table[d.labels[e.to]] == e.to;
  }

  lemma RedrawnTwice(d: Drawing, m: Drawing, d': Drawing, gone: set<Node>, come: set<Node>,
                     gone': set<Node>, come': set<Node>)
    requires d.Proper() && Redrawn(d, m, gone, come) && Redrawn(m, d', gone', come') && come !! gone'
    ensures Redrawn(d, d', gone + gone', come + come')
  {
    assert Open(d) && Open(m);
    EdgesKeptTwice(d, m, gone, come, gone');
  }

  class ControlFlowGraph {
    const owner: nat  // the IR this graph is a part of
    var labels: map<Vertex, Node>
    var idTable: map<Node, Vertex>
    var edges: seq<Edge>
    var next: Vertex  // descriptors from here on have never been used

    ghost predicate Valid()
      reads this
    {
      Drawn().Proper() && forall v <- labels :: v < next
    }

    function Drawn(): Drawing
      reads this
    {
      Drawing(labels, idTable, edges)
    }

    constructor (ir: nat)
      ensures Valid() && Drawn() == BLANK && owner == ir
    {
      owner := ir;
      labels, idTable, edges, next := map[], map[], [], 0;
    }

    method AddVertex(n: Node) returns (v: Vertex, modified: bool)
      requires Valid()
      modifies this
      ensures Valid() && modified == (n !in old(idTable)) && edges == old(edges)
      ensures if modified then idTable == old(idTable)[n := v] && v !in old(labels) && labels == old(labels)[v := n]
              else idTable == old(idTable) && labels == old(labels) && v == idTable[n]
      ensures Redrawn(old(Drawn()), Drawn(), {}, {n})
    {
      if n in idTable {
        NotRedrawn(Drawn(), {}, {n});
        return idTable[n], false;
      }
      NotRedrawn(Drawn(), {}, {});
      v := next;
      next := next + 1;
      labels := labels[v := n];
      idTable := idTable[n := v];
      return v, true;
    }

    /** Removes a vertex and the edges from and to it. */
    method RemoveVertex(n: Node) returns (modified: bool)
      requires Valid()
      modifies this
      ensures Valid() && modified == (n in old(idTable)) && idTable == old(idTable) - {n}
      ensures modified ==>
                && labels == old(labels) - {old(idTable)[n]}
                && edges == Kept(old(edges), Touches(old(idTable)[n]))
      ensures Redrawn(old(Drawn()), Drawn(), {n}, {})
      ensures !modified ==> labels == old(labels) && edges == old(edges)
    {
      if n !in idTable {
        NotRedrawn(Drawn(), {n}, {});
        return false;
      }
      var v := idTable[n];
      forall e ensures e in Kept(edges, Touches(v)) <==> e in edges && e.from != v && e.to != v {
        KeptMembers(edges, Touches(v), e);
      }
      EndsTouch(Drawn(), n);
      edges := Kept(edges, Touches(v));
      labels := labels - {v};
      idTable := idTable - {n};
      return true;
    }

    /** Edges start without a label. */
    method AddEdge(from: Node, to: Node) returns (added: bool)
      requires Valid()
      modifies this
      ensures Valid() && added == (from in idTable && to in idTable)
      ensures idTable == old(idTable) && labels == old(labels)
      ensures edges == old(edges) + if added then [Edge(idTable[from], idTable[to], NoLabel)] else []
      ensures Drawn() == EdgeAdded(old(Drawn()), from, to)
    {
      if from in idTable {
        if to in idTable {
          edges := edges + [Edge(idTable[from], idTable[to], NoLabel)];
          return true;
        }
      }
      return false;
    }

    /** `Cfg[E] = Label`. */
    method SetLabel(i: nat, tag: EdgeLabel)
      requires Valid() && i < |edges|
      modifies this`edges
      ensures Valid() && edges == old(edges)[i := old(edges)[i].(tag := tag)]
      ensures Drawn() == EdgeLabelled(old(Drawn()), i, tag)
    {
      assert edges[i] in edges;
      edges := edges[i := edges[i].(tag := tag)];
    }

    /** True whenever both nodes are in the graph, also if nothing was removed. */
    method RemoveEdge(from: Node, to: Node) returns (found: bool)
      requires Valid()
      modifies this
      ensures Valid() && found == (from in idTable && to in idTable)
      ensures idTable == old(idTable) && labels == old(labels)
      ensures edges == if found then Kept(old(edges), Joins(idTable[from], idTable[to])) else old(edges)
      ensures (Drawn(), found) == EdgesRemoved(old(Drawn()), from, to)
    {
      if from in idTable && to in idTable {
        forall e ensures e in Kept(edges, Joins(idTable[from], idTable[to])) ==> e in edges {
          KeptMembers(edges, Joins(idTable[from], idTable[to]), e);
        }
        edges := Kept(edges, Joins(idTable[from], idTable[to]));
        return true;
      }
      return false;
    }

    /** Removes every edge out of `from` with this label, whatever its target:
        the loop restarts after each removal and does not look at the target. */
    method RemoveEdgeLabelled(from: Node, to: Node, tag: EdgeLabel) returns (deleted: bool)
      requires Valid()
      modifies this
      ensures Valid() && idTable == old(idTable) && labels == old(labels)
      ensures from in idTable && to in idTable ==>
                && edges == Kept(old(edges), Leaves(idTable[from], tag))
                && deleted == exists e <- old(edges) :: Leaves(idTable[from], tag)(e)
      ensures !(from in idTable && to in idTable) ==> edges == old(edges) && !deleted
      ensures Drawn() == LabelledRemoved(old(Drawn()), from, to, tag) && deleted == (Drawn() != old(Drawn()))
    {
      var removeCalled := true;
      deleted := false;
      if from !in idTable || to !in idTable {
        return;
      }
      var f := idTable[from];
      ghost var drop := Leaves(f, tag);
      while removeCalled
        invariant Valid() && idTable == old(idTable) && labels == old(labels)
        invariant Kept(edges, drop) == Kept(old(edges), drop)
        invariant deleted ==> exists e <- old(edges) :: drop(e)
        invariant !deleted ==> edges == old(edges)
        invariant !removeCalled ==> forall j :: 0 <= j < |edges| ==> !drop(edges[j])
        invariant forall e <- edges :: e in old(edges)
        decreases |edges|, removeCalled
      {
        removeCalled := false;
        ghost var before := edges;
        var i := 0;
        while i < |edges|
          invariant 0 <= i <= |edges| && edges == before
          invariant forall j :: 0 <= j < i ==> !drop(edges[j])
        {
          if edges[i].from == f && edges[i].tag == tag {
            assert edges[i] in edges;
            KeptWithoutOne(edges, i, drop);
            edges := edges[..i] + edges[i + 1..];
            removeCalled := true;
            deleted := true;
            break;
          }
          i := i + 1;
        }
      }
      NothingDropped(edges, drop);
      KeptChanges(old(edges), drop);
    }
  }

  function Touches(v: Vertex): Edge -> bool {
    (e: Edge) => e.from == v || e.to == v
  }

  lemma EndsTouch(d: Drawing, n: Node)
    requires d.Proper() && n in d.table
    ensures Kept(d.edges, Ends(d.labels, {n})) == Kept(d.edges, Touches(d.table[n]))
  {
    forall i | 0 <= i < |d.edges| ensures Ends(d.labels, {n})(d.edges[i]) == Touches(d.table[n])(d.edges[i]) {
      assert d.edges[i] in d.edges;
    }
    KeptAgree(d.edges, Ends(d.labels, {n}), Touches(d.table[n]));
  }

  function Joins(f: Vertex, t: Vertex): Edge -> bool {
    (e: Edge) => e.from == f && e.to == t
  }

  function Leaves(f: Vertex, tag: EdgeLabel): Edge -> bool {
    (e: Edge) => e.from == f && e.tag == tag
  }

  function JoinsWithLabel(f: Vertex, t: Vertex, tag: EdgeLabel): Edge -> bool {
    (e: Edge) => e.from == f && e.to == t && e.tag == tag
  }

  /** The labelled removal does what its documentation says, removing the edges
      with this label between the two nodes and no others, exactly when every
      edge out of the source with this label goes to the target. */
  lemma LabelledRemovalAsDocumented(es: seq<Edge>, f: Vertex, t: Vertex, tag: EdgeLabel)
    ensures Kept(es, Leaves(f, tag)) == Kept(es, JoinsWithLabel(f, t, tag))
        <==> forall e <- es :: e.from == f && e.tag == tag ==> e.to == t
  {
    if forall e <- es :: e.from == f && e.tag == tag ==> e.to == t {
      KeptAgree(es, Leaves(f, tag), JoinsWithLabel(f, t, tag));
    } else {
      var e :| e in es && e.from == f && e.tag == tag && e.to != t;
      KeptMembers(es, Leaves(f, tag), e);
      KeptMembers(es, JoinsWithLabel(f, t, tag), e);
    }
  }

  /** What the edge operations make of a graph. */
  function EdgeAdded(d: Drawing, from: Node, to: Node): Drawing {
    if from in d.table && to in d.table
    then d.(edges := d.edges + [Edge(d.table[from], d.table[to], NoLabel)]) else d
  }

  function EdgeLabelled(d: Drawing, i: nat, tag: EdgeLabel): Drawing {
    if i < |d.edges| then d.(edges := d.edges[i := d.edges[i].(tag := tag)]) else d
  }

  function LabelledRemoved(d: Drawing, from: Node, to: Node, tag: EdgeLabel): Drawing {
    if from in d.table && to in d.table then d.(edges := Kept(d.edges, Leaves(d.table[from], tag))) else d
  }

  /** Three nodes, and an edge from the first to the last. */
  function OneEdge(from: Node, to: Node, other: Node, tag: EdgeLabel): Drawing {
    Drawing(map[0 := from, 1 := to, 2 := other], map[from := 0, to := 1, other := 2], [Edge(0, 2, tag)])
  }

  /** One edge to another node is enough for it to remove too much: as documented
      it would leave this graph alone. */
  lemma LabelledRemovalGoesTooFar(from: Node, to: Node, other: Node, tag: EdgeLabel)
    requires from != to && to != other && other != from
    ensures var d := OneEdge(from, to, other, tag);
            && d.Proper() && LabelledRemoved(d, from, to, tag) == d.(edges := [])
            && Kept(d.edges, JoinsWithLabel(d.table[from], d.table[to], tag)) == d.edges
  {
    var d := OneEdge(from, to, other, tag);
    assert d.edges[..0] == [] && d.table[from] == 0 && d.table[to] == 1;
    assert Kept(d.edges, Leaves(0, tag)) == [];
  }

  /** With the result it returns, which does not depend on the edges. */
  function EdgesRemoved(d: Drawing, from: Node, to: Node): (Drawing, bool) {
    if from in d.table && to in d.table
    then (d.(edges := Kept(d.edges, Joins(d.table[from], d.table[to]))), true) else (d, false)
  }

  /** The result says, as documented, whether the graph was modified, exactly when
      a node is missing or there is an edge between the two. */
  lemma RemovalTellsOfChange(d: Drawing, from: Node, to: Node)
    ensures var (d', result) := EdgesRemoved(d, from, to);
            (result <==> d' != d)
            <==> (from in d.table && to in d.table ==> exists e <- d.edges :: Joins(d.table[from], d.table[to])(e))
  {
    if from in d.table && to in d.table {
      KeptChanges(d.edges, Joins(d.table[from], d.table[to]));
    }
  }

  /** Two nodes without an edge are enough for it to report a change that did not
      take place. */
  lemma RemovalOfNothingIsReported(from: Node, to: Node)
    requires from != to
    ensures var d := Drawing(map[0 := from, 1 := to], map[from := 0, to := 1], []);
            d.Proper() && EdgesRemoved(d, from, to) == (d, true)
  {
  }
}
