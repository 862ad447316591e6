/** A simpler view of the containment tree, without collections of children,
    indexes, extents, vertices or tables of vertices: only who is in whom, and
    which edges run between which nodes. What each operation does to the tree and
    its CFGs comes to a change of a map or two here. */
module Flat {
  import opened Options
  import opened Seals
  import opened ControlFlow
  import opened IntervalMaps
  import opened Levels
  import opened Hierarchy
  import opened Extents
  import opened Tables
  import opened Steps

  /** An edge in terms of nodes. */
  datatype Link = Link(from: Node, to: Node, tag: EdgeLabel)

  function Filter(links: seq<Link>, keep: Link -> bool): seq<Link> {
    if links == [] then []
    else Filter(links[..|links| - 1], keep) + if keep(links[|links| - 1]) then [links[|links| - 1]] else []
  }

  datatype Facts = Facts(
    irs: set<Ir>, modules: set<Module>, sections: set<Section>,
    place: map<Interval, Place>, size: map<Node, Word>, offset: map<Node, Word>,
    up: Parents,
    links: map<Ir, seq<Link>>)
  {
    /** Nodes that leave a CFG take their edges along. */
    function Unlinked(leaves: Node -> bool): Facts {
      this.(links := map r <- links :: Filter(links[r], (l: Link) => !leaves(l.from) && !leaves(l.to)))
    }

    function BlockIn(b: Node): Option<Interval> {
      Find(up.interval, b)
    }

    predicate BothBelow(r: Ir, a: Node, b: Node) {
      up.Home(a) == Some(r) && up.Home(b) == Some(r)
    }

    /** New nodes are new, and the nodes to be attached or changed exist. */
    predicate Allows(op: Operation) {
      match op
      case CreateIr(r) => r !in irs
      case CreateModule(m) => m !in modules
      case CreateSection(s) => s !in sections
      case CreateInterval(i, _) => i !in place
      case CreateBlock(b, _) => b !in size && !b.ProxyBlock?
      case PutBlock(i, _, b) => b in size && i in place
      case ResizeBlock(b, _) => b in size
      case PutInterval(s, i) => i in place && s in sections
      case MoveInterval(i, _) => i in place
      case PutSection(m, s) => s in sections && m in modules
      case PutProxy(m, p) => p.ProxyBlock? && m in modules
      case PutModule(r, m) => m in modules && r in irs
      case CreateEdge(r, _, _) => r in irs
      case LabelEdge(r, k, _) => r in irs && r in links && k < |links[r]|
      case DropEdges(r, _, _) => r in irs
      case DropLabelled(r, _, _, _) => r in irs
      case _ => true
    }

    function After(op: Operation): Facts {
      match op
      case CreateIr(r) => this.(irs := irs + {r}, links := links[r := []])
      case CreateModule(m) => this.(modules := modules + {m})
      case CreateSection(s) => this.(sections := sections + {s})
      case CreateInterval(i, p) => this.(place := place[i := p])
      case CreateBlock(b, n) => this.(size := size[b := n])
      case ResizeBlock(b, n) => this.(size := size[b := n])
      case MoveInterval(i, p) => this.(place := place[i := p])
      case PutBlock(i, off, b) =>
        (if BlockIn(b) == Some(i) then this else Unlinked(n => n == b && b.CodeBlock?))
        .(up := up.(interval := up.interval[b := i]), offset := offset[b := off])
      case DropBlock(i, b) =>
        if BlockIn(b) != Some(i) then this
        else Unlinked(n => n == b && b.CodeBlock?).(up := up.(interval := up.interval - {b}), offset := offset - {b})
      case PutInterval(s, i) =>
        if Find(up.section, i) == Some(s) then this
        else Unlinked(n => up.CodeIn(n, i)).(up := up.(section := up.section[i := s]))
      case DropInterval(s, i) =>
        if Find(up.section, i) != Some(s) then this
        else Unlinked(n => up.CodeIn(n, i)).(up := up.(section := up.section - {i}))
      case PutSection(m, s) =>
        if Find(up.mod, s) == Some(m) then this
        else Unlinked(n => up.CodeUnder(n, s)).(up := up.(mod := up.mod[s := m]))
      case DropSection(m, s) =>
        if Find(up.mod, s) != Some(m) then this
        else Unlinked(n => up.CodeUnder(n, s)).(up := up.(mod := up.mod - {s}))
      case PutProxy(m, p) =>
        if Find(up.proxyModule, p) == Some(m) then this
        else Unlinked(n => n == p).(up := up.(proxyModule := up.proxyModule[p := m]))
      case DropProxy(m, p) =>
        if Find(up.proxyModule, p) != Some(m) then this
        else Unlinked(n => n == p).(up := up.(proxyModule := up.proxyModule - {p}))
      case PutModule(r, m) =>
        Unlinked(n => up.CodeBelow(n, m) || up.ProxyOf(n, m)).(up := up.(ir := up.ir[m := r]))
      case DropModule(r, m) =>
        if Find(up.ir, m) != Some(r) then this
        else Unlinked(n => up.CodeBelow(n, m) || up.ProxyOf(n, m)).(up := up.(ir := up.ir - {m}))
      case CreateEdge(r, a, b) =>
        if r in links && BothBelow(r, a, b) then this.(links := links[r := links[r] + [Link(a, b, NoLabel)]]) else this
      case LabelEdge(r, k, tag) =>
        if r in links && k < |links[r]|
        then this.(links := links[r := links[r][k := links[r][k].(tag := tag)]]) else this
      case DropEdges(r, a, b) =>
        if r in links then this.(links := links[r := Filter(links[r], (l: Link) => l.from != a || l.to != b)]) else this
      case DropLabelled(r, a, b, tag) =>
        if r in links && BothBelow(r, a, b)
        then this.(links := links[r := Filter(links[r], (l: Link) => l.from != a || l.tag != tag)]) else this
    }
  }

  const NO_FACTS := Facts({}, {}, {}, map[], map[], map[], Parents(map[], map[], map[], map[], map[]), map[])

  /** What a run comes to. */
  function FlatRun(operations: seq<Operation>): Facts {
    if operations == [] then NO_FACTS
    else
      var before, op := FlatRun(operations[..|operations| - 1]), operations[|operations| - 1];
      if before.Allows(op) then before.After(op) else before
  }

  // ------------------------------------------------ the tree in these terms

  function NodeAt(labels: map<Vertex, Node>, v: Vertex): Node {
    if v in labels then labels[v] else ProxyBlock(0)
  }

  function LinkOf(labels: map<Vertex, Node>, e: Edge): Link {
    Link(NodeAt(labels, e.from), NodeAt(labels, e.to), e.tag)
  }

  function LinksOf(labels: map<Vertex, Node>, es: seq<Edge>): (links: seq<Link>)
    ensures |links| == |es| && forall i :: 0 <= i < |es| ==> links[i] == LinkOf(labels, es[i])
  {
    seq(|es|, i requires 0 <= i < |es| => LinkOf(labels, es[i]))
  }

  function AllLinks(gs: map<Ir, Drawing>): map<Ir, seq<Link>> {
    map r <- gs :: LinksOf(gs[r].labels, gs[r].edges)
  }

  function FactsOf(w: World): Facts {
    Facts(w.t.modules.Keys, w.t.proxies.Keys, w.t.sections.span.Keys, w.t.place, w.t.size, w.t.offset,
          w.t.Up(), AllLinks(w.graphs))
  }

  lemma {:induction false} KeptLinks(labels: map<Vertex, Node>, es: seq<Edge>, drop: Edge -> bool, keep: Link -> bool)
    requires forall i :: 0 <= i < |es| ==> drop(es[i]) != keep(LinkOf(labels, es[i]))
    ensures LinksOf(labels, Kept(es, drop)) == Filter(LinksOf(labels, es), keep)
  {
    if es != [] {
      var n := |es| - 1;
      KeptLinks(labels, es[..n], drop, keep);
      assert LinksOf(labels, es)[..n] == LinksOf(labels, es[..n]);
    }
  }

  lemma SameLinks(labels: map<Vertex, Node>, labels': map<Vertex, Node>, es: seq<Edge>)
    requires forall e <- es :: LinkOf(labels, e) == LinkOf(labels', e)
    ensures LinksOf(labels, es) == LinksOf(labels', es)
  {
    forall i | 0 <= i < |es| ensures LinkOf(labels, es[i]) == LinkOf(labels', es[i]) {
      assert es[i] in es;
    }
  }

  /** A graph from which nodes leave has the links that touch none of them. */
  lemma RedrawnLinks(d: Drawing, d': Drawing, gone: set<Node>, come: set<Node>, leaves: Node -> bool)
    requires d.Proper() && Redrawn(d, d', gone, come) && forall n <- d.table :: leaves(n) <==> n in gone
    ensures LinksOf(d'.labels, d'.edges)
         == Filter(LinksOf(d.labels, d.edges), (l: Link) => !leaves(l.from) && !leaves(l.to))
  {
    assert Open(d);
    forall i | 0 <= i < |d.edges|
      ensures var l := LinkOf(d.labels, d.edges[i]);
              Ends(d.labels, gone)(d.edges[i]) != (!leaves(l.from) && !leaves(l.to))
    {
      assert d.edges[i] in d.edges;
    }
    KeptLinks(d.labels, d.edges, Ends(d.labels, gone), (l: Link) => !leaves(l.from) && !leaves(l.to));
    forall e <- d'.edges ensures LinkOf(d.labels, e) == LinkOf(d'.labels, e) {
      SurvivingEnds(d, d', gone, come, e);
    }
    SameLinks(d.labels, d'.labels, d'.edges);
  }

  /** Nodes that leave are below one IR only, so only its CFG has links to lose. */
  lemma LeavingUnlinks(w: World, gs': map<Ir, Drawing>, from: Option<Ir>, gone: set<Node>, to: Option<Ir>,
                       come: set<Node>, leaves: Node -> bool)
    requires Sane(w) && Redraws(w.graphs, gs', from, gone, to, come)
    requires forall n :: leaves(n) <==> n in gone
    requires forall n <- gone :: w.t.Up().Home(n) == from
    ensures AllLinks(gs') == FactsOf(w).Unlinked(leaves).links
  {
    var vertices: map<Ir, set<Node>> := VerticesOf(w.graphs);
    assert Open(w.graphs) && Open(vertices);
    forall r <- w.graphs ensures r in gs' && AllLinks(gs')[r] == FactsOf(w).Unlinked(leaves).links[r] {
      var d := w.graphs[r];
      forall n <- d.table ensures leaves(n) <==> n in Only(from, r, gone) {
        assert n in vertices[r];
      }
      RedrawnLinks(d, gs'[r], Only(from, r, gone), Only(to, r, come), leaves);
    }
    SameMaps(AllLinks(gs'), FactsOf(w).Unlinked(leaves).links);
  }
}
