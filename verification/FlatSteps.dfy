/** Every step of the tree and its CFGs is what the flat view says, and so is every run. */
module FlatSteps {
  import opened Options
  import opened Seals
  import opened ControlFlow
  import opened IntervalMaps
  import opened Levels
  import opened Hierarchy
  import opened Extents
  import opened Tables
  import opened Steps
  import opened ContainmentTheorems
  import opened Flat

  lemma AllowsIsApplies(w: World, op: Operation)
    requires Sane(w)
    ensures FactsOf(w).Allows(op) <==> op.Applies(w)
  {
  }

  // New nodes, and changes of size and place.

  lemma NewIrIsFlat(w: World, r: Ir)
    ensures FactsOf(World(w.t.NewIr(r), w.graphs[r := BLANK])) == FactsOf(w).After(CreateIr(r))
  {
    SameMaps(AllLinks(w.graphs[r := BLANK]), AllLinks(w.graphs)[r := []]);
  }

  lemma NewModuleIsFlat(w: World, m: Module)
    ensures FactsOf(w.(t := w.t.NewModule(m))) == FactsOf(w).After(CreateModule(m))
  {
  }

  lemma NewSectionIsFlat(w: World, s: Section)
    ensures FactsOf(w.(t := w.t.NewSection(s))) == FactsOf(w).After(CreateSection(s))
  {
  }

  lemma NewIntervalIsFlat(w: World, i: Interval, p: Place)
    ensures FactsOf(w.(t := w.t.NewInterval(i, p))) == FactsOf(w).After(CreateInterval(i, p))
  {
  }

  lemma NewBlockIsFlat(w: World, b: Node, n: Word)
    ensures FactsOf(w.(t := w.t.NewBlock(b, n))) == FactsOf(w).After(CreateBlock(b, n))
  {
  }

  lemma ResizeIsFlat(w: World, b: Node, n: Word)
    ensures FactsOf(w.(t := w.t.BlockSized(b, n))) == FactsOf(w).After(ResizeBlock(b, n))
  {
  }

  lemma MoveIsFlat(w: World, u: World, i: Interval, p: Place)
    requires u.graphs == w.graphs && u.t.OnlyExtentsDiffer(w.t.IntervalAt(i, p))
    ensures FactsOf(u) == FactsOf(w).After(MoveInterval(i, p))
  {
  }

  // Nodes that move.

  lemma PutBlockIsFlat(w: World, u: World, i: Interval, off: Word, b: Node)
    requires Sane(w) && BlockPuts(w, u, i, off, b)
    ensures FactsOf(u) == FactsOf(w).After(PutBlock(i, off, b))
  {
    PutMovesOneBlock(w.t, b, i, off);
    if !w.t.blocks.IsChild(b, i) {
      LeavingUnlinks(w, u.graphs, HomeOfBlock(w.t, b), Code(b), w.t.Up().OfInterval(i), Code(b),
                     n => n == b && b.CodeBlock?);
    }
  }

  lemma DropBlockIsFlat(w: World, u: World, i: Interval, b: Node)
    requires Sane(w) && BlockDrops(w, u, i, b)
    ensures FactsOf(u) == FactsOf(w).After(DropBlock(i, b))
  {
    BlockIsChild(w.t, b, i);
    if b in w.t.blocks.ChildrenOf(i) {
      LeavingUnlinks(w, u.graphs, w.t.Up().OfInterval(i), Code(b), None, {}, n => n == b && b.CodeBlock?);
    }
  }

  lemma PutMovesOneInterval(t: Tables, i: Interval, s: Section)
    ensures var u := t.IntervalPut(i, s);
            u == t.(intervals := u.intervals) && u.intervals.parent == t.intervals.parent[i := s]
  {
    PutBack(t.intervals.parent, i, s);
  }

  lemma PutIntervalIsFlat(w: World, u: World, s: Section, i: Interval)
    requires Sane(w) && IntervalPuts(w, u, s, i)
    ensures FactsOf(u) == FactsOf(w).After(PutInterval(s, i))
  {
    PutMovesOneInterval(w.t, i, s);
    if !w.t.intervals.IsChild(i, s) {
      CodeInIs(w.t, i);
      LeavingUnlinks(w, u.graphs, w.t.Up().OfInterval(i), w.t.CodeIn(i), w.t.Up().OfSection(s), w.t.CodeIn(i),
                     n => w.t.Up().CodeIn(n, i));
    }
  }

  lemma DropIntervalIsFlat(w: World, u: World, s: Section, i: Interval)
    requires Sane(w) && IntervalDrops(w, u, s, i)
    ensures FactsOf(u) == FactsOf(w).After(DropInterval(s, i))
  {
    IntervalIsChild(w.t, i, s);
    if i in w.t.intervals.ChildrenOf(s) {
      CodeInIs(w.t, i);
      LeavingUnlinks(w, u.graphs, w.t.Up().OfSection(s), w.t.CodeIn(i), None, {}, n => w.t.Up().CodeIn(n, i));
    }
  }

  lemma PutMovesOneSection(t: Tables, s: Section, m: Module)
    ensures var u := t.SectionPut(s, m);
            && u == t.(sections := u.sections) && u.sections.parent == t.sections.parent[s := m]
            && u.sections.span == t.sections.span
  {
    PutBack(t.sections.parent, s, m);
  }

  lemma PutSectionIsFlat(w: World, u: World, m: Module, s: Section)
    requires Sane(w) && SectionPuts(w, u, m, s)
    ensures FactsOf(u) == FactsOf(w).After(PutSection(m, s))
  {
    PutMovesOneSection(w.t, s, m);
    if !w.t.sections.IsChild(s, m) {
      CodeUnderIs(w.t, s);
      LeavingUnlinks(w, u.graphs, w.t.Up().OfSection(s), w.t.CodeUnder(s), w.t.Up().OfModule(m), w.t.CodeUnder(s),
                     n => w.t.Up().CodeUnder(n, s));
    }
  }

  lemma DropSectionIsFlat(w: World, u: World, m: Module, s: Section)
    requires Sane(w) && SectionDrops(w, u, m, s)
    ensures FactsOf(u) == FactsOf(w).After(DropSection(m, s))
  {
    SectionIsChild(w.t, s, m);
    if s in w.t.sections.ChildrenOf(m) {
      CodeUnderIs(w.t, s);
      LeavingUnlinks(w, u.graphs, w.t.Up().OfModule(m), w.t.CodeUnder(s), None, {}, n => w.t.Up().CodeUnder(n, s));
    }
  }

  lemma PutProxyIsFlat(w: World, u: World, m: Module, p: Node)
    requires Sane(w) && ProxyPuts(w, u, m, p) && p.ProxyBlock? && m in w.t.proxies
    ensures FactsOf(u) == FactsOf(w).After(PutProxy(m, p))
  {
    PutMovesOneProxy(w.t, p, m);
    assert HomeOfProxy(w.t, p) == w.t.Up().Home(p);
    if Find(w.t.proxyModule, p) != Some(m) {
      LeavingUnlinks(w, u.graphs, HomeOfProxy(w.t, p), {p}, w.t.Up().OfModule(m), {p}, n => n == p);
    }
  }

  lemma PutMovesOneProxy(t: Tables, p: Node, m: Module)
    requires Sound(t, {}) && m in t.proxies
    ensures var u := t.ProxyPut(p, m);
            && u == t.(proxyModule := t.proxyModule[p := m], proxies := u.proxies)
            && u.proxies.Keys == t.proxies.Keys
  {
    assert Open(t);
    PutBack(t.proxyModule, p, m);
  }

  lemma PutMovesOneModule(t: Tables, m: Module, r: Ir)
    requires Sound(t, {}) && r in t.modules
    ensures var u := t.ModulePut(m, r);
            u == t.(irOf := t.irOf[m := r], modules := u.modules) && u.modules.Keys == t.modules.Keys
  {
    assert Open(t);
    PutBack(t.irOf, m, r);
  }

  /** The parent of a proxy block is a module there is. */
  lemma KnownModules(w: World, p: Node)
    requires Sane(w)
    ensures p in w.t.proxyModule ==> w.t.proxyModule[p] in w.t.proxies && p.ProxyBlock?
    ensures forall m <- w.t.irOf :: w.t.irOf[m] in w.t.modules
  {
    assert Open(w.t);
  }

  lemma DropProxyIsFlat(w: World, u: World, m: Module, p: Node)
    requires Sane(w) && ProxyDrops(w, u, m, p)
    ensures FactsOf(u) == FactsOf(w).After(DropProxy(m, p))
  {
    MirrorsTell(w.t, p, m, 0);
    KnownModules(w, p);
    if p in w.t.ProxiesOf(m) {
      LeavingUnlinks(w, u.graphs, w.t.Up().OfModule(m), {p}, None, {}, n => n == p);
    }
  }

  lemma BelowModule(w: World, m: Module)
    requires Sane(w)
    ensures forall n :: n in w.t.NodesBelow(m) <==> w.t.Up().CodeBelow(n, m) || w.t.Up().ProxyOf(n, m)
  {
    CodeBelowIs(w.t, m);
    forall n ensures n in w.t.ProxiesOf(m) <==> w.t.Up().ProxyOf(n, m) {
      MirrorsTell(w.t, n, m, 0);
      KnownModules(w, n);
    }
  }

  lemma PutModuleIsFlat(w: World, u: World, r: Ir, m: Module)
    requires Sane(w) && ModulePuts(w, u, r, m) && r in w.t.modules
    ensures FactsOf(u) == FactsOf(w).After(PutModule(r, m))
  {
    PutMovesOneModule(w.t, m, r);
    BelowModule(w, m);
    LeavingUnlinks(w, u.graphs, w.t.Up().OfModule(m), w.t.NodesBelow(m), Some(r), w.t.NodesBelow(m),
                   n => w.t.Up().CodeBelow(n, m) || w.t.Up().ProxyOf(n, m));
  }

  lemma DropModuleIsFlat(w: World, u: World, r: Ir, m: Module)
    requires Sane(w) && ModuleDrops(w, u, r, m)
    ensures FactsOf(u) == FactsOf(w).After(DropModule(r, m))
  {
    MirrorsTell(w.t, ProxyBlock(0), m, r);
    KnownModules(w, ProxyBlock(0));
    if m in w.t.ModulesOf(r) {
      BelowModule(w, m);
      LeavingUnlinks(w, u.graphs, Some(r), w.t.NodesBelow(m), None, {},
                     n => w.t.Up().CodeBelow(n, m) || w.t.Up().ProxyOf(n, m));
    }
  }

  /** The nodes of a CFG are those below its IR. */
  lemma TableIsBelow(w: World, r: Ir)
    requires Sane(w) && r in w.graphs
    ensures w.graphs[r].Proper() && forall n :: n in w.graphs[r].table <==> w.t.Up().Home(n) == Some(r)
  {
    var vertices: map<Ir, set<Node>> := VerticesOf(w.graphs);
    assert Open(w.graphs) && Open(vertices);
    assert vertices[r] == w.graphs[r].table.Keys;
    forall n ensures n in w.graphs[r].table <==> w.t.Up().Home(n) == Some(r) {
      assert n in vertices[r] <==> n in w.graphs[r].table;
    }
  }

  lemma OneCfgIsFlat(w: World, r: Ir, d: Drawing)
    requires r in w.graphs
    ensures FactsOf(w.Redrawing(r, d)) == FactsOf(w).(links := FactsOf(w).links[r := LinksOf(d.labels, d.edges)])
  {
    SameMaps(AllLinks(w.Redrawing(r, d).graphs), FactsOf(w).links[r := LinksOf(d.labels, d.edges)]);
  }

  lemma CreateEdgeIsFlat(w: World, r: Ir, a: Node, b: Node)
    requires Sane(w) && r in w.graphs
    ensures FactsOf(w.Redrawing(r, EdgeAdded(w.graphs[r], a, b))) == FactsOf(w).After(CreateEdge(r, a, b))
  {
    var d := w.graphs[r];
    ProperAt(w, r);
    BothAreBelow(w, r, a, b);
    OneCfgIsFlat(w, r, EdgeAdded(d, a, b));
    AddedLinks(d, a, b);
    PutBack(FactsOf(w).links, r, FactsOf(w).links[r]);
  }

  lemma LabelEdgeIsFlat(w: World, r: Ir, k: nat, tag: EdgeLabel)
    requires r in w.graphs
    ensures FactsOf(w.Redrawing(r, EdgeLabelled(w.graphs[r], k, tag))) == FactsOf(w).After(LabelEdge(r, k, tag))
  {
    var d := w.graphs[r];
    OneCfgIsFlat(w, r, EdgeLabelled(d, k, tag));
    if k < |d.edges| {
      assert LinksOf(d.labels, d.edges[k := d.edges[k].(tag := tag)])
          == LinksOf(d.labels, d.edges)[k := LinkOf(d.labels, d.edges[k]).(tag := tag)];
    }
    PutBack(FactsOf(w).links, r, FactsOf(w).links[r]);
  }

  lemma DropEdgesIsFlat(w: World, r: Ir, a: Node, b: Node)
    requires Sane(w) && r in w.graphs
    ensures FactsOf(w.Redrawing(r, EdgesRemoved(w.graphs[r], a, b).0)) == FactsOf(w).After(DropEdges(r, a, b))
  {
    ProperAt(w, r);
    OneCfgIsFlat(w, r, EdgesRemoved(w.graphs[r], a, b).0);
    DroppedLinks(w.graphs[r], a, b);
    AfterDropEdges(FactsOf(w), r, a, b);
  }

  lemma AfterDropEdges(f: Facts, r: Ir, a: Node, b: Node)
    requires r in f.links
    ensures f.After(DropEdges(r, a, b))
         == f.(links := f.links[r := Filter(f.links[r], (l: Link) => l.from != a || l.to != b)])
  {
  }

  lemma ProperAt(w: World, r: Ir)
    requires Sane(w) && r in w.graphs
    ensures w.graphs[r].Proper() && FactsOf(w).links[r] == LinksOf(w.graphs[r].labels, w.graphs[r].edges)
  {
    assert Open(w.graphs);
  }

  lemma DropLabelledIsFlat(w: World, r: Ir, a: Node, b: Node, tag: EdgeLabel)
    requires Sane(w) && r in w.graphs
    ensures FactsOf(w.Redrawing(r, LabelledRemoved(w.graphs[r], a, b, tag)))
         == FactsOf(w).After(DropLabelled(r, a, b, tag))
  {
    var d := w.graphs[r];
    ProperAt(w, r);
    BothAreBelow(w, r, a, b);
    OneCfgIsFlat(w, r, LabelledRemoved(d, a, b, tag));
    DroppedLabelledLinks(d, a, b, tag);
    PutBack(FactsOf(w).links, r, FactsOf(w).links[r]);
  }

  lemma BothAreBelow(w: World, r: Ir, a: Node, b: Node)
    requires Sane(w) && r in w.graphs
    ensures FactsOf(w).BothBelow(r, a, b) <==> a in w.graphs[r].table && b in w.graphs[r].table
  {
    TableIsBelow(w, r);
  }

  lemma EdgesAreFlat(w: World, u: World, op: Operation)
    requires Sane(w) && op.Applies(w) && op.Step(w, u) && op.OnEdges()
    ensures FactsOf(u) == FactsOf(w).After(op)
  {
    match op
    case CreateEdge(r, a, b) => CreateEdgeIsFlat(w, r, a, b);
    case LabelEdge(r, k, tag) => LabelEdgeIsFlat(w, r, k, tag);
    case DropEdges(r, a, b) => DropEdgesIsFlat(w, r, a, b);
    case DropLabelled(r, a, b, tag) => DropLabelledIsFlat(w, r, a, b, tag);
  }

  lemma MovesAreFlat(w: World, u: World, op: Operation)
    requires Sane(w) && op.Applies(w) && op.Step(w, u) && op.Moves()
    ensures FactsOf(u) == FactsOf(w).After(op)
  {
    match op
    case PutBlock(i, off, b) => PutBlockIsFlat(w, u, i, off, b);
    case DropBlock(i, b) => DropBlockIsFlat(w, u, i, b);
    case PutInterval(s, i) => PutIntervalIsFlat(w, u, s, i);
    case DropInterval(s, i) => DropIntervalIsFlat(w, u, s, i);
    case PutSection(m, s) => PutSectionIsFlat(w, u, m, s);
    case DropSection(m, s) => DropSectionIsFlat(w, u, m, s);
    case PutProxy(m, p) => PutProxyIsFlat(w, u, m, p);
    case DropProxy(m, p) => DropProxyIsFlat(w, u, m, p);
    case PutModule(r, m) => PutModuleIsFlat(w, u, r, m);
    case DropModule(r, m) => DropModuleIsFlat(w, u, r, m);
  }

  lemma OthersAreFlat(w: World, u: World, op: Operation)
    requires op.Step(w, u) && !op.OnEdges() && !op.Moves()
    ensures FactsOf(u) == FactsOf(w).After(op)
  {
    match op
    case CreateIr(r) => NewIrIsFlat(w, r);
    case CreateModule(m) => NewModuleIsFlat(w, m);
    case CreateSection(s) => NewSectionIsFlat(w, s);
    case CreateInterval(i, p) => NewIntervalIsFlat(w, i, p);
    case CreateBlock(b, n) => NewBlockIsFlat(w, b, n);
    case ResizeBlock(b, n) => ResizeIsFlat(w, b, n);
    case MoveInterval(i, p) => MoveIsFlat(w, u, i, p);
  }

  lemma AddedLinks(d: Drawing, a: Node, b: Node)
    requires d.Proper()
    ensures var d' := EdgeAdded(d, a, b);
            LinksOf(d'.labels, d'.edges)
            == LinksOf(d.labels, d.edges) + if a in d.table && b in d.table then [Link(a, b, NoLabel)] else []
  {
    if a in d.table && b in d.table {
      LinksOfOneMore(d.labels, d.edges, Edge(d.table[a], d.table[b], NoLabel));
    }
  }

  lemma LinksOfOneMore(labels: map<Vertex, Node>, es: seq<Edge>, e: Edge)
    ensures LinksOf(labels, es + [e]) == LinksOf(labels, es) + [LinkOf(labels, e)]
  {
  }

  lemma DroppedLinks(d: Drawing, a: Node, b: Node)
    requires d.Proper()
    ensures var d' := EdgesRemoved(d, a, b).0;
            LinksOf(d'.labels, d'.edges) == Filter(LinksOf(d.labels, d.edges), (l: Link) => l.from != a || l.to != b)
  {
    var drop: Edge -> bool :=
      if a in d.table && b in d.table then Joins(d.table[a], d.table[b]) else (e: Edge) => false;
    forall i | 0 <= i < |d.edges|
      ensures var l := LinkOf(d.labels, d.edges[i]); drop(d.edges[i]) != (l.from != a || l.to != b)
    {
      assert d.edges[i] in d.edges;
    }
    KeptLinks(d.labels, d.edges, drop, (l: Link) => l.from != a || l.to != b);
    if a !in d.table || b !in d.table {
      NothingDropped(d.edges, drop);
    }
  }

  lemma DroppedLabelledLinks(d: Drawing, a: Node, b: Node, tag: EdgeLabel)
    requires d.Proper()
    ensures var d' := LabelledRemoved(d, a, b, tag);
            LinksOf(d'.labels, d'.edges)
            == if a in d.table && b in d.table
               then Filter(LinksOf(d.labels, d.edges), (l: Link) => l.from != a || l.tag != tag)
               else LinksOf(d.labels, d.edges)
  {
    if a in d.table && b in d.table {
      forall i | 0 <= i < |d.edges|
        ensures var l := LinkOf(d.labels, d.edges[i]);
                Leaves(d.table[a], tag)(d.edges[i]) != (l.from != a || l.tag != tag)
      {
        assert d.edges[i] in d.edges;
      }
      KeptLinks(d.labels, d.edges, Leaves(d.table[a], tag), (l: Link) => l.from != a || l.tag != tag);
    }
  }

  /** What an operation makes of the tree and its CFGs is what it makes of the facts. */
  lemma StepIsFlat(w: World, u: World, op: Operation)
    requires Sane(w) && op.Applies(w) && op.Step(w, u)
    ensures FactsOf(u) == FactsOf(w).After(op)
  {
    if op.OnEdges() {
      EdgesAreFlat(w, u, op);
    } else if op.Moves() {
      MovesAreFlat(w, u, op);
    } else {
      OthersAreFlat(w, u, op);
    }
  }

  lemma LeadsIsFlat(w: World, u: World, op: Operation)
    requires Sane(w) && Leads(op, w, u)
    ensures FactsOf(u) == if FactsOf(w).Allows(op) then FactsOf(w).After(op) else FactsOf(w)
  {
    AllowsIsApplies(w, op);
    if op.Applies(w) {
      StepIsFlat(w, u, op);
    }
  }

  /** And so for whole runs. */
  lemma {:induction false} RunIsFlat(operations: seq<Operation>, trace: seq<World>)
    requires IsRun(operations, trace) && forall k :: 0 <= k < |trace| ==> Sane(trace[k])
    ensures FactsOf(trace[|operations|]) == FlatRun(operations)
  {
    if operations == [] {
      assert AllLinks(map[]) == map[];
    } else {
      var n := |operations| - 1;
      forall k | 0 <= k < n ensures Leads(operations[..n][k], trace[..n + 1][k], trace[..n + 1][k + 1]) {
        assert Leads(operations[k], trace[k], trace[k + 1]);
      }
      RunIsFlat(operations[..n], trace[..n + 1]);
      assert Leads(operations[n], trace[n], trace[n + 1]);
      LeadsIsFlat(trace[n], trace[n + 1], operations[n]);
    }
  }
}
