/** The containment tree and its CFGs as values, what must hold of them, and what
    each operation makes of them. */
module Steps {
  import opened Options
  import opened Seals
  import opened ControlFlow
  import opened IntervalMaps
  import opened Levels
  import opened Hierarchy
  import opened Extents
  import opened Tables

  datatype World = World(t: Tables, graphs: map<Ir, Drawing>) {
    function Redrawing(r: Ir, d: Drawing): World {
      this.(graphs := graphs[r := d])
    }
  }

  function VerticesOf(gs: map<Ir, Drawing>): map<Ir, set<Node>> {
    map r <- gs :: gs[r].table.Keys
  }

  ghost predicate AllProper(gs: map<Ir, Drawing>) {
    forall k {:trigger Open(k)} :: k == gs && Open(k) ==> forall r <- gs :: gs[r].Proper()
  }

  /** Parents and children, indexes and extents are right, and each CFG has the
      nodes below its IR for vertices. */
  ghost predicate Sane(w: World) {
    && Sound(w.t, {}) && w.t.modules.Keys == w.graphs.Keys
    && AllProper(w.graphs) && Agree(w.t.Up(), VerticesOf(w.graphs))
  }

  // ------------------------------------------------------- changes to the CFGs

  function Only(home: Option<Ir>, r: Ir, nodes: set<Node>): set<Node> {
    if home == Some(r) then nodes else {}
  }

  /** Nodes have left one IR and joined another, or the same. Edges are lost just
      where they left, and the other IRs' graphs are what they were. */
  ghost predicate Redraws(gs: map<Ir, Drawing>, gs': map<Ir, Drawing>, from: Option<Ir>, gone: set<Node>,
                          to: Option<Ir>, come: set<Node>) {
    forall k {:trigger Open(k)} :: k == gs && Open(k) ==>
      && gs'.Keys == gs.Keys
      && forall r <- gs :: Redrawn(gs[r], gs'[r], Only(from, r, gone), Only(to, r, come))
  }

  lemma NothingRedraws(gs: map<Ir, Drawing>, home: Option<Ir>, nodes: set<Node>)
    requires AllProper(gs) && (home == None || nodes == {})
    ensures Redraws(gs, gs, home, nodes, None, {}) && Redraws(gs, gs, None, {}, home, nodes)
  {
    assert Open(gs);
    forall r <- gs ensures Redrawn(gs[r], gs[r], {}, {}) {
      NotRedrawn(gs[r], {}, {});
    }
  }

  lemma OneRedraws(gs: map<Ir, Drawing>, gs': map<Ir, Drawing>, r: Ir, gone: set<Node>, come: set<Node>)
    requires AllProper(gs) && r in gs && gs'.Keys == gs.Keys && Redrawn(gs[r], gs'[r], gone, come)
    requires forall q <- gs :: q != r ==> gs'[q] == gs[q]
    ensures Redraws(gs, gs', Some(r), gone, Some(r), come)
    ensures come == {} ==> Redraws(gs, gs', Some(r), gone, None, {})
    ensures gone == {} ==> Redraws(gs, gs', None, {}, Some(r), come)
  {
    assert Open(gs);
    forall q <- gs | q != r ensures Redrawn(gs[q], gs'[q], {}, {}) {
      NotRedrawn(gs[q], {}, {});
    }
  }

  lemma RedrawsProperly(gs: map<Ir, Drawing>, gs': map<Ir, Drawing>, from: Option<Ir>, gone: set<Node>,
                        to: Option<Ir>, come: set<Node>)
    requires Redraws(gs, gs', from, gone, to, come)
    ensures AllProper(gs') && gs'.Keys == gs.Keys
  {
    assert Open(gs);
    forall r <- gs' ensures gs'[r].Proper() {
      RedrawnHolds(gs[r], gs'[r], Only(from, r, gone), Only(to, r, come));
    }
  }

  lemma SameMaps<K, V>(m: map<K, V>, n: map<K, V>)
    requires m.Keys == n.Keys && forall k <- m :: m[k] == n[k]
    ensures m == n
  {
  }

  lemma BlankVertices(gs: map<Ir, Drawing>, r: Ir)
    ensures VerticesOf(gs[r := BLANK]) == VerticesOf(gs)[r := {}]
  {
    var after, expected := VerticesOf(gs[r := BLANK]), VerticesOf(gs)[r := {}];
    assert BLANK.table == map[] && after[r] == {};
    SameMaps(after, expected);
  }

  lemma LeaveVertices(gs: map<Ir, Drawing>, gs': map<Ir, Drawing>, home: Option<Ir>, nodes: set<Node>)
    requires Redraws(gs, gs', home, nodes, None, {})
    ensures VerticesOf(gs') == Without(VerticesOf(gs), home, nodes)
  {
    assert Open(gs);
    var after, expected := VerticesOf(gs'), Without(VerticesOf(gs), home, nodes);
    forall r <- gs ensures after[r] == expected[r] {
      RedrawnHolds(gs[r], gs'[r], Only(home, r, nodes), {});
    }
    SameMaps(after, expected);
  }

  lemma JoinVertices(gs: map<Ir, Drawing>, gs': map<Ir, Drawing>, home: Option<Ir>, nodes: set<Node>)
    requires Redraws(gs, gs', None, {}, home, nodes)
    ensures VerticesOf(gs') == With(VerticesOf(gs), home, nodes)
  {
    assert Open(gs);
    var after, expected := VerticesOf(gs'), With(VerticesOf(gs), home, nodes);
    forall r <- gs ensures after[r] == expected[r] {
      RedrawnHolds(gs[r], gs'[r], {}, Only(home, r, nodes));
    }
    SameMaps(after, expected);
  }

  lemma LeaveThenJoin(gs: map<Ir, Drawing>, ms: map<Ir, Drawing>, gs': map<Ir, Drawing>,
                      from: Option<Ir>, gone: set<Node>, to: Option<Ir>, come: set<Node>)
    requires AllProper(gs) && Redraws(gs, ms, from, gone, None, {}) && Redraws(ms, gs', None, {}, to, come)
    ensures Redraws(gs, gs', from, gone, to, come)
  {
    assert Open(gs) && Open(ms);
    forall r <- gs ensures Redrawn(gs[r], gs'[r], Only(from, r, gone), Only(to, r, come)) {
      RedrawnTwice(gs[r], ms[r], gs'[r], Only(from, r, gone), {}, {}, Only(to, r, come));
      assert Only(from, r, gone) + {} == Only(from, r, gone) && {} + Only(to, r, come) == Only(to, r, come);
    }
  }

  lemma LeaveTwice(gs: map<Ir, Drawing>, ms: map<Ir, Drawing>, gs': map<Ir, Drawing>, home: Option<Ir>,
                   gone: set<Node>, gone': set<Node>)
    requires AllProper(gs) && Redraws(gs, ms, home, gone, None, {}) && Redraws(ms, gs', home, gone', None, {})
    ensures Redraws(gs, gs', home, gone + gone', None, {})
  {
    assert Open(gs) && Open(ms);
    forall r <- gs ensures Redrawn(gs[r], gs'[r], Only(home, r, gone + gone'), {}) {
      RedrawnTwice(gs[r], ms[r], gs'[r], Only(home, r, gone), {}, Only(home, r, gone'), {});
      assert Only(home, r, gone) + Only(home, r, gone') == Only(home, r, gone + gone');
    }
  }

  lemma JoinTwice(gs: map<Ir, Drawing>, ms: map<Ir, Drawing>, gs': map<Ir, Drawing>, home: Option<Ir>,
                  come: set<Node>, come': set<Node>)
    requires AllProper(gs) && Redraws(gs, ms, None, {}, home, come) && Redraws(ms, gs', None, {}, home, come')
    ensures Redraws(gs, gs', None, {}, home, come + come')
  {
    assert Open(gs) && Open(ms);
    forall r <- gs ensures Redrawn(gs[r], gs'[r], {}, Only(home, r, come + come')) {
      var none: set<Node> := {};
      RedrawnTwice(gs[r], ms[r], gs'[r], none, Only(home, r, come), none, Only(home, r, come'));
      assert none + none == none;
      assert Only(home, r, come) + Only(home, r, come') == Only(home, r, come + come');
    }
  }

  lemma SaneAfterLeaving(w: World, u: World, home: Option<Ir>, nodes: set<Node>)
    requires Sane(w) && Redraws(w.graphs, u.graphs, home, nodes, None, {})
    requires Sound(u.t, {}) && Agree(u.t.Up(), Without(VerticesOf(w.graphs), home, nodes))
    requires u.t.modules.Keys == w.t.modules.Keys
    ensures Sane(u)
  {
    LeaveVertices(w.graphs, u.graphs, home, nodes);
    RedrawsProperly(w.graphs, u.graphs, home, nodes, None, {});
  }

  lemma SaneAfterJoining(w: World, u: World, home: Option<Ir>, nodes: set<Node>)
    requires Sane(w) && Redraws(w.graphs, u.graphs, None, {}, home, nodes)
    requires Sound(u.t, {}) && Agree(u.t.Up(), With(VerticesOf(w.graphs), home, nodes))
    requires u.t.modules.Keys == w.t.modules.Keys
    ensures Sane(u)
  {
    JoinVertices(w.graphs, u.graphs, home, nodes);
    RedrawsProperly(w.graphs, u.graphs, None, {}, home, nodes);
  }

  // ----------------------------------------------------------- the operations

  function HomeOfBlock(t: Tables, b: Node): Option<Ir> {
    if b in t.blocks.parent then t.Up().OfInterval(t.blocks.parent[b]) else None
  }

  function HomeOfProxy(t: Tables, p: Node): Option<Ir> {
    if p in t.proxyModule then t.Up().OfModule(t.proxyModule[p]) else None
  }

  ghost predicate BlockDrops(w: World, u: World, i: Interval, b: Node) {
    if b !in w.t.blocks.ChildrenOf(i) then u == w
    else u.t == w.t.BlockOut(b, i) && Redraws(w.graphs, u.graphs, w.t.Up().OfInterval(i), Code(b), None, {})
  }

  ghost predicate BlockEnters(w: World, u: World, i: Interval, off: Word, b: Node) {
    && b in w.t.size && u.t == w.t.BlockIn(b, i, off)
    && Redraws(w.graphs, u.graphs, None, {}, w.t.Up().OfInterval(i), Code(b))
  }

  ghost predicate BlockPuts(w: World, u: World, i: Interval, off: Word, b: Node) {
    && b in w.t.size && u.t == w.t.BlockPut(b, i, off)
    && if w.t.blocks.IsChild(b, i) then u.graphs == w.graphs
       else Redraws(w.graphs, u.graphs, HomeOfBlock(w.t, b), Code(b), w.t.Up().OfInterval(i), Code(b))
  }

  lemma BlockIsPut(w: World, m: World, u: World, i: Interval, off: Word, b: Node)
    requires Sane(w) && !w.t.blocks.IsChild(b, i) && BlockEnters(m, u, i, off, b)
    requires if b in w.t.blocks.parent then BlockDrops(w, m, w.t.blocks.parent[b], b) else m == w
    ensures BlockPuts(w, u, i, off, b)
  {
    if b in w.t.blocks.parent {
      BlockIsChild(w.t, b, w.t.blocks.parent[b]);
    } else {
      NothingRedraws(w.graphs, None, Code(b));
    }
    assert m.t.Up().OfInterval(i) == w.t.Up().OfInterval(i);
    LeaveThenJoin(w.graphs, m.graphs, u.graphs, HomeOfBlock(w.t, b), Code(b), w.t.Up().OfInterval(i), Code(b));
  }

  ghost predicate IntervalDrops(w: World, u: World, s: Section, i: Interval) {
    if i !in w.t.intervals.ChildrenOf(s) then u == w
    else
      && u.t.OnlyExtentsDiffer(w.t.IntervalOut(i, s))
      && Redraws(w.graphs, u.graphs, w.t.Up().OfSection(s), w.t.CodeIn(i), None, {})
  }

  ghost predicate IntervalPuts(w: World, u: World, s: Section, i: Interval) {
    if w.t.intervals.IsChild(i, s) then u == w
    else
      && u.t.OnlyExtentsDiffer(w.t.IntervalPut(i, s))
      && Redraws(w.graphs, u.graphs, w.t.Up().OfInterval(i), w.t.CodeIn(i), w.t.Up().OfSection(s), w.t.CodeIn(i))
  }

  ghost predicate IntervalEnters(w: World, u: World, s: Section, i: Interval) {
    && u.t.OnlyExtentsDiffer(w.t.IntervalIn(i, s))
    && Redraws(w.graphs, u.graphs, None, {}, w.t.Up().OfSection(s), w.t.CodeIn(i))
  }

  lemma IntervalIsPut(w: World, m: World, u: World, s: Section, i: Interval)
    requires Sane(w) && !w.t.intervals.IsChild(i, s) && IntervalEnters(m, u, s, i)
    requires if i in w.t.intervals.parent then IntervalDrops(w, m, w.t.intervals.parent[i], i) else m == w
    ensures IntervalPuts(w, u, s, i)
  {
    if i in w.t.intervals.parent {
      IntervalIsChild(w.t, i, w.t.intervals.parent[i]);
    } else {
      NothingRedraws(w.graphs, None, w.t.CodeIn(i));
    }
    assert m.t.CodeIn(i) == w.t.CodeIn(i) && m.t.Up().OfSection(s) == w.t.Up().OfSection(s);
    LeaveThenJoin(w.graphs, m.graphs, u.graphs, w.t.Up().OfInterval(i), w.t.CodeIn(i),
                  w.t.Up().OfSection(s), w.t.CodeIn(i));
  }

  ghost predicate SectionDrops(w: World, u: World, m: Module, s: Section) {
    if s !in w.t.sections.ChildrenOf(m) then u == w
    else
      && u.t == w.t.SectionOut(s, m)
      && Redraws(w.graphs, u.graphs, w.t.Up().OfModule(m), w.t.CodeUnder(s), None, {})
  }

  ghost predicate SectionPuts(w: World, u: World, m: Module, s: Section) {
    if w.t.sections.IsChild(s, m) then u == w
    else
      && u.t == w.t.SectionPut(s, m)
      && Redraws(w.graphs, u.graphs, w.t.Up().OfSection(s), w.t.CodeUnder(s), w.t.Up().OfModule(m), w.t.CodeUnder(s))
  }

  ghost predicate SectionEnters(w: World, u: World, m: Module, s: Section) {
    && u.t == w.t.SectionIn(s, m)
    && Redraws(w.graphs, u.graphs, None, {}, w.t.Up().OfModule(m), w.t.CodeUnder(s))
  }

  lemma SectionIsPut(w: World, v: World, u: World, m: Module, s: Section)
    requires Sane(w) && !w.t.sections.IsChild(s, m) && SectionEnters(v, u, m, s)
    requires if s in w.t.sections.parent then SectionDrops(w, v, w.t.sections.parent[s], s) else v == w
    ensures SectionPuts(w, u, m, s)
  {
    if s in w.t.sections.parent {
      SectionIsChild(w.t, s, w.t.sections.parent[s]);
    } else {
      NothingRedraws(w.graphs, None, w.t.CodeUnder(s));
    }
    assert v.t.CodeUnder(s) == w.t.CodeUnder(s) && v.t.Up().OfModule(m) == w.t.Up().OfModule(m);
    LeaveThenJoin(w.graphs, v.graphs, u.graphs, w.t.Up().OfSection(s), w.t.CodeUnder(s),
                  w.t.Up().OfModule(m), w.t.CodeUnder(s));
  }

  ghost predicate ProxyDrops(w: World, u: World, m: Module, p: Node) {
    if p !in w.t.ProxiesOf(m) then u == w
    else u.t == w.t.ProxyOut(p, m) && Redraws(w.graphs, u.graphs, w.t.Up().OfModule(m), {p}, None, {})
  }

  ghost predicate ProxyPuts(w: World, u: World, m: Module, p: Node) {
    if Find(w.t.proxyModule, p) == Some(m) then u == w
    else
      && u.t == w.t.ProxyPut(p, m)
      && Redraws(w.graphs, u.graphs, HomeOfProxy(w.t, p), {p}, w.t.Up().OfModule(m), {p})
  }

  ghost predicate ProxyEnters(w: World, u: World, m: Module, p: Node) {
    u.t == w.t.ProxyIn(p, m) && Redraws(w.graphs, u.graphs, None, {}, w.t.Up().OfModule(m), {p})
  }

  lemma ProxyIsPut(w: World, v: World, u: World, m: Module, p: Node)
    requires Sane(w) && Find(w.t.proxyModule, p) != Some(m) && ProxyEnters(v, u, m, p)
    requires if p in w.t.proxyModule then ProxyDrops(w, v, w.t.proxyModule[p], p) else v == w
    ensures ProxyPuts(w, u, m, p)
  {
    if p in w.t.proxyModule {
      MirrorsTell(w.t, p, w.t.proxyModule[p], 0);
    } else {
      NothingRedraws(w.graphs, None, {p});
    }
    assert v.t.Up().OfModule(m) == w.t.Up().OfModule(m);
    LeaveThenJoin(w.graphs, v.graphs, u.graphs, HomeOfProxy(w.t, p), {p}, w.t.Up().OfModule(m), {p});
  }

  ghost predicate ModuleDrops(w: World, u: World, r: Ir, m: Module) {
    if m !in w.t.ModulesOf(r) then u == w
    else
      && u.t == w.t.ModuleOut(m, r)
      && Redraws(w.graphs, u.graphs, Some(r), w.t.NodesBelow(m), None, {})
  }

  /** Also within one IR the nodes leave, and with them their edges. */
  ghost predicate ModulePuts(w: World, u: World, r: Ir, m: Module) {
    && u.t == w.t.ModulePut(m, r)
    && Redraws(w.graphs, u.graphs, w.t.Up().OfModule(m), w.t.NodesBelow(m), Some(r), w.t.NodesBelow(m))
  }

  ghost predicate ModuleEnters(w: World, u: World, r: Ir, m: Module) {
    && u.t == w.t.ModuleIn(m, r)
    && Redraws(w.graphs, u.graphs, None, {}, Some(r), w.t.NodesBelow(m))
  }

  lemma ModuleIsPut(w: World, v: World, u: World, r: Ir, m: Module)
    requires Sane(w) && ModuleEnters(v, u, r, m)
    requires if m in w.t.irOf then ModuleDrops(w, v, w.t.irOf[m], m) else v == w
    ensures ModulePuts(w, u, r, m)
  {
    if m in w.t.irOf {
      MirrorsTell(w.t, ProxyBlock(0), m, w.t.irOf[m]);
    } else {
      NothingRedraws(w.graphs, None, w.t.NodesBelow(m));
    }
    assert v.t.NodesBelow(m) == w.t.NodesBelow(m);
    LeaveThenJoin(w.graphs, v.graphs, u.graphs, w.t.Up().OfModule(m), w.t.NodesBelow(m),
                  Some(r), w.t.NodesBelow(m));
  }

  /** Edges may come and go as long as the table of vertices stays. */
  lemma OtherEdges(w: World, gs: map<Ir, Drawing>, r: Ir)
    requires Sane(w) && r in w.graphs && gs.Keys == w.graphs.Keys && forall q <- gs :: q != r ==> gs[q] == w.graphs[q]
    requires gs[r].Proper() && gs[r].table == w.graphs[r].table
    ensures gs == w.Redrawing(r, gs[r]).graphs && Sane(World(w.t, gs))
  {
    assert Open(w.graphs);
    SameMaps(gs, w.graphs[r := gs[r]]);
    SameMaps(VerticesOf(gs), VerticesOf(w.graphs));
  }

  datatype Operation =
    | CreateIr(r: Ir) | CreateModule(m: Module) | CreateSection(s: Section)
    | CreateInterval(i: Interval, p: Place) | CreateBlock(b: Node, n: Word)
    | PutBlock(i: Interval, off: Word, b: Node) | DropBlock(i: Interval, b: Node) | ResizeBlock(b: Node, n: Word)
    | PutInterval(s: Section, i: Interval) | DropInterval(s: Section, i: Interval) | MoveInterval(i: Interval, p: Place)
    | PutSection(m: Module, s: Section) | DropSection(m: Module, s: Section)
    | PutProxy(m: Module, b: Node) | DropProxy(m: Module, b: Node)
    | PutModule(r: Ir, m: Module) | DropModule(r: Ir, m: Module)
    | CreateEdge(r: Ir, source: Node, target: Node) | LabelEdge(r: Ir, k: nat, tag: EdgeLabel)
    | DropEdges(r: Ir, source: Node, target: Node) | DropLabelled(r: Ir, source: Node, target: Node, tag: EdgeLabel)
  {
    predicate Moves() {
      PutBlock? || DropBlock? || PutInterval? || DropInterval? || PutSection? || DropSection?
      || PutProxy? || DropProxy? || PutModule? || DropModule?
    }

    predicate OnEdges() {
      CreateEdge? || LabelEdge? || DropEdges? || DropLabelled?
    }

    /** New nodes are new, and the nodes to be attached or changed exist. */
    predicate Applies(w: World) {
      match this
      case CreateIr(r) => r !in w.t.modules
      case CreateModule(m) => m !in w.t.proxies
      case CreateSection(s) => s !in w.t.sections.span
      case CreateInterval(i, _) => i !in w.t.place
      case CreateBlock(b, _) => b !in w.t.size && !b.ProxyBlock?
      case PutBlock(i, _, b) => b in w.t.size && i in w.t.place
      case ResizeBlock(b, _) => b in w.t.size
      case PutInterval(s, i) => i in w.t.place && s in w.t.sections.span
      case MoveInterval(i, _) => i in w.t.place
      case PutSection(m, s) => s in w.t.sections.span && m in w.t.proxies
      case PutProxy(m, p) => p.ProxyBlock? && m in w.t.proxies
      case PutModule(r, m) => m in w.t.proxies && r in w.t.modules
      case CreateEdge(r, _, _) => r in w.graphs
      case LabelEdge(r, k, _) => r in w.graphs && k < |w.graphs[r].edges|
      case DropEdges(r, _, _) => r in w.graphs
      case DropLabelled(r, _, _, _) => r in w.graphs
      case _ => true
    }

    /** What the operation makes of `w`. */
    ghost predicate Step(w: World, u: World) {
      match this
      case CreateIr(r) => u == World(w.t.NewIr(r), w.graphs[r := BLANK])
      case CreateModule(m) => u == w.(t := w.t.NewModule(m))
      case CreateSection(s) => u == w.(t := w.t.NewSection(s))
      case CreateInterval(i, p) => u == w.(t := w.t.NewInterval(i, p))
      case CreateBlock(b, n) => u == w.(t := w.t.NewBlock(b, n))
      case PutBlock(i, off, b) => BlockPuts(w, u, i, off, b)
      case DropBlock(i, b) => BlockDrops(w, u, i, b)
      case ResizeBlock(b, n) => u == w.(t := w.t.BlockSized(b, n))
      case PutInterval(s, i) => IntervalPuts(w, u, s, i)
      case DropInterval(s, i) => IntervalDrops(w, u, s, i)
      case MoveInterval(i, p) => u.graphs == w.graphs && u.t.OnlyExtentsDiffer(w.t.IntervalAt(i, p))
      case PutSection(m, s) => SectionPuts(w, u, m, s)
      case DropSection(m, s) => SectionDrops(w, u, m, s)
      case PutProxy(m, p) => ProxyPuts(w, u, m, p)
      case DropProxy(m, p) => ProxyDrops(w, u, m, p)
      case PutModule(r, m) => ModulePuts(w, u, r, m)
      case DropModule(r, m) => ModuleDrops(w, u, r, m)
      case CreateEdge(r, f, g) => r in w.graphs && u == w.Redrawing(r, EdgeAdded(w.graphs[r], f, g))
      case LabelEdge(r, k, tag) => r in w.graphs && u == w.Redrawing(r, EdgeLabelled(w.graphs[r], k, tag))
      case DropEdges(r, f, g) => r in w.graphs && u == w.Redrawing(r, EdgesRemoved(w.graphs[r], f, g).0)
      case DropLabelled(r, f, g, tag) => r in w.graphs && u == w.Redrawing(r, LabelledRemoved(w.graphs[r], f, g, tag))
    }
  }

  /** A run: one step for each operation that applies, and none for the others. */
  ghost predicate IsRun(operations: seq<Operation>, trace: seq<World>) {
    && |trace| == |operations| + 1 && trace[0] == World(NOTHING, map[])
    && forall k :: 0 <= k < |operations| ==> Leads(operations[k], trace[k], trace[k + 1])
  }

  ghost predicate Leads(op: Operation, w: World, u: World) {
    if op.Applies(w) then op.Step(w, u) else u == w
  }

  lemma RunGoesOn(operations: seq<Operation>, n: nat, trace: seq<World>, u: World)
    requires n < |operations| && IsRun(operations[..n], trace) && Leads(operations[n], trace[n], u)
    ensures IsRun(operations[..n + 1], trace + [u])
  {
    forall k | 0 <= k <= n ensures Leads(operations[..n + 1][k], (trace + [u])[k], (trace + [u])[k + 1]) {
      if k < n {
        assert Leads(operations[..n][k], trace[k], trace[k + 1]);
      }
    }
  }
}
