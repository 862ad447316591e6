/** The containment tree at work. Every change to it runs up the observers of the
    ancestors, if there are any, so that the address indexes, the section extents
    and the CFG's vertices keep in step. A node without a parent pointer has no
    observer. */
module Containment {
  import opened Options
  import opened Seals
  import opened ControlFlow
  import opened IntervalMaps
  import opened Levels
  import opened Hierarchy
  import opened Extents
  import opened Tables
  import opened Steps
  import opened Flat
  import opened FlatSteps

  datatype ChangeStatus = NoChange | Accepted

  /** What an IR does when its modules announce that nodes leave or join. */
  method RemoveVertices(g: ControlFlowGraph, nodes: set<Node>) returns (status: ChangeStatus)
    requires g.Valid()
    modifies g
    ensures g.Valid() && Redrawn(old(g.Drawn()), g.Drawn(), nodes, {})
    ensures status == if nodes !! old(g.idTable.Keys) then NoChange else Accepted
  {
    ghost var before := g.Drawn();
    var rest := nodes;
    status := NoChange;
    NotRedrawn(before, {}, {});
    assert nodes - rest == {};
    while rest != {}
      invariant rest <= nodes && g.Valid() && Redrawn(before, g.Drawn(), nodes - rest, {})
      invariant status == if nodes - rest !! before.table.Keys then NoChange else Accepted
    {
      var n :| n in rest;
      ghost var there := g.Drawn();
      RedrawnHolds(before, there, nodes - rest, {});
      var modified := g.RemoveVertex(n);
      if modified {
        status := Accepted;
      }
      RedrawnTwice(before, there, g.Drawn(), nodes - rest, {}, {n}, {});
      assert nodes - (rest - {n}) == nodes - rest + {n};
      rest := rest - {n};
    }
    assert nodes - rest == nodes;
  }

  method AddVertices(g: ControlFlowGraph, nodes: set<Node>) returns (status: ChangeStatus)
    requires g.Valid()
    modifies g
    ensures g.Valid() && Redrawn(old(g.Drawn()), g.Drawn(), {}, nodes)
    ensures status == if nodes <= old(g.idTable.Keys) then NoChange else Accepted
  {
    ghost var before := g.Drawn();
    var rest := nodes;
    status := NoChange;
    NotRedrawn(before, {}, {});
    assert nodes - rest == {};
    while rest != {}
      invariant rest <= nodes && g.Valid() && Redrawn(before, g.Drawn(), {}, nodes - rest)
      invariant status == if nodes - rest <= before.table.Keys then NoChange else Accepted
    {
      var n :| n in rest;
      ghost var there := g.Drawn();
      RedrawnHolds(before, there, {}, nodes - rest);
      var v, modified := g.AddVertex(n);
      if modified {
        status := Accepted;
      }
      RedrawnTwice(before, there, g.Drawn(), {}, nodes - rest, {}, {n});
      assert nodes - (rest - {n}) == nodes - rest + {n};
      rest := rest - {n};
    }
    assert nodes - rest == nodes;
  }

  lemma ValuesWith<K, V>(m: map<K, V>, k: K, v: V)
    requires k !in m
    ensures m[k := v].Values == m.Values + {v}
  {
    forall x <- m.Values ensures x in m[k := v].Values {
      var q :| q in m && m[q] == x;
      assert m[k := v][q] == x;
    }
    assert m[k := v][k] == v;
  }

  class Forest {
    var t: Tables
    var cfgs: map<Ir, ControlFlowGraph>

    function Drawings(): map<Ir, Drawing>
      reads `cfgs, cfgs.Values
    {
      map r <- cfgs :: cfgs[r].Drawn()
    }

    function State(): World
      reads this, cfgs.Values
    {
      World(t, Drawings())
    }

    ghost predicate Graphs()
      reads `cfgs, cfgs.Values
    {
      forall c {:trigger Open(c)} :: c == cfgs && Open(c) ==> forall r <- cfgs :: cfgs[r].owner == r && cfgs[r].Valid()
    }

    ghost predicate Valid()
      reads this, cfgs.Values
    {
      Graphs() && Sane(State())
    }

    constructor ()
      ensures Valid() && State() == World(NOTHING, map[]) && cfgs == map[]
    {
      t, cfgs := NOTHING, map[];
      new;
      NothingIsSound();
      assert Drawings() == map[];
    }

    /** What the CFGs hold depends on no table. */
    method Update(to: Tables)
      requires Graphs()
      modifies `t
      ensures t == to && Graphs() && Drawings() == old(Drawings())
    {
      t := to;
    }

    lemma DrawingsAreProper()
      requires Graphs()
      ensures AllProper(Drawings())
    {
      assert Open(cfgs);
    }

    predicate Reaches(home: Option<Ir>)
      reads `cfgs
    {
      home.Some? ==> home.value in cfgs
    }

    // The observer an IR gives its modules, src/IR.cpp.

    method VerticesLeave(r: Ir, nodes: set<Node>) returns (status: ChangeStatus)
      requires r in cfgs && Graphs()
      modifies cfgs[r]
      ensures Graphs() && Redraws(old(Drawings()), Drawings(), Some(r), nodes, None, {})
      ensures status == if nodes !! old(cfgs[r].idTable.Keys) then NoChange else Accepted
    {
      assert Open(cfgs);
      DrawingsAreProper();
      status := RemoveVertices(cfgs[r], nodes);
      OneRedraws(old(Drawings()), Drawings(), r, nodes, {});
    }

    method VerticesJoin(r: Ir, nodes: set<Node>) returns (status: ChangeStatus)
      requires r in cfgs && Graphs()
      modifies cfgs[r]
      ensures Graphs() && Redraws(old(Drawings()), Drawings(), None, {}, Some(r), nodes)
      ensures status == if nodes <= old(cfgs[r].idTable.Keys) then NoChange else Accepted
    {
      assert Open(cfgs);
      DrawingsAreProper();
      status := AddVertices(cfgs[r], nodes);
      OneRedraws(old(Drawings()), Drawings(), r, {}, nodes);
    }

    method NodesLeave(r: Ir, proxies: set<Node>, code: set<Node>)
      requires r in cfgs && Graphs()
      modifies cfgs[r]
      ensures Graphs() && Redraws(old(Drawings()), Drawings(), Some(r), proxies + code, None, {})
    {
      ghost var before := Drawings();
      DrawingsAreProper();
      var _ := VerticesLeave(r, proxies);
      ghost var between := Drawings();
      var _ := VerticesLeave(r, code);
      LeaveTwice(before, between, Drawings(), Some(r), proxies, code);
    }

    method NodesJoin(r: Ir, proxies: set<Node>, code: set<Node>)
      requires r in cfgs && Graphs()
      modifies cfgs[r]
      ensures Graphs() && Redraws(old(Drawings()), Drawings(), None, {}, Some(r), proxies + code)
    {
      ghost var before := Drawings();
      DrawingsAreProper();
      var _ := VerticesJoin(r, proxies);
      ghost var between := Drawings();
      var _ := VerticesJoin(r, code);
      JoinTwice(before, between, Drawings(), Some(r), proxies, code);
    }

    // The observers of modules, sections and intervals pass news on to the next
    // ancestor, if there is one.

    method NodesLeaveModule(m: Module, nodes: set<Node>)
      requires Graphs() && Reaches(t.Up().OfModule(m))
      modifies cfgs.Values
      ensures Graphs() && Redraws(old(Drawings()), Drawings(), t.Up().OfModule(m), nodes, None, {})
    {
      if m in t.irOf {
        var _ := VerticesLeave(t.irOf[m], nodes);
      } else {
        DrawingsAreProper();
        NothingRedraws(Drawings(), None, nodes);
      }
    }

    method NodesJoinModule(m: Module, nodes: set<Node>)
      requires Graphs() && Reaches(t.Up().OfModule(m))
      modifies cfgs.Values
      ensures Graphs() && Redraws(old(Drawings()), Drawings(), None, {}, t.Up().OfModule(m), nodes)
    {
      if m in t.irOf {
        var _ := VerticesJoin(t.irOf[m], nodes);
      } else {
        DrawingsAreProper();
        NothingRedraws(Drawings(), None, nodes);
      }
    }

    method CodeLeavesSection(s: Section, code: set<Node>)
      requires Graphs() && Reaches(t.Up().OfSection(s))
      modifies cfgs.Values
      ensures Graphs() && Redraws(old(Drawings()), Drawings(), t.Up().OfSection(s), code, None, {})
    {
      if s in t.sections.parent {
        NodesLeaveModule(t.sections.parent[s], code);
      } else {
        DrawingsAreProper();
        NothingRedraws(Drawings(), None, code);
      }
    }

    method CodeJoinsSection(s: Section, code: set<Node>)
      requires Graphs() && Reaches(t.Up().OfSection(s))
      modifies cfgs.Values
      ensures Graphs() && Redraws(old(Drawings()), Drawings(), None, {}, t.Up().OfSection(s), code)
    {
      if s in t.sections.parent {
        NodesJoinModule(t.sections.parent[s], code);
      } else {
        DrawingsAreProper();
        NothingRedraws(Drawings(), None, code);
      }
    }

    method CodeLeavesInterval(i: Interval, code: set<Node>)
      requires Graphs() && Reaches(t.Up().OfInterval(i))
      modifies cfgs.Values
      ensures Graphs() && Redraws(old(Drawings()), Drawings(), t.Up().OfInterval(i), code, None, {})
    {
      if i in t.intervals.parent {
        CodeLeavesSection(t.intervals.parent[i], code);
      } else {
        DrawingsAreProper();
        NothingRedraws(Drawings(), None, code);
      }
    }

    method CodeJoinsInterval(i: Interval, code: set<Node>)
      requires Graphs() && Reaches(t.Up().OfInterval(i))
      modifies cfgs.Values
      ensures Graphs() && Redraws(old(Drawings()), Drawings(), None, {}, t.Up().OfInterval(i), code)
    {
      if i in t.intervals.parent {
        CodeJoinsSection(t.intervals.parent[i], code);
      } else {
        DrawingsAreProper();
        NothingRedraws(Drawings(), None, code);
      }
    }

    // New nodes. An IR starts with an empty CFG.

    method NewIr(r: Ir)
      requires Valid() && r !in cfgs
      modifies `t, `cfgs
      ensures Valid() && State() == World(old(t).NewIr(r), old(Drawings())[r := BLANK])
      ensures r in cfgs && cfgs.Values == old(cfgs.Values) + {cfgs[r]} && fresh(cfgs[r])
    {
      ghost var w := State();
      IrIsNew(t, VerticesOf(w.graphs), r);
      NewGraph(r);
      Update(t.NewIr(r));
      DrawingsAreProper();
      BlankVertices(w.graphs, r);
    }

    method NewGraph(r: Ir)
      requires Graphs() && r !in cfgs
      modifies `cfgs
      ensures Graphs() && Drawings() == old(Drawings())[r := BLANK]
      ensures r in cfgs && cfgs.Values == old(cfgs.Values) + {cfgs[r]} && fresh(cfgs[r])
    {
      assert Open(cfgs);
      var g := new ControlFlowGraph(r);
      ValuesWith(cfgs, r, g);
      cfgs := cfgs[r := g];
      SameMaps(Drawings(), old(Drawings())[r := BLANK]);
    }

    method NewModule(m: Module)
      requires Valid() && m !in t.proxies
      modifies `t
      ensures Valid() && State() == old(State()).(t := old(t).NewModule(m))
    {
      ModuleIsNew(t, m);
      Update(t.NewModule(m));
    }

    method NewSection(s: Section)
      requires Valid() && s !in t.sections.span
      modifies `t
      ensures Valid() && State() == old(State()).(t := old(t).NewSection(s))
    {
      SectionIsNew(t, s);
      Update(t.NewSection(s));
    }

    method NewInterval(i: Interval, p: Place)
      requires Valid() && i !in t.place
      modifies `t
      ensures Valid() && State() == old(State()).(t := old(t).NewInterval(i, p))
    {
      IntervalIsNew(t, i, p);
      Update(t.NewInterval(i, p));
    }

    method NewBlock(b: Node, n: Word)
      requires Valid() && b !in t.size && !b.ProxyBlock?
      modifies `t
      ensures Valid() && State() == old(State()).(t := old(t).NewBlock(b, n))
    {
      BlockIsNew(t, b, n);
      Update(t.NewBlock(b, n));
    }

    // Blocks, src/ByteInterval.cpp.

    method RemoveBlock(i: Interval, b: Node) returns (status: ChangeStatus)
      requires Valid()
      modifies `t, cfgs.Values
      ensures Valid() && BlockDrops(old(State()), State(), i, b)
      ensures status == if b in old(t).blocks.ChildrenOf(i) then Accepted else NoChange
    {
      ghost var w := State();
      if b !in t.blocks.ChildrenOf(i) {
        return NoChange;
      }
      BlockGoesOut(t, VerticesOf(w.graphs), b, i);
      HomesExist(t, {});
      if b.CodeBlock? {
        CodeLeavesInterval(i, {b});
      } else {
        NothingRedraws(Drawings(), t.Up().OfInterval(i), {});
      }
      Update(t.BlockOut(b, i));
      SaneAfterLeaving(w, State(), w.t.Up().OfInterval(i), Code(b));
      return Accepted;
    }

    /** Moves a block to an offset in an interval, from wherever it is. Within one
        interval that is no more than a change of offset. */
    method AddBlock(i: Interval, off: Word, b: Node) returns (status: ChangeStatus)
      requires Valid() && b in t.size && i in t.place
      modifies `t, cfgs.Values
      ensures Valid() && BlockPuts(old(State()), State(), i, off, b)
      ensures status == NoChange <==> old(t).IsBlockAt(b, i, off)
    {
      if Find(t.blocks.parent, b) == Some(i) {
        BlockIsChild(t, b, i);
        if off == t.offset[b] {
          return NoChange;
        }
        BlockMoves(t, b, off);
        Update(t.BlockAt(b, off));
        return Accepted;
      }
      AdoptBlock(i, off, b);
      return Accepted;
    }

    method AdoptBlock(i: Interval, off: Word, b: Node)
      requires Valid() && b in t.size && i in t.place && !t.blocks.IsChild(b, i)
      modifies `t, cfgs.Values
      ensures Valid() && BlockPuts(old(State()), State(), i, off, b)
    {
      ghost var w := State();
      if b in t.blocks.parent {
        var former := t.blocks.parent[b];
        BlockIsChild(t, b, former);
        var _ := RemoveBlock(former, b);
      }
      ghost var m := State();
      InsertBlock(i, off, b);
      BlockIsPut(w, m, State(), i, off, b);
    }

    method InsertBlock(i: Interval, off: Word, b: Node)
      requires Valid() && b in t.size && i in t.place && b !in t.blocks.parent
      modifies `t, cfgs.Values
      ensures Valid() && BlockEnters(old(State()), State(), i, off, b)
    {
      ghost var w := State();
      BlockComesIn(t, VerticesOf(w.graphs), b, i, off);
      HomesExist(t, {});
      if b.CodeBlock? {
        CodeJoinsInterval(i, {b});
      } else {
        NothingRedraws(Drawings(), t.Up().OfInterval(i), {});
      }
      Update(t.BlockIn(b, i, off));
      SaneAfterJoining(w, State(), w.t.Up().OfInterval(i), Code(b));
    }

    /** A block's new size reaches the index of its interval. */
    method SetBlockSize(b: Node, n: Word)
      requires Valid() && b in t.size
      modifies `t
      ensures Valid() && State() == old(State()).(t := old(t).BlockSized(b, n)) && t.size == old(t).size[b := n]
    {
      BlockGrows(t, b, n);
      Update(t.BlockSized(b, n));
    }

    // Byte intervals, src/Section.cpp.

    method RemoveByteInterval(s: Section, i: Interval) returns (status: ChangeStatus)
      requires Valid()
      modifies `t, cfgs.Values
      ensures Valid() && IntervalDrops(old(State()), State(), s, i)
      ensures status == if i in old(t).intervals.ChildrenOf(s) then Accepted else NoChange
    {
      ghost var w := State();
      if i !in t.intervals.ChildrenOf(s) {
        return NoChange;
      }
      IntervalGoesOut(t, VerticesOf(w.graphs), i, s);
      IntervalIsChild(t, i, s);
      HomesExist(t, {});
      CodeLeavesSection(s, t.CodeIn(i));
      Update(t.IntervalOut(i, s));
      UpdateExtent(s);
      SaneAfterLeaving(w, State(), w.t.Up().OfSection(s), w.t.CodeIn(i));
      return Accepted;
    }

    /** The extent of a section is computed from the first and the last interval
        in address order and from the last segment of the address map. */
    method UpdateExtent(s: Section)
      requires Sound(t, {s}) && s in t.sections.span && Graphs()
      modifies `t
      ensures Sound(t, {}) && t.OnlyExtentsDiffer(old(t)) && Graphs() && Drawings() == old(Drawings())
    {
      SectionKnown(t, {s}, s);
      var e := ExtentOf(t.intervals.ChildrenOf(s), t.place, t.intervals.IndexOf(s));
      SectionSpans(t, s, e);
      if e != t.sections.span[s] {
        Update(t.SectionSpanning(s, e));
      } else {
        SectionSpansAlready(t, s);
      }
    }

    /** Moves an interval to a section, with its blocks, from wherever it is. */
    method AddByteInterval(s: Section, i: Interval) returns (status: ChangeStatus)
      requires Valid() && i in t.place && s in t.sections.span
      modifies `t, cfgs.Values
      ensures Valid() && IntervalPuts(old(State()), State(), s, i)
      ensures status == NoChange <==> old(t).intervals.IsChild(i, s)
    {
      ghost var w := State();
      var parent := Find(t.intervals.parent, i);
      if parent == Some(s) {
        return NoChange;
      }
      if parent.Some? {
        IntervalIsChild(t, i, parent.value);
        var _ := RemoveByteInterval(parent.value, i);
      }
      ghost var m := State();
      InsertByteInterval(s, i);
      IntervalIsPut(w, m, State(), s, i);
      return Accepted;
    }

    method InsertByteInterval(s: Section, i: Interval)
      requires Valid() && i in t.place && s in t.sections.span && i !in t.intervals.parent
      modifies `t, cfgs.Values
      ensures Valid() && IntervalEnters(old(State()), State(), s, i)
    {
      ghost var w := State();
      IntervalComesIn(t, VerticesOf(w.graphs), i, s);
      HomesExist(t, {});
      CodeJoinsSection(s, t.CodeIn(i));
      Update(t.IntervalIn(i, s));
      UpdateExtent(s);
      SaneAfterJoining(w, State(), w.t.Up().OfSection(s), w.t.CodeIn(i));
    }

    /** A new address, or a new size, reaches the address map and the extent of the
        section, and through them the address map of the module. */
    method SetPlace(i: Interval, p: Place)
      requires Valid() && i in t.place
      modifies `t
      ensures Valid() && t.OnlyExtentsDiffer(old(t).IntervalAt(i, p)) && Drawings() == old(Drawings())
    {
      IntervalMoves(t, i, p);
      if i in t.intervals.parent {
        var s := t.intervals.parent[i];
        IntervalIsChild(t, i, s);
        Update(t.IntervalAt(i, p));
        UpdateExtent(s);
      } else {
        Update(t.IntervalAt(i, p));
      }
    }

    // Sections and proxy blocks, src/Module.cpp.

    method RemoveSection(m: Module, s: Section) returns (status: ChangeStatus)
      requires Valid()
      modifies `t, cfgs.Values
      ensures Valid() && SectionDrops(old(State()), State(), m, s)
      ensures status == if s in old(t).sections.ChildrenOf(m) then Accepted else NoChange
    {
      ghost var w := State();
      if s !in t.sections.ChildrenOf(m) {
        return NoChange;
      }
      SectionGoesOut(t, VerticesOf(w.graphs), s, m);
      HomesExist(t, {});
      NodesLeaveModule(m, t.CodeUnder(s));
      Update(t.SectionOut(s, m));
      SaneAfterLeaving(w, State(), w.t.Up().OfModule(m), w.t.CodeUnder(s));
      return Accepted;
    }

    method AddSection(m: Module, s: Section) returns (status: ChangeStatus)
      requires Valid() && s in t.sections.span && m in t.proxies
      modifies `t, cfgs.Values
      ensures Valid() && SectionPuts(old(State()), State(), m, s)
      ensures status == NoChange <==> old(t).sections.IsChild(s, m)
    {
      ghost var w := State();
      var parent := Find(t.sections.parent, s);
      if parent == Some(m) {
        return NoChange;
      }
      if parent.Some? {
        SectionIsChild(t, s, parent.value);
        var _ := RemoveSection(parent.value, s);
      }
      ghost var v := State();
      InsertSection(m, s);
      SectionIsPut(w, v, State(), m, s);
      return Accepted;
    }

    method InsertSection(m: Module, s: Section)
      requires Valid() && s in t.sections.span && m in t.proxies && s !in t.sections.parent
      modifies `t, cfgs.Values
      ensures Valid() && SectionEnters(old(State()), State(), m, s)
    {
      ghost var w := State();
      SectionComesIn(t, VerticesOf(w.graphs), s, m);
      HomesExist(t, {});
      NodesJoinModule(m, t.CodeUnder(s));
      Update(t.SectionIn(s, m));
      SaneAfterJoining(w, State(), w.t.Up().OfModule(m), w.t.CodeUnder(s));
    }

    method RemoveProxyBlock(m: Module, p: Node) returns (status: ChangeStatus)
      requires Valid()
      modifies `t, cfgs.Values
      ensures Valid() && ProxyDrops(old(State()), State(), m, p)
      ensures status == if p in old(t).ProxiesOf(m) then Accepted else NoChange
    {
      ghost var w := State();
      if p !in t.ProxiesOf(m) {
        return NoChange;
      }
      ProxyGoesOut(t, VerticesOf(w.graphs), p, m);
      HomesExist(t, {});
      NodesLeaveModule(m, {p});
      Update(t.ProxyOut(p, m));
      SaneAfterLeaving(w, State(), w.t.Up().OfModule(m), {p});
      return Accepted;
    }

    method AddProxyBlock(m: Module, p: Node) returns (status: ChangeStatus)
      requires Valid() && p.ProxyBlock? && m in t.proxies
      modifies `t, cfgs.Values
      ensures Valid() && ProxyPuts(old(State()), State(), m, p)
      ensures status == NoChange <==> Find(old(t).proxyModule, p) == Some(m)
    {
      ghost var w := State();
      var parent := Find(t.proxyModule, p);
      if parent == Some(m) {
        return NoChange;
      }
      if parent.Some? {
        MirrorsTell(t, p, parent.value, 0);
        var _ := RemoveProxyBlock(parent.value, p);
      }
      ghost var v := State();
      InsertProxyBlock(m, p);
      ProxyIsPut(w, v, State(), m, p);
      return Accepted;
    }

    method InsertProxyBlock(m: Module, p: Node)
      requires Valid() && p.ProxyBlock? && m in t.proxies && p !in t.proxyModule
      modifies `t, cfgs.Values
      ensures Valid() && ProxyEnters(old(State()), State(), m, p)
    {
      ghost var w := State();
      ProxyComesIn(t, VerticesOf(w.graphs), p, m);
      HomesExist(t, {});
      NodesJoinModule(m, {p});
      Update(t.ProxyIn(p, m));
      SaneAfterJoining(w, State(), w.t.Up().OfModule(m), {p});
    }

    // Modules, include/gtirb/IR.hpp.

    method RemoveModule(r: Ir, m: Module) returns (removed: bool)
      requires Valid()
      modifies `t, cfgs.Values
      ensures Valid() && ModuleDrops(old(State()), State(), r, m)
      ensures removed == (m in old(t).ModulesOf(r))
    {
      ghost var w := State();
      if m !in t.ModulesOf(r) {
        return false;
      }
      ModuleGoesOut(t, VerticesOf(w.graphs), m, r);
      NodesLeave(r, t.ProxiesOf(m), t.CodeBelow(m));
      Update(t.ModuleOut(m, r));
      SaneAfterLeaving(w, State(), Some(r), w.t.NodesBelow(m));
      return true;
    }

    /** Takes a module out of its IR before it is put in, even if that is the same. */
    method AddModule(r: Ir, m: Module)
      requires Valid() && m in t.proxies && r in t.modules
      modifies `t, cfgs.Values
      ensures Valid() && ModulePuts(old(State()), State(), r, m)
    {
      ghost var w := State();
      if m in t.irOf {
        MirrorsTell(t, ProxyBlock(0), m, t.irOf[m]);
        var _ := RemoveModule(t.irOf[m], m);
      }
      ghost var v := State();
      InsertModule(r, m);
      ModuleIsPut(w, v, State(), r, m);
    }

    method InsertModule(r: Ir, m: Module)
      requires Valid() && m in t.proxies && r in t.modules && m !in t.irOf
      modifies `t, cfgs.Values
      ensures Valid() && ModuleEnters(old(State()), State(), r, m)
    {
      ghost var w := State();
      ModuleComesIn(t, VerticesOf(w.graphs), m, r);
      NodesJoin(r, t.ProxiesOf(m), t.CodeBelow(m));
      Update(t.ModuleIn(m, r));
      SaneAfterJoining(w, State(), Some(r), w.t.NodesBelow(m));
    }

    // Edges, src/CFG.cpp.

    /** No two IRs have the same graph. */
    twostate lemma OneGraphChanges(r: Ir)
      requires r in cfgs && old(Graphs()) && unchanged(`cfgs) && cfgs[r].Valid()
      requires forall q <- cfgs | cfgs[q] != cfgs[r] :: unchanged(cfgs[q])
      ensures Graphs() && forall q <- Drawings() | q != r :: Drawings()[q] == old(Drawings())[q]
    {
      assert Open(cfgs);
    }

    method AddEdge(r: Ir, from: Node, to: Node) returns (added: bool)
      requires Valid() && r in cfgs
      modifies cfgs[r]
      ensures Valid() && State() == old(State()).Redrawing(r, EdgeAdded(old(Drawings())[r], from, to))
      ensures added == (from in cfgs[r].idTable && to in cfgs[r].idTable)
    {
      assert Open(cfgs);
      ghost var w := State();
      added := cfgs[r].AddEdge(from, to);
      OneGraphChanges(r);
      OtherEdges(w, Drawings(), r);
    }

    method LabelEdge(r: Ir, k: nat, tag: EdgeLabel)
      requires Valid() && r in cfgs && k < |cfgs[r].edges|
      modifies cfgs[r]
      ensures Valid() && State() == old(State()).Redrawing(r, EdgeLabelled(old(Drawings())[r], k, tag))
    {
      assert Open(cfgs);
      ghost var w := State();
      cfgs[r].SetLabel(k, tag);
      OneGraphChanges(r);
      OtherEdges(w, Drawings(), r);
    }

    method RemoveEdges(r: Ir, from: Node, to: Node) returns (found: bool)
      requires Valid() && r in cfgs
      modifies cfgs[r]
      ensures Valid() && State() == old(State()).Redrawing(r, EdgesRemoved(old(Drawings())[r], from, to).0)
      ensures found == EdgesRemoved(old(Drawings())[r], from, to).1
    {
      assert Open(cfgs);
      ghost var w := State();
      found := cfgs[r].RemoveEdge(from, to);
      OneGraphChanges(r);
      OtherEdges(w, Drawings(), r);
    }

    method RemoveEdgesLabelled(r: Ir, from: Node, to: Node, tag: EdgeLabel) returns (deleted: bool)
      requires Valid() && r in cfgs
      modifies cfgs[r]
      ensures Valid() && State() == old(State()).Redrawing(r, LabelledRemoved(old(Drawings())[r], from, to, tag))
      ensures deleted == (Drawings()[r] != old(Drawings())[r])
    {
      assert Open(cfgs);
      ghost var w := State();
      deleted := cfgs[r].RemoveEdgeLabelled(from, to, tag);
      OneGraphChanges(r);
      OtherEdges(w, Drawings(), r);
    }

    method PerformOnEdges(op: Operation)
      requires Valid() && op.Applies(State()) && op.OnEdges()
      modifies cfgs.Values
      ensures Valid() && op.Step(old(State()), State())
    {
      match op {
        case CreateEdge(r, from, to) => var _ := AddEdge(r, from, to);
        case LabelEdge(r, k, tag) => LabelEdge(r, k, tag);
        case DropEdges(r, from, to) => var _ := RemoveEdges(r, from, to);
        case DropLabelled(r, from, to, tag) => var _ := RemoveEdgesLabelled(r, from, to, tag);
      }
    }

    method PerformOnTree(op: Operation)
      requires Valid() && op.Applies(State()) && !op.CreateIr? && !op.OnEdges()
      modifies `t, cfgs.Values
      ensures Valid() && op.Step(old(State()), State())
    {
      match op {
        case CreateModule(m) => NewModule(m);
        case CreateSection(s) => NewSection(s);
        case CreateInterval(i, p) => NewInterval(i, p);
        case CreateBlock(b, n) => NewBlock(b, n);
        case PutBlock(i, off, b) => var _ := AddBlock(i, off, b);
        case DropBlock(i, b) => var _ := RemoveBlock(i, b);
        case ResizeBlock(b, n) => SetBlockSize(b, n);
        case PutInterval(s, i) => var _ := AddByteInterval(s, i);
        case DropInterval(s, i) => var _ := RemoveByteInterval(s, i);
        case MoveInterval(i, p) => SetPlace(i, p);
        case PutSection(m, s) => var _ := AddSection(m, s);
        case DropSection(m, s) => var _ := RemoveSection(m, s);
        case PutProxy(m, p) => var _ := AddProxyBlock(m, p);
        case DropProxy(m, p) => var _ := RemoveProxyBlock(m, p);
        case PutModule(r, m) => AddModule(r, m);
        case DropModule(r, m) => var _ := RemoveModule(r, m);
      }
    }

    /** Any operation, if it is on nodes there are. */
    method Perform(op: Operation)
      requires Valid()
      modifies this, cfgs.Values
      ensures Valid() && Leads(op, old(State()), State())
      ensures forall g <- cfgs.Values :: g in old(cfgs.Values) || fresh(g)
    {
      if op.Applies(State()) {
        if op.CreateIr? {
          NewIr(op.r);
        } else if op.OnEdges() {
          PerformOnEdges(op);
        } else {
          PerformOnTree(op);
        }
      }
    }
  }

  /** Whatever operations are performed, in whatever order, on nodes there are:
      each does its step, and all invariants hold of every state on the way. */
  method Run(operations: seq<Operation>) returns (forest: Forest, ghost trace: seq<World>)
    ensures forest.Valid() && fresh(forest) && fresh(forest.cfgs.Values)
    ensures IsRun(operations, trace) && trace[|operations|] == forest.State()
    ensures forall k :: 0 <= k < |trace| ==> Sane(trace[k])
    ensures FactsOf(forest.State()) == FlatRun(operations)
  {
    forest := new Forest();
    trace := [forest.State()];
    for k := 0 to |operations|
      invariant forest.Valid() && fresh(forest) && fresh(forest.cfgs.Values)
      invariant IsRun(operations[..k], trace) && trace[k] == forest.State()
      invariant forall j :: 0 <= j < |trace| ==> Sane(trace[j])
    {
      forest.Perform(operations[k]);
      RunGoesOn(operations, k, trace, forest.State());
      trace := trace + [forest.State()];
    }
    assert operations[..|operations|] == operations;
    RunIsFlat(operations, trace);
  }
}
