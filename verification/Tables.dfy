/** The fields of all nodes of a containment tree, and what every operation
    keeps: parent pointers and collections of children say the same, the address
    indexes find exactly what lies at an address, and sections know their extent. */
module Tables {
  import opened Options
  import opened Seals
  import opened ControlFlow
  import opened IntervalMaps
  import opened Levels
  import opened Hierarchy
  import opened Extents

  datatype Tables = Tables(
    // Blocks in byte intervals, by offset; byte intervals in sections, by
    // address; sections in modules, by extent.
    blocks: Level<Node, Interval>,
    intervals: Level<Interval, Section>,
    sections: Level<Section, Module>,
    // Offset and size of each block, address and size of each interval.
    offset: map<Node, Word>,
    size: map<Node, Word>,
    place: map<Interval, Place>,
    // Proxy blocks in modules, and modules in IRs.
    proxyModule: map<Node, Module>,
    proxies: map<Module, set<Node>>,
    irOf: map<Module, Ir>,
    modules: map<Ir, set<Module>>)
  {
    function Up(): Parents {
      Parents(blocks.parent, intervals.parent, sections.parent, irOf, proxyModule)
    }

    function CodeIn(i: Interval): set<Node> {
      set b | b in blocks.ChildrenOf(i) && b.CodeBlock?
    }

    function CodeUnder(s: Section): set<Node> {
      set i, b | i in intervals.ChildrenOf(s) && b in blocks.ChildrenOf(i) && b.CodeBlock? :: b
    }

    function CodeBelow(m: Module): set<Node> {
      set s, i, b | s in sections.ChildrenOf(m) && i in intervals.ChildrenOf(s)
                    && b in blocks.ChildrenOf(i) && b.CodeBlock? :: b
    }

    function ProxiesOf(m: Module): set<Node> {
      if m in proxies then proxies[m] else {}
    }

    function NodesBelow(m: Module): set<Node> {
      ProxiesOf(m) + CodeBelow(m)
    }

    function ModulesOf(r: Ir): set<Module> {
      if r in modules then modules[r] else {}
    }

    predicate IsBlockAt(b: Node, i: Interval, off: Word) {
      blocks.IsChild(b, i) && b in offset && offset[b] == off
    }

    /** The two differ in nothing but extents, and where they are indexed. */
    predicate OnlyExtentsDiffer(before: Tables) {
      && this == before.(sections := sections) && sections.parent == before.sections.parent
      && sections.span.Keys == before.sections.span.Keys
    }

    // New nodes, which have no parent and no children yet.

    function NewIr(r: Ir): Tables {
      this.(modules := modules[r := {}])
    }

    function NewModule(m: Module): Tables {
      this.(sections := sections.Founded(m), proxies := proxies[m := {}])
    }

    function NewSection(s: Section): Tables {
      this.(intervals := intervals.Founded(s), sections := sections.Respanned(s, None))
    }

    function NewInterval(i: Interval, p: Place): Tables {
      this.(blocks := blocks.Founded(i), intervals := intervals.Respanned(i, p.Covered()), place := place[i := p])
    }

    function NewBlock(b: Node, n: Word): Tables {
      this.(blocks := blocks.Respanned(b, None), size := size[b := n])
    }

    // One step each: what changes in a node, in its parent and in the index.

    function BlockOut(b: Node, i: Interval): Tables {
      this.(blocks := blocks.Detached(b, i), offset := offset - {b})
    }

    function BlockIn(b: Node, i: Interval, off: Word): Tables
      requires b in size
    {
      BlockAt(b, off).(blocks := BlockAt(b, off).blocks.Attached(b, i))
    }

    function BlockAt(b: Node, off: Word): Tables
      requires b in size
    {
      this.(blocks := blocks.Respanned(b, Some(RightOpen(off, size[b]))), offset := offset[b := off])
    }

    /** A block moves to an offset in an interval, from wherever it is. */
    function BlockPut(b: Node, i: Interval, off: Word): Tables
      requires b in size
    {
      if IsBlockAt(b, i, off) then this
      else if blocks.IsChild(b, i) then BlockAt(b, off)
      else if b in blocks.parent then BlockOut(b, blocks.parent[b]).BlockIn(b, i, off)
      else BlockIn(b, i, off)
    }

    function BlockSized(b: Node, n: Word): Tables {
      this.(blocks := if b in offset then blocks.Respanned(b, Some(RightOpen(offset[b], n))) else blocks,
            size := size[b := n])
    }

    function IntervalOut(i: Interval, s: Section): Tables {
      this.(intervals := intervals.Detached(i, s))
    }

    function IntervalIn(i: Interval, s: Section): Tables {
      this.(intervals := intervals.Attached(i, s))
    }

    function IntervalPut(i: Interval, s: Section): Tables {
      (if i in intervals.parent then IntervalOut(i, intervals.parent[i]) else this).IntervalIn(i, s)
    }

    function IntervalAt(i: Interval, p: Place): Tables {
      this.(intervals := intervals.Respanned(i, p.Covered()), place := place[i := p])
    }

    function SectionSpanning(s: Section, e: Option<Range>): Tables {
      this.(sections := sections.Respanned(s, e))
    }

    function SectionOut(s: Section, m: Module): Tables {
      this.(sections := sections.Detached(s, m))
    }

    function SectionIn(s: Section, m: Module): Tables {
      this.(sections := sections.Attached(s, m))
    }

    function SectionPut(s: Section, m: Module): Tables {
      (if s in sections.parent then SectionOut(s, sections.parent[s]) else this).SectionIn(s, m)
    }

    function ProxyOut(p: Node, m: Module): Tables {
      this.(proxyModule := proxyModule - {p}, proxies := proxies[m := ProxiesOf(m) - {p}])
    }

    function ProxyIn(p: Node, m: Module): Tables {
      this.(proxyModule := proxyModule[p := m], proxies := proxies[m := ProxiesOf(m) + {p}])
    }

    function ProxyPut(p: Node, m: Module): Tables {
      (if p in proxyModule then ProxyOut(p, proxyModule[p]) else this).ProxyIn(p, m)
    }

    function ModuleOut(m: Module, r: Ir): Tables {
      this.(irOf := irOf - {m}, modules := modules[r := ModulesOf(r) - {m}])
    }

    function ModuleIn(m: Module, r: Ir): Tables {
      this.(irOf := irOf[m := r], modules := modules[r := ModulesOf(r) + {m}])
    }

    function ModulePut(m: Module, r: Ir): Tables {
      (if m in irOf then ModuleOut(m, irOf[m]) else this).ModuleIn(m, r)
    }
  }

  /** Blocks are indexed where their offset and size put them. */
  ghost predicate BlocksInPlace(blocks: Level<Node, Interval>, offset: map<Node, Word>, size: map<Node, Word>) {
    forall o {:trigger Open(o)} :: o == offset && Open(o) ==>
      && blocks.span.Keys == size.Keys && o.Keys == blocks.parent.Keys <= size.Keys
      && (forall b <- size :: !b.ProxyBlock?)
      && forall b <- o :: blocks.SpanOf(b) == Some(RightOpen(o[b], size[b]))
  }

  /** Byte intervals are indexed where their address and size put them. */
  ghost predicate IntervalsInPlace(intervals: Level<Interval, Section>, place: map<Interval, Place>) {
    forall p {:trigger Open(p)} :: p == place && Open(p) ==>
      && intervals.span.Keys == p.Keys
      && forall i <- p :: intervals.SpanOf(i) == p[i].Covered()
  }

  /** Sections, but for those in `stale`, are where their byte intervals are. */
  ghost predicate SectionsInPlace(span: map<Section, Option<Range>>, intervals: Level<Interval, Section>,
                                  place: map<Interval, Place>, stale: set<Section>) {
    forall e {:trigger Open(e)} :: e == span && Open(e) ==>
      forall s <- e | s !in stale ::
        intervals.ChildrenOf(s) <= place.Keys && IsExtent(e[s], intervals.ChildrenOf(s), place)
  }

  /** Nodes of each kind have all their fields. */
  ghost predicate Complete(t: Tables) {
    && t.blocks.children.Keys == t.place.Keys
    && t.intervals.children.Keys == t.sections.span.Keys
    && t.sections.children.Keys == t.proxies.Keys
    && t.irOf.Keys <= t.proxies.Keys
    && forall p <- t.proxyModule :: p.ProxyBlock?
  }

  /** What holds between operations, and within them but for the extents of
      sections that have yet to be brought up to date. */
  ghost predicate Sound(t: Tables, stale: set<Section>) {
    forall k {:trigger Open(k)} :: k == t && Open(k) ==> Whole(k, stale)
  }

  ghost predicate Whole(t: Tables, stale: set<Section>) {
    && Fits(t.blocks) && Fits(t.intervals) && Fits(t.sections)
    && BlocksInPlace(t.blocks, t.offset, t.size) && IntervalsInPlace(t.intervals, t.place)
    && SectionsInPlace(t.sections.span, t.intervals, t.place, stale)
    && Mirror(t.proxyModule, t.proxies) && Mirror(t.irOf, t.modules) && Complete(t)
  }

  /** Membership in a collection and the parent pointer tell the same. */
  lemma BlockIsChild(t: Tables, b: Node, i: Interval)
    requires Sound(t, {})
    ensures b in t.blocks.ChildrenOf(i) <==> t.blocks.IsChild(b, i)
    ensures b in t.offset <==> b in t.blocks.parent
  {
    assert Open(t) && Open(t.offset);
    ChildIs(t.blocks, b, i);
  }

  lemma IntervalIsChild(t: Tables, i: Interval, s: Section)
    requires Sound(t, {})
    ensures i in t.intervals.ChildrenOf(s) <==> t.intervals.IsChild(i, s)
    ensures i in t.intervals.ChildrenOf(s) ==> s in t.sections.span
  {
    assert Open(t);
    ChildIs(t.intervals, i, s);
  }

  lemma SectionIsChild(t: Tables, s: Section, m: Module)
    requires Sound(t, {})
    ensures s in t.sections.ChildrenOf(m) <==> t.sections.IsChild(s, m)
  {
    assert Open(t);
    ChildIs(t.sections, s, m);
  }

  lemma MirrorsTell(t: Tables, p: Node, m: Module, r: Ir)
    requires Sound(t, {})
    ensures p in t.ProxiesOf(m) <==> p in t.proxyModule && t.proxyModule[p] == m
    ensures m in t.ModulesOf(r) <==> m in t.irOf && t.irOf[m] == r
    ensures m in t.irOf ==> t.irOf[m] in t.modules
  {
    assert Open(t);
  }

  lemma HomesExist(t: Tables, stale: set<Section>)
    requires Sound(t, stale)
    ensures forall m :: t.Up().OfModule(m).Some? ==> t.Up().OfModule(m).value in t.modules
    ensures forall s :: t.Up().OfSection(s).Some? ==> t.Up().OfSection(s).value in t.modules
    ensures forall i :: t.Up().OfInterval(i).Some? ==> t.Up().OfInterval(i).value in t.modules
  {
    assert Open(t);
  }

  /** The blocks that parents enumerate are those that parent pointers lead from. */
  lemma CodeInIs(t: Tables, i: Interval)
    requires Sound(t, {})
    ensures forall n :: n in t.CodeIn(i) <==> t.Up().CodeIn(n, i)
  {
    assert Open(t);
    forall n { ChildIs(t.blocks, n, i); }
  }

  lemma CodeUnderIs(t: Tables, s: Section)
    requires Sound(t, {})
    ensures forall n :: n in t.CodeUnder(s) <==> t.Up().CodeUnder(n, s)
  {
    assert Open(t);
    forall n, i { ChildIs(t.blocks, n, i); }
    forall i { ChildIs(t.intervals, i, s); }
  }

  lemma CodeBelowIs(t: Tables, m: Module)
    requires Sound(t, {})
    ensures forall n :: n in t.CodeBelow(m) <==> t.Up().CodeBelow(n, m)
  {
    assert Open(t);
    forall n, i { ChildIs(t.blocks, n, i); }
    forall i, s { ChildIs(t.intervals, i, s); }
    forall s { ChildIs(t.sections, s, m); }
  }

  // New nodes.

  const NOTHING := Tables(Level(map[], map[], map[], map[]), Level(map[], map[], map[], map[]),
                          Level(map[], map[], map[], map[]), map[], map[], map[], map[], map[], map[], map[])

  lemma NothingIsSound()
    ensures Sound(NOTHING, {}) && Agree(NOTHING.Up(), map[])
  {
  }

  lemma IrIsNew(t: Tables, vertices: map<Ir, set<Node>>, r: Ir)
    requires Sound(t, {}) && Agree(t.Up(), vertices) && r !in t.modules
    ensures Sound(t.NewIr(r), {}) && Agree(t.NewIr(r).Up(), vertices[r := {}])
  {
    assert Open(t) && Open(vertices);
    forall n ensures t.Up().Home(n) != Some(r) {
    }
  }

  lemma ModuleIsNew(t: Tables, m: Module)
    requires Sound(t, {}) && m !in t.proxies
    ensures Sound(t.NewModule(m), {}) && t.NewModule(m).Up() == t.Up()
  {
    assert Open(t);
    FoundedFits(t.sections, m);
  }

  lemma SectionIsNew(t: Tables, s: Section)
    requires Sound(t, {}) && s !in t.sections.span
    ensures Sound(t.NewSection(s), {}) && t.NewSection(s).Up() == t.Up()
  {
    assert Open(t);
    FoundedFits(t.intervals, s);
    RespannedFits(t.sections, s, None);
    assert s !in t.sections.parent by {
      assert Open(t.sections);
    }
    assert IntervalsInPlace(t.intervals.Founded(s), t.place) by {
      assert Open(t.place);
    }
    assert SectionsInPlace(t.sections.span[s := None], t.intervals.Founded(s), t.place, {}) by {
      assert Open(t.sections.span);
    }
  }

  lemma IntervalIsNew(t: Tables, i: Interval, p: Place)
    requires Sound(t, {}) && i !in t.place
    ensures Sound(t.NewInterval(i, p), {}) && t.NewInterval(i, p).Up() == t.Up()
  {
    assert Open(t);
    FoundedFits(t.blocks, i);
    RespannedFits(t.intervals, i, p.Covered());
    assert i !in t.intervals.parent by {
      assert Open(t.intervals) && Open(t.place);
    }
    assert BlocksInPlace(t.blocks.Founded(i), t.offset, t.size) by {
      assert Open(t.offset);
    }
    assert IntervalsInPlace(t.intervals.Respanned(i, p.Covered()), t.place[i := p]) by {
      assert Open(t.place);
    }
    SectionsExtend(t.sections.span, t.intervals, t.place, i, p);
  }

  lemma SectionsExtend(span: map<Section, Option<Range>>, intervals: Level<Interval, Section>,
                       place: map<Interval, Place>, i: Interval, p: Place)
    requires i !in place && i !in intervals.parent && SectionsInPlace(span, intervals, place, {})
    ensures SectionsInPlace(span, intervals.Respanned(i, p.Covered()), place[i := p], {})
  {
    assert Open(span);
    forall s <- span ensures IsExtent(span[s], intervals.ChildrenOf(s), place[i := p]) {
      ExtentStays(span[s], intervals.ChildrenOf(s), place, place[i := p]);
    }
  }

  lemma BlockIsNew(t: Tables, b: Node, n: Word)
    requires Sound(t, {}) && b !in t.size && !b.ProxyBlock?
    ensures Sound(t.NewBlock(b, n), {}) && t.NewBlock(b, n).Up() == t.Up()
  {
    assert Open(t);
    assert b !in t.blocks.parent by {
      assert Open(t.offset);
    }
    RespannedFits(t.blocks, b, None);
    assert BlocksInPlace(t.blocks.Respanned(b, None), t.offset, t.size[b := n]) by {
      assert Open(t.offset);
    }
  }

  // Each step keeps the tables sound, and changes what is below each IR by the
  // nodes that its observers announce.

  lemma InPlaceWithout(blocks: Level<Node, Interval>, offset: map<Node, Word>, size: map<Node, Word>,
                       b: Node, i: Interval)
    requires BlocksInPlace(blocks, offset, size)
    ensures BlocksInPlace(blocks.Detached(b, i), offset - {b}, size)
  {
    assert Open(offset);
  }

  lemma InPlaceWith(blocks: Level<Node, Interval>, offset: map<Node, Word>, size: map<Node, Word>,
                    b: Node, i: Interval, off: Word)
    requires BlocksInPlace(blocks, offset, size) && b in size && b !in blocks.parent
    ensures BlocksInPlace(blocks.Respanned(b, Some(RightOpen(off, size[b]))).Attached(b, i), offset[b := off], size)
  {
    assert Open(offset);
  }

  lemma InPlaceAt(blocks: Level<Node, Interval>, offset: map<Node, Word>, size: map<Node, Word>,
                  b: Node, off: Word, n: Word)
    requires BlocksInPlace(blocks, offset, size) && b in size && b in blocks.parent
    ensures BlocksInPlace(blocks.Respanned(b, Some(RightOpen(off, n))), offset[b := off], size[b := n])
  {
    assert Open(offset);
  }

  lemma InPlaceLoose(blocks: Level<Node, Interval>, offset: map<Node, Word>, size: map<Node, Word>, b: Node, n: Word)
    requires BlocksInPlace(blocks, offset, size) && b in size && b !in offset
    ensures BlocksInPlace(blocks, offset, size[b := n])
  {
    assert Open(offset);
  }

  lemma BlockGoesOut(t: Tables, vertices: map<Ir, set<Node>>, b: Node, i: Interval)
    requires Sound(t, {}) && Agree(t.Up(), vertices) && b in t.blocks.ChildrenOf(i)
    ensures Sound(t.BlockOut(b, i), {})
    ensures Agree(t.BlockOut(b, i).Up(), Without(vertices, t.Up().OfInterval(i), Code(b)))
  {
    assert Open(t);
    DetachedFits(t.blocks, b, i);
    BlockLeaves(t.Up(), vertices, b);
    InPlaceWithout(t.blocks, t.offset, t.size, b, i);
  }

  lemma BlockComesIn(t: Tables, vertices: map<Ir, set<Node>>, b: Node, i: Interval, off: Word)
    requires Sound(t, {}) && Agree(t.Up(), vertices)
    requires b in t.size && b !in t.blocks.parent && i in t.place
    ensures Sound(t.BlockIn(b, i, off), {})
    ensures Agree(t.BlockIn(b, i, off).Up(), With(vertices, t.Up().OfInterval(i), Code(b)))
  {
    assert Open(t);
    var span := Some(RightOpen(off, t.size[b]));
    RespannedFits(t.blocks, b, span);
    AttachedFits(t.blocks.Respanned(b, span), b, i);
    BlockJoins(t.Up(), vertices, b, i);
    InPlaceWith(t.blocks, t.offset, t.size, b, i, off);
  }

  lemma BlockMoves(t: Tables, b: Node, off: Word)
    requires Sound(t, {}) && b in t.size && b in t.blocks.parent
    ensures Sound(t.BlockAt(b, off), {})
  {
    assert Open(t);
    RespannedFits(t.blocks, b, Some(RightOpen(off, t.size[b])));
    InPlaceAt(t.blocks, t.offset, t.size, b, off, t.size[b]);
    assert t.size[b := t.size[b]] == t.size;
  }

  lemma BlockGrows(t: Tables, b: Node, n: Word)
    requires Sound(t, {}) && b in t.size
    ensures Sound(t.BlockSized(b, n), {})
  {
    assert Open(t);
    if b in t.offset {
      RespannedFits(t.blocks, b, Some(RightOpen(t.offset[b], n)));
      assert b in t.blocks.parent by {
        assert Open(t.offset);
      }
      InPlaceAt(t.blocks, t.offset, t.size, b, t.offset[b], n);
      assert t.offset[b := t.offset[b]] == t.offset;
    } else {
      InPlaceLoose(t.blocks, t.offset, t.size, b, n);
    }
  }

  lemma IntervalGoesOut(t: Tables, vertices: map<Ir, set<Node>>, i: Interval, s: Section)
    requires Sound(t, {}) && Agree(t.Up(), vertices) && i in t.intervals.ChildrenOf(s)
    ensures Sound(t.IntervalOut(i, s), {s})
    ensures Agree(t.IntervalOut(i, s).Up(), Without(vertices, t.Up().OfSection(s), t.CodeIn(i)))
  {
    assert Open(t);
    var after := t.intervals.Detached(i, s);
    DetachedFits(t.intervals, i, s);
    CodeInIs(t, i);
    IntervalLeaves(t.Up(), vertices, i, t.CodeIn(i));
    assert IntervalsInPlace(after, t.place) by {
      assert Open(t.place);
    }
    assert SectionsInPlace(t.sections.span, after, t.place, {s}) by {
      assert Open(t.sections.span);
    }
  }

  lemma IntervalComesIn(t: Tables, vertices: map<Ir, set<Node>>, i: Interval, s: Section)
    requires Sound(t, {}) && Agree(t.Up(), vertices)
    requires i in t.place && i !in t.intervals.parent && s in t.sections.span
    ensures Sound(t.IntervalIn(i, s), {s})
    ensures Agree(t.IntervalIn(i, s).Up(), With(vertices, t.Up().OfSection(s), t.CodeIn(i)))
  {
    assert Open(t);
    var after := t.intervals.Attached(i, s);
    assert i in t.intervals.span && IntervalsInPlace(after, t.place) by {
      assert Open(t.place);
    }
    AttachedFits(t.intervals, i, s);
    CodeInIs(t, i);
    IntervalJoins(t.Up(), vertices, i, s, t.CodeIn(i));
    assert SectionsInPlace(t.sections.span, after, t.place, {s}) by {
      assert Open(t.sections.span);
    }
  }

  /** Only the extent of an interval's own section depends on it. */
  lemma SectionsStay(span: map<Section, Option<Range>>, intervals: Level<Interval, Section>,
                     place: map<Interval, Place>, i: Interval, p: Place)
    requires Fits(intervals) && i in place && SectionsInPlace(span, intervals, place, {})
    ensures SectionsInPlace(span, intervals.Respanned(i, p.Covered()), place[i := p],
                            if i in intervals.parent then {intervals.parent[i]} else {})
  {
    assert Open(span);
    forall s <- span | i !in intervals.ChildrenOf(s)
      ensures IsExtent(span[s], intervals.ChildrenOf(s), place[i := p])
    {
      ExtentStays(span[s], intervals.ChildrenOf(s), place, place[i := p]);
    }
    forall s { ChildIs(intervals, i, s); }
  }

  lemma IntervalMoves(t: Tables, i: Interval, p: Place)
    requires Sound(t, {}) && i in t.place
    ensures Sound(t.IntervalAt(i, p), if i in t.intervals.parent then {t.intervals.parent[i]} else {})
  {
    assert Open(t);
    RespannedFits(t.intervals, i, p.Covered());
    assert IntervalsInPlace(t.intervals.Respanned(i, p.Covered()), t.place[i := p]) by {
      assert Open(t.place);
    }
    SectionsStay(t.sections.span, t.intervals, t.place, i, p);
  }

  lemma SectionSpans(t: Tables, s: Section, e: Option<Range>)
    requires Sound(t, {s}) && s in t.sections.span && t.intervals.ChildrenOf(s) <= t.place.Keys
    requires IsExtent(e, t.intervals.ChildrenOf(s), t.place)
    ensures Sound(t.SectionSpanning(s, e), {})
  {
    assert Open(t);
    RespannedFits(t.sections, s, e);
    assert SectionsInPlace(t.sections.span[s := e], t.intervals, t.place, {}) by {
      assert Open(t.sections.span);
    }
  }

  /** A section's address map is that of its intervals' addresses and sizes. */
  lemma SectionKnown(t: Tables, stale: set<Section>, s: Section)
    requires Sound(t, stale) && s in t.sections.span
    ensures t.intervals.ChildrenOf(s) <= t.place.Keys
    ensures Follows(t.intervals.IndexOf(s), CoveredBy(t.intervals.ChildrenOf(s), t.place))
  {
    assert Open(t) && Open(t.intervals) && Open(t.place);
    assert IndexFits(t.intervals, s);
    forall i { ChildIs(t.intervals, i, s); }
    assert Located(t.intervals.ChildrenOf(s), t.intervals.span) == CoveredBy(t.intervals.ChildrenOf(s), t.place);
  }

  lemma SectionSpansAlready(t: Tables, s: Section)
    requires Sound(t, {s}) && s in t.sections.span
    requires Sound(t.SectionSpanning(s, t.sections.span[s]), {})
    ensures Sound(t, {})
  {
    var u := t.SectionSpanning(s, t.sections.span[s]);
    assert Open(t) && Open(u);
    assert u.sections.span == t.sections.span;
  }

  lemma SectionGoesOut(t: Tables, vertices: map<Ir, set<Node>>, s: Section, m: Module)
    requires Sound(t, {}) && Agree(t.Up(), vertices) && s in t.sections.ChildrenOf(m)
    ensures Sound(t.SectionOut(s, m), {})
    ensures Agree(t.SectionOut(s, m).Up(), Without(vertices, t.Up().OfModule(m), t.CodeUnder(s)))
  {
    assert Open(t);
    DetachedFits(t.sections, s, m);
    CodeUnderIs(t, s);
    SectionLeaves(t.Up(), vertices, s, t.CodeUnder(s));
  }

  lemma SectionComesIn(t: Tables, vertices: map<Ir, set<Node>>, s: Section, m: Module)
    requires Sound(t, {}) && Agree(t.Up(), vertices)
    requires s in t.sections.span && s !in t.sections.parent && m in t.proxies
    ensures Sound(t.SectionIn(s, m), {})
    ensures Agree(t.SectionIn(s, m).Up(), With(vertices, t.Up().OfModule(m), t.CodeUnder(s)))
  {
    assert Open(t);
    AttachedFits(t.sections, s, m);
    CodeUnderIs(t, s);
    SectionJoins(t.Up(), vertices, s, m, t.CodeUnder(s));
  }

  lemma ProxyGoesOut(t: Tables, vertices: map<Ir, set<Node>>, p: Node, m: Module)
    requires Sound(t, {}) && Agree(t.Up(), vertices) && p in t.ProxiesOf(m)
    ensures Sound(t.ProxyOut(p, m), {})
    ensures Agree(t.ProxyOut(p, m).Up(), Without(vertices, t.Up().OfModule(m), {p}))
  {
    assert Open(t);
    DetachKeepsMirror(t.proxyModule, t.proxies, p, m);
    ProxyLeaves(t.Up(), vertices, p);
  }

  lemma ProxyComesIn(t: Tables, vertices: map<Ir, set<Node>>, p: Node, m: Module)
    requires Sound(t, {}) && Agree(t.Up(), vertices)
    requires p.ProxyBlock? && p !in t.proxyModule && m in t.proxies
    ensures Sound(t.ProxyIn(p, m), {})
    ensures Agree(t.ProxyIn(p, m).Up(), With(vertices, t.Up().OfModule(m), {p}))
  {
    assert Open(t);
    AttachKeepsMirror(t.proxyModule, t.proxies, p, m);
    ProxyJoins(t.Up(), vertices, p, m);
  }

  lemma ModuleGoesOut(t: Tables, vertices: map<Ir, set<Node>>, m: Module, r: Ir)
    requires Sound(t, {}) && Agree(t.Up(), vertices) && m in t.ModulesOf(r)
    ensures Sound(t.ModuleOut(m, r), {})
    ensures Agree(t.ModuleOut(m, r).Up(),
                  Without(vertices, Some(r), t.NodesBelow(m)))
  {
    assert Open(t);
    DetachKeepsMirror(t.irOf, t.modules, m, r);
    CodeBelowIs(t, m);
    ModuleLeaves(t.Up(), vertices, m, t.ProxiesOf(m), t.CodeBelow(m));
  }

  lemma ModuleComesIn(t: Tables, vertices: map<Ir, set<Node>>, m: Module, r: Ir)
    requires Sound(t, {}) && Agree(t.Up(), vertices)
    requires m in t.proxies && m !in t.irOf && r in t.modules
    ensures Sound(t.ModuleIn(m, r), {})
    ensures Agree(t.ModuleIn(m, r).Up(),
                  With(vertices, Some(r), t.NodesBelow(m)))
  {
    assert Open(t);
    AttachKeepsMirror(t.irOf, t.modules, m, r);
    CodeBelowIs(t, m);
    ModuleJoins(t.Up(), vertices, m, r, t.ProxiesOf(m), t.CodeBelow(m));
  }
}
