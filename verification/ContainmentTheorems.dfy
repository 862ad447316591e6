/** What the invariants of the containment tree mean to its users. */
module ContainmentTheorems {
  import opened Options
  import opened Seals
  import opened Words
  import opened ControlFlow
  import opened IntervalMaps
  import opened Levels
  import opened Hierarchy
  import opened Extents
  import opened Tables
  import opened Steps

  /** The vertices of an IR's CFG are the code blocks and proxy blocks below the
      IR, the vertex table is the inverse of the labelling, and edges run between
      nodes below the IR. */
  lemma CfgHoldsWhatIsBelow(w: World, r: Ir)
    requires Sane(w) && r in w.graphs
    ensures var d := w.graphs[r];
            && (forall n :: n in d.table <==> w.t.Up().Home(n) == Some(r))
            && (forall n, v :: n in d.table && d.table[n] == v <==> v in d.labels && d.labels[v] == n)
            && forall e <- d.edges ::
                 && e.from in d.labels && w.t.Up().Home(d.labels[e.from]) == Some(r)
                 && e.to in d.labels && w.t.Up().Home(d.labels[e.to]) == Some(r)
  {
    var vertices: map<Ir, set<Node>> := VerticesOf(w.graphs);
    assert Open(w.graphs) && Open(vertices);
    assert AreThoseBelow(w.t.Up(), vertices);
    assert vertices[r] == w.graphs[r].table.Keys;
    forall n ensures n in w.graphs[r].table <==> w.t.Up().Home(n) == Some(r) {
      assert n in vertices[r] <==> n in w.graphs[r].table;
    }
  }

  /** When nodes leave one IR and join another, an edge goes just if one of its
      ends leaves the graph the edge is in. The others keep their two ends. */
  lemma EdgesStayWithTheirEnds(gs: map<Ir, Drawing>, gs': map<Ir, Drawing>, from: Option<Ir>, gone: set<Node>,
                               to: Option<Ir>, come: set<Node>, r: Ir, e: Edge)
    requires AllProper(gs) && Redraws(gs, gs', from, gone, to, come) && r in gs
    ensures r in gs' && (e in gs'[r].edges <==>
              && e in gs[r].edges && e.from in gs[r].labels && e.to in gs[r].labels
              && !(from == Some(r) && (gs[r].labels[e.from] in gone || gs[r].labels[e.to] in gone)))
    ensures e in gs'[r].edges ==>
              && e.from in gs'[r].labels && gs'[r].labels[e.from] == gs[r].labels[e.from]
              && e.to in gs'[r].labels && gs'[r].labels[e.to] == gs[r].labels[e.to]
  {
    assert Open(gs);
    var leaving := Only(from, r, gone);
    assert Redrawn(gs[r], gs'[r], leaving, Only(to, r, come)) && Open(gs[r]);
    KeptMembers(gs[r].edges, Ends(gs[r].labels, leaving), e);
    if e in gs'[r].edges {
      SurvivingEnds(gs[r], gs'[r], leaving, Only(to, r, come), e);
    }
  }

  /** A code block that moves from one interval to another has no edges any more,
      even if both are below the same IR. */
  lemma MovedBlockHasNoEdges(w: World, u: World, i: Interval, off: Word, b: Node, r: Ir, e: Edge)
    requires Sane(w) && BlockPuts(w, u, i, off, b) && b.CodeBlock? && !w.t.blocks.IsChild(b, i)
    requires r in u.graphs && e in u.graphs[r].edges
    ensures e.from in u.graphs[r].labels && u.graphs[r].labels[e.from] != b
    ensures e.to in u.graphs[r].labels && u.graphs[r].labels[e.to] != b
  {
    var home := HomeOfBlock(w.t, b);
    assert Open(w.graphs);
    EdgesStayWithTheirEnds(w.graphs, u.graphs, home, Code(b), w.t.Up().OfInterval(i), Code(b), r, e);
    CfgHoldsWhatIsBelow(w, r);
    assert w.t.Up().Home(b) == home;
  }

  /** At every offset `BlockOffsets` has the interval's blocks whose range, as far
      as it does not wrap around, has that offset. */
  lemma OffsetsFindBlocks(t: Tables, i: Interval, k: nat, b: Node)
    requires Sound(t, {})
    ensures t.blocks.IsChild(b, i) ==> b in t.offset && b in t.size
    ensures b in At(t.blocks.IndexOf(i), k)
       <==> t.blocks.IsChild(b, i) && RightOpen(t.offset[b], t.size[b]).Has(k)
  {
    assert Open(t) && Open(t.offset);
    IndexTells(t.blocks, b, i, k);
  }

  lemma AddressesFindIntervals(t: Tables, s: Section, k: nat, i: Interval)
    requires Sound(t, {})
    ensures t.intervals.IsChild(i, s) ==> i in t.place
    ensures i in At(t.intervals.IndexOf(s), k)
       <==> t.intervals.IsChild(i, s) && t.place[i].Covered().Some? && t.place[i].Covered().value.Has(k)
  {
    assert Open(t) && Open(t.place);
    assert t.intervals.IsChild(i, s) ==> i in t.place by {
      assert Open(t.intervals);
    }
    IndexTells(t.intervals, i, s, k);
  }

  lemma AddressesFindSections(t: Tables, m: Module, k: nat, s: Section)
    requires Sound(t, {})
    ensures t.sections.IsChild(s, m) ==> s in t.sections.span
    ensures s in At(t.sections.IndexOf(m), k)
       <==> t.sections.IsChild(s, m) && t.sections.span[s].Some? && t.sections.span[s].value.Has(k)
  {
    assert Open(t);
    assert t.sections.IsChild(s, m) ==> s in t.sections.span by {
      assert Open(t.sections);
    }
    IndexTells(t.sections, s, m, k);
  }

  /** A block is found at every offset it occupies exactly if it is empty or ends
      below 2 to the 64; otherwise it is found at none. */
  lemma BlockIsFoundUnlessItWraps(t: Tables, b: Node, i: Interval)
    requires Sound(t, {}) && t.blocks.IsChild(b, i)
    ensures b in t.offset && b in t.size
    ensures (forall k: nat :: b in At(t.blocks.IndexOf(i), k) <==> t.offset[b] <= k < (t.offset[b] as int) + t.size[b])
       <==> t.size[b] == 0 || t.offset[b] + t.size[b] < WORD
    ensures t.offset[b] + t.size[b] >= WORD ==> forall k: nat :: b !in At(t.blocks.IndexOf(i), k)
  {
    forall k { OffsetsFindBlocks(t, i, k, b); }
    OffsetsFindBlocks(t, i, 0, b);
    var k := t.offset[b];
    assert b in At(t.blocks.IndexOf(i), k) <==> RightOpen(t.offset[b], t.size[b]).Has(k);
  }

  /** A byte interval with an address is found at every address it occupies exactly
      if it is empty or ends below 2 to the 64; otherwise it is found at none. */
  lemma IntervalIsFoundUnlessItWraps(t: Tables, i: Interval, s: Section)
    requires Sound(t, {}) && t.intervals.IsChild(i, s)
    ensures i in t.place
    ensures t.place[i].address.Some? ==>
              ((forall k: nat :: i in At(t.intervals.IndexOf(s), k) <==> t.place[i].Start() <= k < t.place[i].End())
               <==> t.place[i].size == 0 || t.place[i].Ends())
    ensures !t.place[i].Ends() ==> forall k: nat :: i !in At(t.intervals.IndexOf(s), k)
  {
    forall k { AddressesFindIntervals(t, s, k, i); }
    AddressesFindIntervals(t, s, 0, i);
    var p := t.place[i];
    if p.address.Some? {
      assert i in At(t.intervals.IndexOf(s), p.address.value) <==> p.Covered().value.Has(p.address.value);
    }
  }

  /** The extent of a section never wraps around: the section is found at exactly
      the addresses from the lowest of its intervals to the highest `Reach`. */
  lemma SectionIsFoundInItsExtent(t: Tables, s: Section, m: Module)
    requires Sound(t, {}) && t.sections.IsChild(s, m)
    ensures s in t.sections.span
    ensures t.sections.span[s].Some? ==> t.sections.span[s].value.lo <= t.sections.span[s].value.hi < WORD
    ensures t.sections.span[s].Some? ==>
              forall k: nat :: s in At(t.sections.IndexOf(m), k)
                          <==> t.sections.span[s].value.lo <= k < t.sections.span[s].value.hi
  {
    assert Open(t) && Open(t.sections.span);
    forall k { AddressesFindSections(t, m, k, s); }
    AddressesFindSections(t, m, 0, s);
  }

  /** From the lowest start to the highest end. */
  predicate Spans(r: Range, members: set<Interval>, place: map<Interval, Place>)
    requires members <= place.Keys
  {
    && (forall i <- members :: r.lo <= place[i].Start() && place[i].End() <= r.hi)
    && (exists i <- members :: place[i].Start() == r.lo)
    && exists i <- members :: place[i].End() == r.hi
  }

  /** A section has an extent exactly if it has intervals and all of them have an
      address. It runs from the lowest address to the highest end exactly if no
      interval ends at or beyond 2 to the 64. */
  lemma ExtentCoversIntervals(t: Tables, s: Section)
    requires Sound(t, {}) && s in t.sections.span
    ensures t.intervals.ChildrenOf(s) <= t.place.Keys
    ensures t.sections.span[s].None?
       <==> t.intervals.ChildrenOf(s) == {} || exists i <- t.intervals.ChildrenOf(s) :: t.place[i].address.None?
    ensures t.sections.span[s].Some? ==>
              var r, members := t.sections.span[s].value, t.intervals.ChildrenOf(s);
              (Spans(r, members, t.place) <==> forall i <- members :: t.place[i].Ends())
  {
    assert Open(t) && Open(t.sections.span);
    forall i <- t.intervals.ChildrenOf(s) { ReachWithoutWrap(t.place[i]); }
  }

  /** From wherever a block was, moving it changes its parent and its offset, and
      nothing of any other block, interval, section or module. */
  lemma PutMovesOneBlock(t: Tables, b: Node, i: Interval, off: Word)
    requires Sound(t, {}) && b in t.size
    ensures var u := t.BlockPut(b, i, off);
            && u.blocks.parent == t.blocks.parent[b := i] && u.offset == t.offset[b := off]
            && u == t.(blocks := u.blocks, offset := u.offset)
  {
    var u := t.BlockPut(b, i, off);
    BlockIsChild(t, b, i);
    PutBack(t.blocks.parent, b, i);
    PutBack(t.offset, b, off);
  }

  lemma PutBack<K, V>(m: map<K, V>, k: K, v: V)
    ensures (m - {k})[k := v] == m[k := v]
    ensures k in m && m[k] == v ==> m[k := v] == m
  {
  }

  /** Removing a block that was just added gives back all tables, indexes too, but
      for the range the block would be indexed at, of which nothing is left. */
  lemma RemoveUndoesAdd(t: Tables, b: Node, i: Interval, off: Word)
    requires Sound(t, {}) && b in t.size && b !in t.blocks.parent && i in t.place
    ensures var u := t.BlockIn(b, i, off).BlockOut(b, i);
            u == t.(blocks := t.blocks.Respanned(b, Some(RightOpen(off, t.size[b]))))
  {
    assert Open(t);
    var there := t.blocks.Respanned(b, Some(RightOpen(off, t.size[b])));
    RespannedFits(t.blocks, b, Some(RightOpen(off, t.size[b])));
    DetachUndoesAttach(there, b, i);
    BlockIsChild(t, b, i);
    assert t.offset[b := off] - {b} == t.offset;
  }
}
