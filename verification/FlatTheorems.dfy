/** Whatever else there is in the tree follows from the flat view of it. */
module FlatTheorems {
  import opened Options
  import opened Seals
  import opened ControlFlow
  import opened IntervalMaps
  import opened Levels
  import opened Hierarchy
  import opened Extents
  import opened Tables
  import opened Steps
  import opened ContainmentTheorems
  import opened Flat
  import opened FlatSteps

  /** The same parents, places, sizes and offsets. */
  predicate Alike(t: Tables, u: Tables) {
    && t.blocks.parent == u.blocks.parent && t.intervals.parent == u.intervals.parent
    && t.sections.parent == u.sections.parent && t.proxyModule == u.proxyModule && t.irOf == u.irOf
    && t.place == u.place && t.size == u.size && t.offset == u.offset
  }

  lemma SameFactsAreAlike(w: World, u: World)
    requires FactsOf(w) == FactsOf(u)
    ensures Alike(w.t, u.t)
  {
    assert w.t.Up() == FactsOf(w).up && u.t.Up() == FactsOf(u).up;
  }

  lemma ChildrenFollow(t: Tables, u: Tables)
    requires Sound(t, {}) && Sound(u, {}) && Alike(t, u)
    ensures forall i :: t.blocks.ChildrenOf(i) == u.blocks.ChildrenOf(i)
    ensures forall s :: t.intervals.ChildrenOf(s) == u.intervals.ChildrenOf(s)
    ensures forall m :: t.sections.ChildrenOf(m) == u.sections.ChildrenOf(m)
  {
    forall i, b ensures b in t.blocks.ChildrenOf(i) <==> b in u.blocks.ChildrenOf(i) {
      BlockIsChild(t, b, i);
      BlockIsChild(u, b, i);
    }
    forall s, i ensures i in t.intervals.ChildrenOf(s) <==> i in u.intervals.ChildrenOf(s) {
      IntervalIsChild(t, i, s);
      IntervalIsChild(u, i, s);
    }
    forall m, s ensures s in t.sections.ChildrenOf(m) <==> s in u.sections.ChildrenOf(m) {
      SectionIsChild(t, s, m);
      SectionIsChild(u, s, m);
    }
  }

  lemma MirrorsFollow(t: Tables, u: Tables)
    requires Sound(t, {}) && Sound(u, {}) && Alike(t, u)
    ensures forall m :: t.ProxiesOf(m) == u.ProxiesOf(m)
    ensures forall r :: t.ModulesOf(r) == u.ModulesOf(r)
  {
    forall m, p ensures p in t.ProxiesOf(m) <==> p in u.ProxiesOf(m) {
      MirrorsTell(t, p, m, 0);
      MirrorsTell(u, p, m, 0);
    }
    forall r, m ensures m in t.ModulesOf(r) <==> m in u.ModulesOf(r) {
      MirrorsTell(t, ProxyBlock(0), m, r);
      MirrorsTell(u, ProxyBlock(0), m, r);
    }
  }

  lemma ExtentFollows(t: Tables, u: Tables, s: Section)
    requires Sound(t, {}) && Sound(u, {}) && Alike(t, u) && s in t.sections.span && s in u.sections.span
    ensures t.sections.span[s] == u.sections.span[s]
  {
    ChildrenFollow(t, u);
    assert Open(t) && Open(t.sections.span) && Open(u) && Open(u.sections.span);
    ExtentIsUnique(t.sections.span[s], u.sections.span[s], t.intervals.ChildrenOf(s), t.place);
  }

  lemma OffsetsFollow(t: Tables, u: Tables, i: Interval, k: nat)
    requires Sound(t, {}) && Sound(u, {}) && Alike(t, u)
    ensures At(t.blocks.IndexOf(i), k) == At(u.blocks.IndexOf(i), k)
  {
    forall b ensures b in At(t.blocks.IndexOf(i), k) <==> b in At(u.blocks.IndexOf(i), k) {
      OffsetsFindBlocks(t, i, k, b);
      OffsetsFindBlocks(u, i, k, b);
    }
  }

  lemma AddressesFollow(t: Tables, u: Tables, s: Section, m: Module, k: nat)
    requires Sound(t, {}) && Sound(u, {}) && Alike(t, u) && t.sections.span == u.sections.span
    ensures At(t.intervals.IndexOf(s), k) == At(u.intervals.IndexOf(s), k)
    ensures At(t.sections.IndexOf(m), k) == At(u.sections.IndexOf(m), k)
  {
    forall i ensures i in At(t.intervals.IndexOf(s), k) <==> i in At(u.intervals.IndexOf(s), k) {
      AddressesFindIntervals(t, s, k, i);
      AddressesFindIntervals(u, s, k, i);
    }
    forall q ensures q in At(t.sections.IndexOf(m), k) <==> q in At(u.sections.IndexOf(m), k) {
      AddressesFindSections(t, m, k, q);
      AddressesFindSections(u, m, k, q);
    }
  }

  /** Collections of children, extents, the three address indexes, and the nodes of
      each CFG are decided by the facts. */
  lemma FactsDecide(w: World, u: World)
    requires Sane(w) && Sane(u) && FactsOf(w) == FactsOf(u)
    ensures forall i :: w.t.blocks.ChildrenOf(i) == u.t.blocks.ChildrenOf(i)
    ensures forall s :: w.t.intervals.ChildrenOf(s) == u.t.intervals.ChildrenOf(s)
    ensures forall m :: w.t.sections.ChildrenOf(m) == u.t.sections.ChildrenOf(m)
    ensures forall m :: w.t.ProxiesOf(m) == u.t.ProxiesOf(m)
    ensures forall r :: w.t.ModulesOf(r) == u.t.ModulesOf(r)
    ensures w.t.sections.span == u.t.sections.span
    ensures forall i, k: nat :: At(w.t.blocks.IndexOf(i), k) == At(u.t.blocks.IndexOf(i), k)
    ensures forall s, k: nat :: At(w.t.intervals.IndexOf(s), k) == At(u.t.intervals.IndexOf(s), k)
    ensures forall m, k: nat :: At(w.t.sections.IndexOf(m), k) == At(u.t.sections.IndexOf(m), k)
    ensures forall r <- w.graphs :: r in u.graphs && w.graphs[r].table.Keys == u.graphs[r].table.Keys
  {
    SameFactsAreAlike(w, u);
    ChildrenFollow(w.t, u.t);
    MirrorsFollow(w.t, u.t);
    assert w.t.sections.span.Keys == FactsOf(w).sections == u.t.sections.span.Keys;
    forall s <- w.t.sections.span {
      ExtentFollows(w.t, u.t, s);
    }
    SameMaps(w.t.sections.span, u.t.sections.span);
    forall i, k: nat {
      OffsetsFollow(w.t, u.t, i, k);
    }
    forall s, m, k: nat
      ensures At(w.t.intervals.IndexOf(s), k) == At(u.t.intervals.IndexOf(s), k)
      ensures At(w.t.sections.IndexOf(m), k) == At(u.t.sections.IndexOf(m), k)
    {
      AddressesFollow(w.t, u.t, s, m, k);
    }
    NodesFollow(w, u);
  }

  lemma NodesFollow(w: World, u: World)
    requires Sane(w) && Sane(u) && FactsOf(w) == FactsOf(u)
    ensures forall r <- w.graphs :: r in u.graphs && w.graphs[r].table.Keys == u.graphs[r].table.Keys
  {
    assert w.t.Up() == FactsOf(w).up && u.t.Up() == FactsOf(u).up;
    assert w.graphs.Keys == FactsOf(w).irs && u.graphs.Keys == FactsOf(u).irs;
    forall r <- w.graphs ensures w.graphs[r].table.Keys == u.graphs[r].table.Keys {
      TableIsBelow(w, r);
      TableIsBelow(u, r);
    }
  }

  /** A resized block has its new size, and is found where that puts it. */
  lemma ResizedBlockIsFound(w: World, u: World, b: Node, n: Word, i: Interval, k: nat)
    requires Sane(w) && Sane(u) && b in w.t.size && ResizeBlock(b, n).Step(w, u)
    ensures u.t.size == w.t.size[b := n] && u.t.offset == w.t.offset && u.t.Up() == w.t.Up() && u.t.place == w.t.place
    ensures b in At(u.t.blocks.IndexOf(i), k)
       <==> w.t.blocks.IsChild(b, i) && b in w.t.offset && RightOpen(w.t.offset[b], n).Has(k)
  {
    StepIsFlat(w, u, ResizeBlock(b, n));
    assert u.t.size == FactsOf(u).size && u.t.offset == FactsOf(u).offset && u.t.place == FactsOf(u).place;
    assert u.t.Up() == FactsOf(u).up && w.t.Up() == FactsOf(w).up;
    assert u.t.blocks.parent == u.t.Up().interval == w.t.Up().interval == w.t.blocks.parent;
    OffsetsFindBlocks(u.t, i, k, b);
  }
}
