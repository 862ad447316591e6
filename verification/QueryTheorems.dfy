/** When the layered queries of a module find what a scan of all its blocks does. */
module QueryTheorems {
  import opened Options
  import opened Words
  import opened ControlFlow
  import opened IntervalMaps
  import opened Levels
  import opened Hierarchy
  import opened Extents
  import opened Tables
  import opened ContainmentTheorems
  import opened MergeSorted
  import opened Listings
  import opened Queries

  predicate Below(t: Tables, b: Node, m: Module) {
    b in t.blocks.parent && t.blocks.parent[b] in t.intervals.parent
    && t.sections.IsChild(t.intervals.parent[t.blocks.parent[b]], m)
  }

  predicate HasStartIn(t: Tables, b: Node, low: Word, high: Word) {
    AddressOf(t, b).Some? && low <= AddressOf(t, b).value < high
  }

  predicate Contains(t: Tables, b: Node, a: Word) {
    AddressOf(t, b).Some? && b in t.size
    && AddressOf(t, b).value <= a < (AddressOf(t, b).value as int) + t.size[b]
  }

  /** The section has an extent, and the interval does not wrap around. */
  predicate Mapped(t: Tables, b: Node) {
    && b in t.blocks.parent && t.blocks.parent[b] in t.place && t.place[t.blocks.parent[b]].Ends()
    && t.blocks.parent[b] in t.intervals.parent
    && t.sections.SpanOf(t.intervals.parent[t.blocks.parent[b]]).Some?
  }

  /** The block starts before its interval ends. */
  predicate StartsInside(t: Tables, b: Node) {
    Mapped(t, b) && b in t.offset && t.offset[b] < t.place[t.blocks.parent[b]].size
  }

  /** The block ends no later than its interval. */
  predicate EndsInside(t: Tables, b: Node) {
    Mapped(t, b) && b in t.offset && b in t.size
    && (t.offset[b] as int) + t.size[b] <= t.place[t.blocks.parent[b]].size
  }

  /** A range query asks the section and the interval of the block. */
  predicate Asked(t: Tables, m: Module, low: Word, high: Word, b: Node) {
    && Below(t, b, m) && StartsIn(t, b, t.blocks.parent[b], low, high)
    && t.blocks.parent[b] in IntervalsAsked(t, t.intervals.parent[t.blocks.parent[b]], low, high)
    && t.intervals.parent[t.blocks.parent[b]] in SectionsAsked(t, m, low, high)
  }

  lemma FoundIfAsked(t: Tables, m: Module, low: Word, high: Word, b: Node)
    requires Sound(t, {})
    ensures b in StartingBelow(t, m, low, high) <==> Asked(t, m, low, high, b)
  {
    if b in StartingBelow(t, m, low, high) {
      var s :| s in SectionsAsked(t, m, low, high) && b in StartingUnder(t, s, low, high);
      var i :| i in IntervalsAsked(t, s, low, high) && b in t.blocks.ChildrenOf(i) && StartsIn(t, b, i, low, high);
      BlockIsChild(t, b, i);
      IntervalIsChild(t, i, s);
      IntervalAsked(t, s, low, i);
      SectionIsChild(t, s, m);
      AddressesFindSections(t, m, low, s);
    }
    if Asked(t, m, low, high, b) {
      var i := t.blocks.parent[b];
      BlockIsChild(t, b, i);
      assert b in StartingUnder(t, t.intervals.parent[i], low, high);
    }
  }

  /** An interval is inside the extent of its section. */
  lemma ExtentHolds(t: Tables, i: Interval, s: Section)
    requires Sound(t, {}) && t.intervals.IsChild(i, s) && i in t.place && t.sections.SpanOf(s).Some?
    ensures t.place[i].address.Some?
    ensures t.sections.SpanOf(s).value.lo <= t.place[i].address.value
    ensures t.place[i].Reach() <= t.sections.SpanOf(s).value.hi
  {
    IntervalIsChild(t, i, s);
    assert Seals.Open(t) && Seals.Open(t.sections.span);
  }

  /** The two parts that a range query asks have nothing in common, and of the
      intervals, and the sections, that are neither empty nor wrap around they
      have just those that meet the range. */
  lemma PartsShareNothing(t: Tables, m: Module, s: Section, low: Word, high: Word)
    requires Sound(t, {}) && low < high
    ensures IntervalsOn(t, s, low) !! IntervalsAt(t, s, low + 1, high)
    ensures SectionsOn(t, m, low) !! SectionsAt(t, m, low + 1, high)
  {
    forall i { AddressesFindIntervals(t, s, low, i); }
    forall s { AddressesFindSections(t, m, low, s); }
  }

  lemma PartsMeetTheRange(t: Tables, m: Module, s: Section, i: Interval, low: Word, high: Word)
    requires Sound(t, {}) && low < high && t.intervals.IsChild(i, s) && t.sections.IsChild(s, m)
    requires i in t.place && t.place[i].Ends() && t.place[i].size > 0
    ensures i in IntervalsAsked(t, s, low, high) <==> t.place[i].Start() < high && low < t.place[i].End()
    ensures t.sections.SpanOf(s).Some? ==>
              var e := t.sections.SpanOf(s).value;
              s in SectionsAsked(t, m, low, high) <==> e.lo < high && low < e.hi
  {
    AddressesFindIntervals(t, s, low, i);
    AddressesFindSections(t, m, low, s);
    IntervalIsChild(t, i, s);
    SectionIsChild(t, s, m);
    if t.sections.SpanOf(s).Some? {
      ReachWithoutWrap(t.place[i]);
      ExtentHolds(t, i, s);
    }
  }

  lemma AskedIsRight(t: Tables, m: Module, low: Word, high: Word, b: Node)
    requires Asked(t, m, low, high, b)
    ensures HasStartIn(t, b, low, high)
  {
  }

  /** Of two parts, the one on `low` and the one after it, one has the interval. */
  lemma StartsInsideIsAsked(t: Tables, m: Module, low: Word, high: Word, b: Node)
    requires Sound(t, {}) && Below(t, b, m) && HasStartIn(t, b, low, high) && StartsInside(t, b)
    ensures Asked(t, m, low, high, b)
  {
    var i := t.blocks.parent[b];
    var s := t.intervals.parent[i];
    ReachWithoutWrap(t.place[i]);
    ExtentHolds(t, i, s);
    IntervalIsChild(t, i, s);
    SectionIsChild(t, s, m);
    AddressesFindIntervals(t, s, low, i);
    AddressesFindSections(t, m, low, s);
  }

  lemma AskedAtItsStart(t: Tables, m: Module, b: Node, a: Word)
    requires Sound(t, {}) && AddressOf(t, b) == Some(a) && a + 1 < WORD && Asked(t, m, a, a + 1, b)
    ensures StartsInside(t, b)
  {
    var i := t.blocks.parent[b];
    var s := t.intervals.parent[i];
    AddressesFindIntervals(t, s, a, i);
    AddressesFindSections(t, m, a, s);
  }

  /** What a scan of all blocks below a module finds. */
  function FlatStarting(t: Tables, m: Module, low: Word, high: Word): set<Node> {
    set b | b in t.blocks.parent && Below(t, b, m) && HasStartIn(t, b, low, high)
  }

  function FlatContaining(t: Tables, m: Module, a: Word): set<Node> {
    set b | b in t.blocks.parent && Below(t, b, m) && Contains(t, b, a)
  }

  /** No range has the very last address, so what starts there does not matter. */
  ghost predicate AllStartInside(t: Tables, m: Module) {
    forall b | Below(t, b, m) && HasStartIn(t, b, 0, WORD - 1) :: StartsInside(t, b)
  }

  ghost predicate AllEndInside(t: Tables, m: Module) {
    forall b | Below(t, b, m) && AddressOf(t, b).Some? && SizeOf(t, b) > 0 :: EndsInside(t, b)
  }

  lemma RangeQueryFinds(t: Tables, m: Module, low: Word, high: Word)
    requires Sound(t, {})
    ensures StartingBelow(t, m, low, high) <= FlatStarting(t, m, low, high)
    ensures AllStartInside(t, m) ==> StartingBelow(t, m, low, high) == FlatStarting(t, m, low, high)
  {
    forall b
      ensures b in StartingBelow(t, m, low, high) ==> b in FlatStarting(t, m, low, high)
      ensures b in FlatStarting(t, m, low, high) && StartsInside(t, b) ==> b in StartingBelow(t, m, low, high)
    {
      FoundIfAsked(t, m, low, high, b);
      if Asked(t, m, low, high, b) {
        AskedIsRight(t, m, low, high, b);
      }
      if b in FlatStarting(t, m, low, high) && StartsInside(t, b) {
        StartsInsideIsAsked(t, m, low, high, b);
      }
    }
  }

  lemma FoundAtItsStart(t: Tables, m: Module, b: Node)
    requires Sound(t, {}) && Below(t, b, m) && HasStartIn(t, b, 0, WORD - 1)
    ensures var a := AddressOf(t, b).value;
            StartingBelow(t, m, a, a + 1) == FlatStarting(t, m, a, a + 1) ==> StartsInside(t, b)
  {
    var a := AddressOf(t, b).value;
    FoundIfAsked(t, m, a, a + 1, b);
    if Asked(t, m, a, a + 1, b) {
      AskedAtItsStart(t, m, b, a);
    }
  }

  /** Every range query of a module finds exactly the blocks with a start in the
      range, just if each block starts before its interval ends, its interval does
      not wrap around, and its section has an extent. */
  lemma RangeQueriesFindAll(t: Tables, m: Module)
    requires Sound(t, {})
    ensures (forall low: Word, high: Word | low < high ::
               StartingBelow(t, m, low, high) == FlatStarting(t, m, low, high))
       <==> AllStartInside(t, m)
  {
    forall low: Word, high: Word {
      RangeQueryFinds(t, m, low, high);
    }
    forall b | Below(t, b, m) && HasStartIn(t, b, 0, WORD - 1) {
      FoundAtItsStart(t, m, b);
    }
  }

  /** So the query lists what a flat scan finds, once and in address order. */
  method RangeQuery(t: Tables, modes: map<Node, nat>, m: Module, low: Word, high: Word) returns (out: seq<Node>)
    requires Sound(t, {}) && SectionsAt(t, m, high, (low + 1) % WORD) == {}
    ensures forall i, j :: 0 <= i < j < |out| ==> Precedes(t, modes, out[i], out[j])
    ensures forall b <- out :: b in FlatStarting(t, m, low, high)
    ensures AllStartInside(t, m) ==> Lists(out, FlatStarting(t, m, low, high))
  {
    out := ModuleBlocksAt(t, modes, m, low, high);
    RangeQueryFinds(t, m, low, high);
  }

  /** A point query asks the section and the interval of the block, and finds the
      block in the interval's offset index. */
  predicate AskedOn(t: Tables, m: Module, a: Word, b: Node) {
    && Below(t, b, m) && b in Containing(t, t.blocks.parent[b], a)
    && t.blocks.parent[b] in IntervalsOn(t, t.intervals.parent[t.blocks.parent[b]], a)
    && t.intervals.parent[t.blocks.parent[b]] in SectionsOn(t, m, a)
  }

  lemma FoundIfAskedOn(t: Tables, m: Module, a: Word, b: Node)
    requires Sound(t, {})
    ensures b in ContainingBelow(t, m, a) <==> AskedOn(t, m, a, b)
  {
    if b in ContainingBelow(t, m, a) {
      var s :| s in SectionsOn(t, m, a) && b in ContainingUnder(t, s, a);
      ContainingUnderIs(t, s, a, b);
      AddressesFindSections(t, m, a, s);
    }
    if AskedOn(t, m, a, b) {
      assert b in ContainingUnder(t, t.intervals.parent[t.blocks.parent[b]], a);
    }
  }

  lemma AskedOnIsRight(t: Tables, m: Module, a: Word, b: Node)
    requires Sound(t, {}) && AskedOn(t, m, a, b)
    ensures Contains(t, b, a) && Mapped(t, b) && a < t.place[t.blocks.parent[b]].End()
    ensures b in t.offset && AddressOf(t, b).value == t.place[t.blocks.parent[b]].Start() + t.offset[b]
  {
    var i := t.blocks.parent[b];
    var s := t.intervals.parent[i];
    AddressesFindIntervals(t, s, a, i);
    AddressesFindSections(t, m, a, s);
    OffsetsFindBlocks(t, i, a - t.place[i].address.value, b);
  }

  lemma EndsInsideIsAsked(t: Tables, m: Module, a: Word, b: Node)
    requires Sound(t, {}) && Below(t, b, m) && Contains(t, b, a) && EndsInside(t, b)
    ensures AskedOn(t, m, a, b)
  {
    var i := t.blocks.parent[b];
    var s := t.intervals.parent[i];
    ReachWithoutWrap(t.place[i]);
    ExtentHolds(t, i, s);
    SectionIsChild(t, s, m);
    AddressesFindIntervals(t, s, a, i);
    AddressesFindSections(t, m, a, s);
    OffsetsFindBlocks(t, i, a - t.place[i].address.value, b);
  }

  /** A block found at its first and at its last address ends inside its interval. */
  lemma AskedAtItsEnds(t: Tables, m: Module, b: Node, first: Word, last: Word)
    requires Sound(t, {}) && Below(t, b, m) && AddressOf(t, b) == Some(first) && Contains(t, b, last)
    requires last == WORD - 1 || last == first + t.size[b] - 1
    requires AskedOn(t, m, first, b) && AskedOn(t, m, last, b)
    ensures EndsInside(t, b)
  {
    AskedOnIsRight(t, m, first, b);
    AskedOnIsRight(t, m, last, b);
  }

  lemma PointQueryFinds(t: Tables, m: Module, a: Word)
    requires Sound(t, {})
    ensures ContainingBelow(t, m, a) <= FlatContaining(t, m, a)
    ensures AllEndInside(t, m) ==> ContainingBelow(t, m, a) == FlatContaining(t, m, a)
  {
    forall b
      ensures b in ContainingBelow(t, m, a) ==> b in FlatContaining(t, m, a)
      ensures b in FlatContaining(t, m, a) && EndsInside(t, b) ==> b in ContainingBelow(t, m, a)
    {
      FoundIfAskedOn(t, m, a, b);
      if AskedOn(t, m, a, b) {
        AskedOnIsRight(t, m, a, b);
      }
      if b in FlatContaining(t, m, a) && EndsInside(t, b) {
        EndsInsideIsAsked(t, m, a, b);
      }
    }
  }

  lemma FoundAtItsEnds(t: Tables, m: Module, b: Node)
    requires Sound(t, {}) && Below(t, b, m) && AddressOf(t, b).Some? && SizeOf(t, b) > 0
    requires forall a: Word :: ContainingBelow(t, m, a) == FlatContaining(t, m, a)
    ensures EndsInside(t, b)
  {
    var first := AddressOf(t, b).value;
    var last: Word := if (first as int) + t.size[b] < WORD then first + t.size[b] - 1 else WORD - 1;
    assert b in FlatContaining(t, m, first) && b in FlatContaining(t, m, last);
    FoundIfAskedOn(t, m, first, b);
    FoundIfAskedOn(t, m, last, b);
    AskedAtItsEnds(t, m, b, first, last);
  }

  /** Every point query of a module finds exactly the blocks that contain the
      address, just if each block that is not empty ends inside its interval, its
      interval does not wrap around, and its section has an extent. */
  lemma PointQueriesFindAll(t: Tables, m: Module)
    requires Sound(t, {})
    ensures (forall a: Word :: ContainingBelow(t, m, a) == FlatContaining(t, m, a)) <==> AllEndInside(t, m)
  {
    forall a: Word {
      PointQueryFinds(t, m, a);
    }
    if forall a: Word :: ContainingBelow(t, m, a) == FlatContaining(t, m, a) {
      forall b | Below(t, b, m) && AddressOf(t, b).Some? && SizeOf(t, b) > 0 {
        FoundAtItsEnds(t, m, b);
      }
    }
  }

  method PointQuery(t: Tables, modes: map<Node, nat>, m: Module, a: Word) returns (out: seq<Node>)
    requires Sound(t, {})
    ensures forall i, j :: 0 <= i < j < |out| ==> Precedes(t, modes, out[i], out[j])
    ensures forall b <- out :: b in FlatContaining(t, m, a)
    ensures AllEndInside(t, m) ==> Lists(out, FlatContaining(t, m, a))
  {
    out := ModuleBlocksOn(t, modes, m, a);
    PointQueryFinds(t, m, a);
  }
}
