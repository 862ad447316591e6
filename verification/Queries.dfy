/** Layered queries by address: a module asks the sections that its index or its
    address order yields, a section the byte intervals, and a byte interval its
    blocks; at each level the yields are merged in address order. */
module Queries {
  import opened Options
  import opened Seals
  import opened Words
  import opened ControlFlow
  import opened IntervalMaps
  import opened Levels
  import opened Hierarchy
  import opened Extents
  import opened Tables
  import opened MergeSorted
  import opened Listings
  import opened ContainmentTheorems

  // ------------------------------------------------------------------ order

  /** What blocks are ordered by: address or offset first, then size, kind,
      decode mode and UUID. */
  datatype Key = Key(position: int, size: nat, kind: nat, mode: nat, uuid: nat)

  predicate KeyLess(a: Key, b: Key) {
    a.position < b.position
    || (a.position == b.position && (a.size < b.size
    || (a.size == b.size && (a.kind < b.kind
    || (a.kind == b.kind && (a.mode < b.mode
    || (a.mode == b.mode && a.uuid < b.uuid)))))))
  }

  function SizeOf(t: Tables, b: Node): nat {
    if b in t.size then t.size[b] else 0
  }

  /** Data blocks have the default decode mode, which is 0. */
  function KeyAt(t: Tables, modes: map<Node, nat>, b: Node, position: int): Key {
    match b
    case CodeBlock(id) => Key(position, SizeOf(t, b), 0, if b in modes then modes[b] else 0, id)
    case DataBlock(id) => Key(position, SizeOf(t, b), 2, 0, id)
    case ProxyBlock(id) => Key(position, 0, 1, 0, id)
  }

  /** The address of a block, if its interval has one. */
  function AddressOf(t: Tables, b: Node): Option<Word> {
    if b in t.blocks.parent && b in t.offset && t.blocks.parent[b] in t.place
       && t.place[t.blocks.parent[b]].address.Some?
    then Some((t.place[t.blocks.parent[b]].address.value + t.offset[b]) % WORD)
    else None
  }

  function AddressKey(t: Tables, modes: map<Node, nat>, b: Node): Key {
    KeyAt(t, modes, b, if AddressOf(t, b).Some? then AddressOf(t, b).value else -1)
  }

  function OffsetKey(t: Tables, modes: map<Node, nat>, b: Node): Key {
    KeyAt(t, modes, b, if b in t.offset then t.offset[b] else -1)
  }

  /** `BlockAddressLess`, and the order of a byte interval's blocks by offset. */
  function AddressLess(t: Tables, modes: map<Node, nat>): (Node, Node) -> bool {
    (a, b) => KeyLess(AddressKey(t, modes, a), AddressKey(t, modes, b))
  }

  function OffsetLess(t: Tables, modes: map<Node, nat>): (Node, Node) -> bool {
    (a, b) => KeyLess(OffsetKey(t, modes, a), OffsetKey(t, modes, b))
  }

  lemma KeysOrder(t: Tables, modes: map<Node, nat>)
    ensures Orders(AddressLess(t, modes)) && Orders(OffsetLess(t, modes))
  {
  }

  /** Lowest address first; at one address the smaller block first; code before
      data of the same size; then by decode mode, and then by UUID. */
  ghost predicate Ascends(t: Tables, modes: map<Node, nat>, out: seq<Node>) {
    forall i, j {:trigger out[i], out[j]} :: 0 <= i < j < |out| ==> Precedes(t, modes, out[i], out[j])
  }

  ghost predicate Precedes(t: Tables, modes: map<Node, nat>, a: Node, b: Node)
  {
    && AddressOf(t, a).Some? && AddressOf(t, b).Some? && a in t.size && b in t.size
    && AddressOf(t, a).value <= AddressOf(t, b).value
    && (AddressOf(t, a) == AddressOf(t, b) ==>
          && t.size[a] <= t.size[b]
          && (t.size[a] == t.size[b] ==>
                && (a.DataBlock? ==> b.DataBlock?)
                && (a.CodeBlock? && b.CodeBlock? ==>
                      var p, q := if a in modes then modes[a] else 0, if b in modes then modes[b] else 0;
                      p <= q && (p == q ==> a.id <= b.id))
                && (a.DataBlock? && b.DataBlock? ==> a.id <= b.id)))
  }

  /** A block has an address just if it is in an interval that has one. */
  lemma AddressIs(t: Tables, b: Node)
    requires Sound(t, {})
    ensures AddressOf(t, b).Some? <==>
              b in t.blocks.parent && t.blocks.parent[b] in t.place && t.place[t.blocks.parent[b]].address.Some?
    ensures AddressOf(t, b).Some? ==>
              && Placed(t, b) && b in t.offset
              && AddressOf(t, b).value == (t.place[t.blocks.parent[b]].Start() + t.offset[b]) % WORD
  {
    assert Open(t) && Open(t.offset);
  }

  /** No two blocks may stand either way round, so the order leaves no choice. */
  lemma PrecedesDecides(t: Tables, modes: map<Node, nat>, a: Node, b: Node)
    requires Precedes(t, modes, a, b) && Precedes(t, modes, b, a) && !a.ProxyBlock? && !b.ProxyBlock?
    ensures a == b
  {
  }

  predicate Placed(t: Tables, b: Node) {
    AddressOf(t, b).Some? && b in t.size && !b.ProxyBlock?
  }

  lemma BlockIsPlaced(t: Tables, b: Node, i: Interval)
    requires Sound(t, {}) && t.blocks.IsChild(b, i) && i in t.place && t.place[i].address.Some?
    ensures Placed(t, b)
  {
    AddressIs(t, b);
    assert Open(t) && Open(t.offset);
  }

  lemma SortedAscends(t: Tables, modes: map<Node, nat>, out: seq<Node>)
    requires Sorted(AddressLess(t, modes), out)
    requires forall b <- out :: Placed(t, b)
    ensures Ascends(t, modes, out)
  {
    forall i, j | 0 <= i < j < |out| ensures Precedes(t, modes, out[i], out[j]) {
      assert out[i] in out && out[j] in out;
      assert !AddressLess(t, modes)(out[j], out[i]);
    }
  }

  // ------------------------------------------- what starts in [low, high)

  predicate StartsIn(t: Tables, b: Node, i: Interval, low: Word, high: Word) {
    i in t.place && t.place[i].address.Some? && b in t.offset
    && low <= (t.place[i].address.value as int) + t.offset[b] < high
  }

  function StartingIn(t: Tables, i: Interval, low: Word, high: Word): set<Node> {
    set b | b in t.blocks.ChildrenOf(i) && StartsIn(t, b, i, low, high)
  }

  /** Below 2 to the 64, the offset order in an interval is the address order. */
  lemma OffsetOrderIsAddressOrder(t: Tables, modes: map<Node, nat>, i: Interval, out: seq<Node>)
    requires i in t.place && t.place[i].address.Some? && Sorted(OffsetLess(t, modes), out)
    requires forall b <- out :: t.blocks.IsChild(b, i) && b in t.offset
    requires forall b <- out :: (t.place[i].address.value as int) + t.offset[b] < WORD
    ensures Sorted(AddressLess(t, modes), out)
  {
    var base := t.place[i].address.value;
    forall b <- out ensures AddressKey(t, modes, b) == KeyAt(t, modes, b, base + OffsetKey(t, modes, b).position) {
    }
    forall j, k | 0 <= j < k < |out| ensures !AddressLess(t, modes)(out[k], out[j]) {
      assert !OffsetLess(t, modes)(out[k], out[j]);
    }
  }

  method IntervalBlocksAt(t: Tables, modes: map<Node, nat>, i: Interval, low: Word, high: Word)
    returns (out: seq<Node>)
    requires Sound(t, {}) && i in t.place
    ensures Lists(out, StartingIn(t, i, low, high)) && Sorted(AddressLess(t, modes), out)
  {
    KeysOrder(t, modes);
    if t.place[i].address.None? {
      return [];
    }
    var base := t.place[i].address.value;
    var from := low - if base < low then base else low;
    var to := high - if base < high then base else high;
    var found := set b | b in t.blocks.ChildrenOf(i) && b in t.offset && from <= t.offset[b] < to;
    out := InOrder(OffsetLess(t, modes), found);
    assert found == StartingIn(t, i, low, high);
    forall b { BlockIsChild(t, b, i); }
    OffsetOrderIsAddressOrder(t, modes, i, out);
  }

  /** The byte intervals asked: those on `low`, by the address map, and those that
      start after it but below `high`, by address order. */
  function IntervalsOn(t: Tables, s: Section, k: nat): set<Interval> {
    At(t.intervals.IndexOf(s), k)
  }

  function IntervalsAt(t: Tables, s: Section, low: Word, high: Word): set<Interval> {
    set i | i in t.intervals.ChildrenOf(s) && i in t.place
            && t.place[i].address.Some? && low <= t.place[i].address.value < high
  }

  function StartingInAny(t: Tables, asked: set<Interval>, low: Word, high: Word): set<Node> {
    set i, b | i in asked && b in t.blocks.ChildrenOf(i) && StartsIn(t, b, i, low, high) :: b
  }

  function IntervalsAsked(t: Tables, s: Section, low: Word, high: Word): set<Interval> {
    IntervalsOn(t, s, low) + IntervalsAt(t, s, (low + 1) % WORD, high)
  }

  function StartingUnder(t: Tables, s: Section, low: Word, high: Word): set<Node> {
    StartingInAny(t, IntervalsAsked(t, s, low, high), low, high)
  }

  method SectionBlocksAt(t: Tables, modes: map<Node, nat>, s: Section, low: Word, high: Word)
    returns (out: seq<Node>)
    requires Sound(t, {})
    ensures Lists(out, StartingUnder(t, s, low, high)) && Sorted(AddressLess(t, modes), out)
  {
    KeysOrder(t, modes);
    var ranges: seq<seq<Node>> := [];
    ghost var done: set<Interval> := {};
    var rest := IntervalsOn(t, s, low);
    while rest != {}
      invariant done + rest == IntervalsOn(t, s, low) && done !! rest
      invariant Gathers(AddressLess(t, modes), ranges, StartingInAny(t, done, low, high))
    {
      var i :| i in rest;
      IntervalAsked(t, s, low, i);
      var r := IntervalBlocksAt(t, modes, i, low, high);
      OneMoreInterval(t, modes, ranges, done, i, r, low, high);
      ranges, rest, done := ranges + [r], rest - {i}, done + {i};
    }
    rest := IntervalsAt(t, s, (low + 1) % WORD, high);
    assert done !! rest by { forall i { IntervalAsked(t, s, low, i); } }
    while rest != {}
      invariant done + rest == IntervalsAsked(t, s, low, high) && done !! rest
      invariant rest <= IntervalsAt(t, s, (low + 1) % WORD, high)
      invariant Gathers(AddressLess(t, modes), ranges, StartingInAny(t, done, low, high))
    {
      var i :| i in rest;
      var r := IntervalBlocksAt(t, modes, i, low, high);
      OneMoreInterval(t, modes, ranges, done, i, r, low, high);
      ranges, rest, done := ranges + [r], rest - {i}, done + {i};
    }
    assert done == IntervalsAsked(t, s, low, high);
    out := MergeAll(AddressLess(t, modes), ranges, StartingUnder(t, s, low, high));
  }

  /** An interval on an address does not start after it. */
  lemma IntervalAsked(t: Tables, s: Section, k: Word, i: Interval)
    requires Sound(t, {})
    ensures i in IntervalsOn(t, s, k) ==>
              && t.intervals.IsChild(i, s) && i in t.place
              && t.place[i].address.Some? && t.place[i].address.value <= k < WORD - 1
  {
    AddressesFindIntervals(t, s, k, i);
  }

  lemma OneMoreInterval(t: Tables, modes: map<Node, nat>, ranges: seq<seq<Node>>, done: set<Interval>,
                        i: Interval, r: seq<Node>, low: Word, high: Word)
    requires Sound(t, {}) && i !in done
    requires Gathers(AddressLess(t, modes), ranges, StartingInAny(t, done, low, high))
    requires Lists(r, StartingIn(t, i, low, high)) && Sorted(AddressLess(t, modes), r)
    ensures Gathers(AddressLess(t, modes), ranges + [r], StartingInAny(t, done + {i}, low, high))
  {
    forall j, b { BlockIsChild(t, b, j); }
    var less, before, more := AddressLess(t, modes), StartingInAny(t, done, low, high), StartingIn(t, i, low, high);
    assert before !! more;
    GatherOne(less, ranges, before, r, more);
    assert StartingInAny(t, done + {i}, low, high) == before + more;
  }

  /** The sections asked: those on `low` and those that start after it. */
  function SectionsOn(t: Tables, m: Module, k: nat): set<Section> {
    At(t.sections.IndexOf(m), k)
  }

  function SectionsAt(t: Tables, m: Module, low: Word, high: Word): set<Section> {
    set s | s in t.sections.ChildrenOf(m) && t.sections.SpanOf(s).Some? && low <= t.sections.SpanOf(s).value.lo < high
  }

  function SectionsAsked(t: Tables, m: Module, low: Word, high: Word): set<Section> {
    SectionsOn(t, m, low) + SectionsAt(t, m, (low + 1) % WORD, high)
  }

  function StartingUnderAny(t: Tables, asked: set<Section>, low: Word, high: Word): set<Node> {
    set s, b | s in asked && b in StartingUnder(t, s, low, high) :: b
  }

  function StartingBelow(t: Tables, m: Module, low: Word, high: Word): set<Node> {
    StartingUnderAny(t, SectionsAsked(t, m, low, high), low, high)
  }

  /** The sections that start after `low` are a range in address order that ends at
      `high`. If `high` is not above `low` that range is reversed, so there must be
      no section in between. */
  method ModuleBlocksAt(t: Tables, modes: map<Node, nat>, m: Module, low: Word, high: Word)
    returns (out: seq<Node>)
    requires Sound(t, {}) && SectionsAt(t, m, high, (low + 1) % WORD) == {}
    ensures Lists(out, StartingBelow(t, m, low, high)) && Sorted(AddressLess(t, modes), out)
    ensures Ascends(t, modes, out)
  {
    KeysOrder(t, modes);
    var ranges: seq<seq<Node>> := [];
    ghost var done: set<Section> := {};
    var rest := SectionsOn(t, m, low);
    while rest != {}
      invariant done + rest == SectionsOn(t, m, low) && done !! rest
      invariant Gathers(AddressLess(t, modes), ranges, StartingUnderAny(t, done, low, high))
    {
      var s :| s in rest;
      var r := SectionBlocksAt(t, modes, s, low, high);
      OneMoreSection(t, modes, ranges, done, s, r, low, high);
      ranges, rest, done := ranges + [r], rest - {s}, done + {s};
    }
    rest := SectionsAt(t, m, (low + 1) % WORD, high);
    assert done !! rest by { forall s { SectionOnDoesNotStartAfter(t, m, low, s); } }
    while rest != {}
      invariant done + rest == SectionsAsked(t, m, low, high) && done !! rest
      invariant Gathers(AddressLess(t, modes), ranges, StartingUnderAny(t, done, low, high))
    {
      var s :| s in rest;
      var r := SectionBlocksAt(t, modes, s, low, high);
      OneMoreSection(t, modes, ranges, done, s, r, low, high);
      ranges, rest, done := ranges + [r], rest - {s}, done + {s};
    }
    assert done == SectionsAsked(t, m, low, high);
    out := MergeAll(AddressLess(t, modes), ranges, StartingBelow(t, m, low, high));
    forall b <- out ensures Placed(t, b) {
      StartingIsPlaced(t, m, low, high, b);
    }
    SortedAscends(t, modes, out);
  }

  lemma SectionOnDoesNotStartAfter(t: Tables, m: Module, k: Word, s: Section)
    requires Sound(t, {})
    ensures s in SectionsOn(t, m, k) ==> t.sections.SpanOf(s).Some? && t.sections.SpanOf(s).value.lo <= k < WORD - 1
  {
    AddressesFindSections(t, m, k, s);
    if t.sections.IsChild(s, m) {
      SectionIsFoundInItsExtent(t, s, m);
    }
  }

  lemma StartingUnderIs(t: Tables, s: Section, low: Word, high: Word, b: Node)
    requires Sound(t, {}) && b in StartingUnder(t, s, low, high)
    ensures b in t.blocks.parent && t.intervals.IsChild(t.blocks.parent[b], s)
  {
    var i :| i in IntervalsAsked(t, s, low, high) && b in t.blocks.ChildrenOf(i) && StartsIn(t, b, i, low, high);
    BlockIsChild(t, b, i);
    IntervalIsChild(t, i, s);
    IntervalAsked(t, s, low, i);
  }

  lemma StartingIsPlaced(t: Tables, m: Module, low: Word, high: Word, b: Node)
    requires Sound(t, {}) && b in StartingBelow(t, m, low, high)
    ensures Placed(t, b)
  {
    var s :| s in SectionsAsked(t, m, low, high) && b in StartingUnder(t, s, low, high);
    var i :| i in IntervalsAsked(t, s, low, high) && b in t.blocks.ChildrenOf(i) && StartsIn(t, b, i, low, high);
    BlockIsChild(t, b, i);
    BlockIsPlaced(t, b, i);
  }

  lemma OneMoreSection(t: Tables, modes: map<Node, nat>, ranges: seq<seq<Node>>, done: set<Section>,
                       s: Section, r: seq<Node>, low: Word, high: Word)
    requires Sound(t, {}) && s !in done
    requires Gathers(AddressLess(t, modes), ranges, StartingUnderAny(t, done, low, high))
    requires Lists(r, StartingUnder(t, s, low, high)) && Sorted(AddressLess(t, modes), r)
    ensures Gathers(AddressLess(t, modes), ranges + [r], StartingUnderAny(t, done + {s}, low, high))
  {
    var less := AddressLess(t, modes);
    var before, more := StartingUnderAny(t, done, low, high), StartingUnder(t, s, low, high);
    forall b, d | d in done && b in StartingUnder(t, d, low, high) ensures b !in more {
      StartingUnderIs(t, d, low, high, b);
      if b in more {
        StartingUnderIs(t, s, low, high, b);
      }
    }
    assert before !! more;
    GatherOne(less, ranges, before, r, more);
    assert StartingUnderAny(t, done + {s}, low, high) == before + more;
  }

  // ------------------------------------------------ what contains an address

  /** Offsets are differences of addresses, modulo 2 to the 64. */
  function Containing(t: Tables, i: Interval, a: Word): set<Node> {
    if i in t.place && t.place[i].address.Some?
    then At(t.blocks.IndexOf(i), (a - t.place[i].address.value) % WORD) else {}
  }

  method IntervalBlocksOn(t: Tables, modes: map<Node, nat>, i: Interval, a: Word) returns (out: seq<Node>)
    requires Sound(t, {})
    ensures Lists(out, Containing(t, i, a))
    ensures i in t.place && t.place[i].Key() <= a ==> Sorted(AddressLess(t, modes), out)
  {
    KeysOrder(t, modes);
    if i !in t.place || t.place[i].address.None? {
      return [];
    }
    out := InOrder(OffsetLess(t, modes), Containing(t, i, a));
    var base := t.place[i].address.value;
    if base <= a {
      assert Containing(t, i, a) == At(t.blocks.IndexOf(i), a - base);
      forall b { OffsetsFindBlocks(t, i, a - base, b); }
      OffsetOrderIsAddressOrder(t, modes, i, out);
    }
  }

  function ContainingAny(t: Tables, asked: set<Interval>, a: Word): set<Node> {
    set i, b | i in asked && b in Containing(t, i, a) :: b
  }

  function ContainingUnder(t: Tables, s: Section, a: Word): set<Node> {
    ContainingAny(t, IntervalsOn(t, s, a), a)
  }

  method SectionBlocksOn(t: Tables, modes: map<Node, nat>, s: Section, a: Word) returns (out: seq<Node>)
    requires Sound(t, {})
    ensures Lists(out, ContainingUnder(t, s, a)) && Sorted(AddressLess(t, modes), out)
  {
    KeysOrder(t, modes);
    var ranges: seq<seq<Node>> := [];
    ghost var done: set<Interval> := {};
    var rest := IntervalsOn(t, s, a);
    while rest != {}
      invariant done + rest == IntervalsOn(t, s, a) && done !! rest
      invariant Gathers(AddressLess(t, modes), ranges, ContainingAny(t, done, a))
    {
      var i :| i in rest;
      IntervalAsked(t, s, a, i);
      var r := IntervalBlocksOn(t, modes, i, a);
      OneMoreContaining(t, modes, ranges, done, i, r, a);
      ranges, rest, done := ranges + [r], rest - {i}, done + {i};
    }
    assert done == IntervalsOn(t, s, a);
    out := MergeAll(AddressLess(t, modes), ranges, ContainingUnder(t, s, a));
  }

  lemma OneMoreContaining(t: Tables, modes: map<Node, nat>, ranges: seq<seq<Node>>, done: set<Interval>,
                          i: Interval, r: seq<Node>, a: Word)
    requires Sound(t, {}) && i !in done
    requires Gathers(AddressLess(t, modes), ranges, ContainingAny(t, done, a))
    requires Lists(r, Containing(t, i, a)) && Sorted(AddressLess(t, modes), r)
    ensures Gathers(AddressLess(t, modes), ranges + [r], ContainingAny(t, done + {i}, a))
  {
    var less, before, more := AddressLess(t, modes), ContainingAny(t, done, a), Containing(t, i, a);
    forall b, j | b in Containing(t, j, a) ensures t.blocks.IsChild(b, j) {
      OffsetsFindBlocks(t, j, (a - t.place[j].address.value) % WORD, b);
    }
    assert before !! more;
    GatherOne(less, ranges, before, r, more);
    assert ContainingAny(t, done + {i}, a) == before + more;
  }

  function ContainingUnderAny(t: Tables, asked: set<Section>, a: Word): set<Node> {
    set s, b | s in asked && b in ContainingUnder(t, s, a) :: b
  }

  function ContainingBelow(t: Tables, m: Module, a: Word): set<Node> {
    ContainingUnderAny(t, SectionsOn(t, m, a), a)
  }

  method ModuleBlocksOn(t: Tables, modes: map<Node, nat>, m: Module, a: Word) returns (out: seq<Node>)
    requires Sound(t, {})
    ensures Lists(out, ContainingBelow(t, m, a)) && Sorted(AddressLess(t, modes), out)
    ensures Ascends(t, modes, out)
  {
    KeysOrder(t, modes);
    var ranges: seq<seq<Node>> := [];
    ghost var done: set<Section> := {};
    var rest := SectionsOn(t, m, a);
    while rest != {}
      invariant done + rest == SectionsOn(t, m, a) && done !! rest
      invariant Gathers(AddressLess(t, modes), ranges, ContainingUnderAny(t, done, a))
    {
      var s :| s in rest;
      var r := SectionBlocksOn(t, modes, s, a);
      OneMoreContainingSection(t, modes, ranges, done, s, r, a);
      ranges, rest, done := ranges + [r], rest - {s}, done + {s};
    }
    assert done == SectionsOn(t, m, a);
    out := MergeAll(AddressLess(t, modes), ranges, ContainingBelow(t, m, a));
    forall b <- out ensures Placed(t, b) {
      ContainingIsPlaced(t, m, a, b);
    }
    SortedAscends(t, modes, out);
  }

  lemma ContainingUnderIs(t: Tables, s: Section, a: Word, b: Node)
    requires Sound(t, {}) && b in ContainingUnder(t, s, a)
    ensures b in t.blocks.parent && t.intervals.IsChild(t.blocks.parent[b], s)
    ensures t.blocks.parent[b] in IntervalsOn(t, s, a) && b in Containing(t, t.blocks.parent[b], a)
  {
    var i :| i in IntervalsOn(t, s, a) && b in Containing(t, i, a);
    IntervalAsked(t, s, a, i);
    OffsetsFindBlocks(t, i, (a - t.place[i].address.value) % WORD, b);
  }

  lemma ContainingIsPlaced(t: Tables, m: Module, a: Word, b: Node)
    requires Sound(t, {}) && b in ContainingBelow(t, m, a)
    ensures Placed(t, b)
  {
    var s :| s in SectionsOn(t, m, a) && b in ContainingUnder(t, s, a);
    ContainingUnderIs(t, s, a, b);
    BlockIsPlaced(t, b, t.blocks.parent[b]);
  }

  lemma OneMoreContainingSection(t: Tables, modes: map<Node, nat>, ranges: seq<seq<Node>>, done: set<Section>,
                                 s: Section, r: seq<Node>, a: Word)
    requires Sound(t, {}) && s !in done
    requires Gathers(AddressLess(t, modes), ranges, ContainingUnderAny(t, done, a))
    requires Lists(r, ContainingUnder(t, s, a)) && Sorted(AddressLess(t, modes), r)
    ensures Gathers(AddressLess(t, modes), ranges + [r], ContainingUnderAny(t, done + {s}, a))
  {
    var less, before, more := AddressLess(t, modes), ContainingUnderAny(t, done, a), ContainingUnder(t, s, a);
    forall b, d | d in done && b in ContainingUnder(t, d, a) ensures b !in more {
      ContainingUnderIs(t, d, a, b);
      if b in more {
        ContainingUnderIs(t, s, a, b);
      }
    }
    assert before !! more;
    GatherOne(less, ranges, before, r, more);
    assert ContainingUnderAny(t, done + {s}, a) == before + more;
  }
}
