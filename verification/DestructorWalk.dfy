/** The typed allocator: its destructor finds every object from slab bounds
    alone. All allocations ask for one object of the same size and alignment. */
module DestructorWalk {
  import opened Words
  import opened Allocator
  import opened AllocatorSafety
  import opened Sequences

  /** `sizeof` and `alignof` of a type. */
  datatype Layout = Layout(size: nat, alignment: nat) {
    ghost predicate Valid() {
      0 < size && Alignment(alignment) && size % alignment == 0
    }
  }

  /** Any multiple of a power of two is a size of that alignment. */
  lemma LayoutsThereAre(n: nat, k: nat)
    requires 0 < n && k < 64
    ensures Layout(n * Pow2(k), Pow2(k)).Valid()
  {
    MultipleHasNoRemainder(n, Pow2(k));
    AtLeastOnce(n, Pow2(k));
    WordHas64Bits();
    Pow2Grows(k, 64);
  }

  /** The addresses `DestroyElements` visits in a range. */
  function Walk(p: nat, end: nat, size: nat): seq<nat>
    requires 0 < size
    decreases end - p
  {
    if p + size <= end then [p] + Walk(p + size, end, size) else []
  }

  /** The range walked in one slab, and what is visited there. */
  function InSlab(cfg: Config, st: Arena, t: Layout, i: nat): seq<nat>
    requires i < |st.slabs| && 0 < t.size && 0 < t.alignment < WORD
  {
    var end := if st.slabs[i] == st.slabs[|st.slabs| - 1] then st.cur else st.slabs[i] + SlabBytes(cfg, i);
    Walk(AlignAddr(st.slabs[i], t.alignment), end, t.size)
  }

  function InSlabs(cfg: Config, st: Arena, t: Layout, n: nat): seq<nat>
    requires n <= |st.slabs| && 0 < t.size && 0 < t.alignment < WORD
  {
    if n == 0 then [] else InSlabs(cfg, st, t, n - 1) + InSlab(cfg, st, t, n - 1)
  }

  function InCustom(b: Block, t: Layout): seq<nat>
    requires 0 < t.size && 0 < t.alignment < WORD
  {
    Walk(AlignAddr(b.base, t.alignment), b.End(), t.size)
  }

  function InCustoms(bs: seq<Block>, t: Layout): seq<nat>
    requires 0 < t.size && 0 < t.alignment < WORD
  {
    if bs == [] then [] else InCustoms(bs[..|bs| - 1], t) + InCustom(bs[|bs| - 1], t)
  }

  function Destroyed(cfg: Config, st: Arena, t: Layout): seq<nat>
    requires 0 < t.size && 0 < t.alignment < WORD
  {
    InSlabs(cfg, st, t, |st.slabs|) + InCustoms(st.customs, t)
  }

  // ------------------------------------------------------------------ the class

  class SpecificBumpPtrAllocator {
    const t: Layout
    const allocator: BumpPtrAllocator

    constructor (cfg: Config, t: Layout)
      ensures this.t == t && fresh(allocator) && allocator.cfg == cfg && allocator.State() == EMPTY
    {
      this.t := t;
      allocator := new BumpPtrAllocator(cfg);
    }

    method Allocate(mem: nat) returns (p: nat)
      requires allocator.cfg.Valid() && Admissible(allocator.cfg, allocator.State(), t.size, t.alignment, mem)
      modifies allocator
      ensures (p, allocator.State())
           == AllocateStep(allocator.cfg, old(allocator.State()), t.size, t.alignment, mem)
    {
      p := allocator.Allocate(t.size, t.alignment, mem);
    }

    method DestroyElements(begin: nat, end: nat) returns (visited: seq<nat>)
      requires 0 < t.size
      ensures visited == Walk(begin, end, t.size)
    {
      visited := [];
      var p := begin;
      while p + t.size <= end
        invariant visited + Walk(p, end, t.size) == Walk(begin, end, t.size)
        decreases end - p
      {
        visited := visited + [p];
        p := p + t.size;
      }
    }

    method DestroyAll() returns (visited: seq<nat>)
      requires 0 < t.size && 0 < t.alignment < WORD
      ensures visited == Destroyed(allocator.cfg, allocator.State(), t)
    {
      var a := allocator;
      var slabs, customs := a.slabs, a.customSizedSlabs;
      ghost var cfg, st := a.cfg, a.State();
      visited := [];
      for i := 0 to |slabs|
        invariant visited == InSlabs(cfg, st, t, i)
      {
        var allocatedSlabSize := SlabBytes(a.cfg, i);
        var begin := AlignAddr(slabs[i], t.alignment);
        var end := if slabs[i] == slabs[|slabs| - 1] then a.curPtr else slabs[i] + allocatedSlabSize;
        var some := DestroyElements(begin, end);
        assert some == InSlab(cfg, st, t, i);
        visited := visited + some;
      }
      ghost var inSlabs := visited;
      for i := 0 to |customs|
        invariant visited == inSlabs + InCustoms(customs[..i], t)
      {
        var b := customs[i];
        var some := DestroyElements(AlignAddr(b.base, t.alignment), b.End());
        assert customs[..i + 1][..i] == customs[..i];
        visited := visited + some;
      }
      assert customs[..|customs|] == customs;
    }
  }

  // ------------------------------------------------------------ walking a range

  /** From a whole number of objects, one more object is one more visit. */
  lemma {:induction false} WalkOneMore(p: nat, k: nat, size: nat)
    requires 0 < size
    ensures Walk(p, p + (k + 1) * size, size) == Walk(p, p + k * size, size) + [p + k * size]
    decreases k
  {
    assert (k + 1) * size == k * size + size;
    if k == 0 {
      assert Walk(p + size, p + size, size) == [];
    } else {
      assert k * size == (k - 1) * size + size;
      WalkOneMore(p + size, k - 1, size);
      assert p + size + (k - 1 + 1) * size == p + (k + 1) * size;
      assert p + size + (k - 1) * size == p + k * size;
    }
  }

  /** Bytes too few for another object make no difference. */
  lemma {:induction false} WalkIgnoresRemainder(p: nat, k: nat, size: nat, end: nat)
    requires 0 < size && p + k * size <= end < p + k * size + size
    ensures Walk(p, end, size) == Walk(p, p + k * size, size)
    decreases k
  {
    if k > 0 {
      assert k * size == (k - 1) * size + size;
      WalkIgnoresRemainder(p + size, k - 1, size, end);
      assert p + size + (k - 1) * size == p + k * size;
    }
  }

  // ------------------------------------------------------------- the invariant

  /** The current slab holds `k` objects, the first at its aligned start. */
  predicate Filled(st: Arena, t: Layout, k: nat)
    requires st.slabs != [] && 0 < t.alignment < WORD
  {
    var first := AlignAddr(st.slabs[|st.slabs| - 1], t.alignment);
    first % t.alignment == 0 && st.cur == first + k * t.size
  }

  /** Whether objects of this type get blocks of their own. */
  predicate Oversized(cfg: Config, t: Layout) {
    t.size + t.alignment > cfg.sizeThreshold + 1
  }

  /** `log` holds the addresses returned so far. */
  ghost predicate Accounted(cfg: Config, st: Arena, t: Layout, log: seq<nat>)
    requires t.Valid()
  {
    && Destroyed(cfg, st, t) == log
    && if Oversized(cfg, t) then st.slabs == [] && st.cur == st.end == 0
       else
         && st.customs == []
         && Distinct(st.slabs)
         && (st.slabs == [] ==> st.cur == st.end == 0)
         && (st.slabs != [] ==>
               && st.end == st.slabs[|st.slabs| - 1] + SlabBytes(cfg, |st.slabs| - 1)
               && st.cur <= st.end
               && exists k: nat :: Filled(st, t, k))
  }

  // ------------------------------------------------------- one more allocation

  lemma SizeAtLeastAlignment(t: Layout)
    requires t.Valid()
    ensures t.alignment <= t.size
  {
    var q := MultipleOf(t.size, t.alignment);
    AtLeastOnce(q, t.alignment);
  }

  /** An object behind whole objects needs no adjustment. */
  lemma AlignedBehindObjects(t: Layout, b: nat, k: nat)
    requires t.Valid() && b % t.alignment == 0 && b + k * t.size + t.alignment - 1 < WORD
    ensures AlignAddr(b + k * t.size, t.alignment) == b + k * t.size
  {
    MultipleOfMultiple(k, t.size, t.alignment);
    SumOfMultiples(b, k * t.size, t.alignment);
    AlignAddrIsLeast(b + k * t.size, t.alignment);
  }

  lemma MultipleOfMultiple(k: nat, n: nat, a: nat)
    requires 0 < a && n % a == 0
    ensures k * n % a == 0
  {
    var q := MultipleOf(n, a);
    Reassociate(k, q, a);
    MultipleHasNoRemainder(k * q, a);
  }

  lemma Reassociate(k: nat, q: nat, a: nat)
    ensures k * (q * a) == (k * q) * a
  {
  }

  lemma SumOfMultiples(m: nat, n: nat, a: nat)
    requires 0 < a && m % a == 0 && n % a == 0
    ensures (m + n) % a == 0
  {
    var p := MultipleOf(m, a);
    var q := MultipleOf(n, a);
    DistributeSum(p, q, a);
    MultipleHasNoRemainder(p + q, a);
  }

  lemma SlabIsABlock(cfg: Config, slabs: seq<nat>, i: nat)
    requires i < |slabs|
    ensures Block(slabs[i], SlabBytes(cfg, i)) in SlabBlocks(cfg, slabs)
  {
    var n := |slabs| - 1;
    if i < n {
      SlabIsABlock(cfg, slabs[..n], i);
    }
  }

  lemma NewSlabIsDistinct(cfg: Config, st: Arena, b: Block)
    requires cfg.Valid() && IsFresh(cfg, st, b) && 0 < b.len && Distinct(st.slabs)
    ensures Distinct(st.slabs + [b.base])
  {
    forall i | 0 <= i < |st.slabs| ensures st.slabs[i] != b.base {
      SlabIsABlock(cfg, st.slabs, i);
      SlabBytesInRange(cfg, i);
      assert Apart(b, Block(st.slabs[i], SlabBytes(cfg, i)));
    }
  }

  /** Slabs before the last are walked to their end, whatever comes after. */
  lemma EarlierSlabUnchanged(cfg: Config, st: Arena, st': Arena, t: Layout, i: nat)
    requires 0 < t.size && 0 < t.alignment < WORD
    requires i + 1 < |st.slabs| && i + 1 < |st'.slabs| && st.slabs[i] == st'.slabs[i]
    requires Distinct(st.slabs) && Distinct(st'.slabs)
    ensures InSlab(cfg, st, t, i) == InSlab(cfg, st', t, i)
  {
    assert st.slabs[i] != st.slabs[|st.slabs| - 1] && st'.slabs[i] != st'.slabs[|st'.slabs| - 1];
  }

  lemma {:induction false} EarlierSlabsUnchanged(cfg: Config, st: Arena, st': Arena, t: Layout, n: nat)
    requires 0 < t.size && 0 < t.alignment < WORD
    requires n < |st.slabs| && n < |st'.slabs| && forall i :: 0 <= i < n ==> st.slabs[i] == st'.slabs[i]
    requires Distinct(st.slabs) && Distinct(st'.slabs)
    ensures InSlabs(cfg, st, t, n) == InSlabs(cfg, st', t, n)
  {
    if n > 0 {
      EarlierSlabUnchanged(cfg, st, st', t, n - 1);
      EarlierSlabsUnchanged(cfg, st, st', t, n - 1);
    }
  }

  lemma CustomIsAccounted(cfg: Config, st: Arena, t: Layout, log: seq<nat>, mem: nat)
    requires t.Valid() && Accounted(cfg, st, t, log) && Oversized(cfg, t)
    requires mem + t.size + t.alignment - 1 < WORD
    ensures var b := Block(mem, t.size + t.alignment - 1);
            Accounted(cfg, st.(customs := st.customs + [b], bytesAllocated := st.bytesAllocated + t.size), t,
                      log + [AlignAddr(mem, t.alignment)])
  {
    var p := AlignAddr(mem, t.alignment);
    var b := Block(mem, t.size + t.alignment - 1);
    AlignAddrIsClose(mem, t.alignment);
    SizeAtLeastAlignment(t);
    assert Walk(p + t.size, b.End(), t.size) == [];
    assert InCustom(b, t) == [p];
    assert (st.customs + [b])[..|st.customs|] == st.customs;
  }

  lemma BumpIsAccounted(cfg: Config, st: Arena, t: Layout, log: seq<nat>, k: nat)
    requires t.Valid() && Accounted(cfg, st, t, log) && !Oversized(cfg, t)
    requires st.slabs != [] && Filled(st, t, k) && st.cur + t.size <= st.end
    ensures Accounted(cfg, st.(cur := st.cur + t.size, bytesAllocated := st.bytesAllocated + t.size), t, log + [st.cur])
  {
    var st' := st.(cur := st.cur + t.size, bytesAllocated := st.bytesAllocated + t.size);
    var n := |st.slabs| - 1;
    EarlierSlabsUnchanged(cfg, st, st', t, n);
    OneMoreInSlab(cfg, st, st', t, k);
    NextFilled(st, st', t, k);
  }

  lemma OneMoreInSlab(cfg: Config, st: Arena, st': Arena, t: Layout, k: nat)
    requires t.Valid() && st.slabs != [] && st'.slabs == st.slabs && Filled(st, t, k) && st'.cur == st.cur + t.size
    ensures InSlab(cfg, st', t, |st.slabs| - 1) == InSlab(cfg, st, t, |st.slabs| - 1) + [st.cur]
  {
    WalkOneMore(AlignAddr(st.slabs[|st.slabs| - 1], t.alignment), k, t.size);
    NextFilled(st, st', t, k);
  }

  lemma NextFilled(st: Arena, st': Arena, t: Layout, k: nat)
    requires t.Valid() && st.slabs != [] && st'.slabs == st.slabs && Filled(st, t, k) && st'.cur == st.cur + t.size
    ensures Filled(st', t, k + 1)
  {
    assert (k + 1) * t.size == k * t.size + t.size;
  }

  /** A slab with no room for another object is walked to the last object,
      also once it is no longer the current one. */
  lemma FullSlabsUnchanged(cfg: Config, st: Arena, st': Arena, t: Layout)
    requires t.Valid() && Distinct(st.slabs) && Distinct(st'.slabs)
    requires |st'.slabs| == |st.slabs| + 1 && st'.slabs[..|st.slabs|] == st.slabs
    requires st.slabs != [] ==>
               && st.end == st.slabs[|st.slabs| - 1] + SlabBytes(cfg, |st.slabs| - 1)
               && st.cur <= st.end < st.cur + t.size && exists k: nat :: Filled(st, t, k)
    ensures InSlabs(cfg, st', t, |st.slabs|) == InSlabs(cfg, st, t, |st.slabs|)
  {
    if st.slabs != [] {
      var n := |st.slabs| - 1;
      assert forall i :: 0 <= i <= n ==> st'.slabs[i] == st'.slabs[..|st.slabs|][i];
      EarlierSlabsUnchanged(cfg, st, st', t, n);
      FullSlabUnchanged(cfg, st, st', t, n);
    }
  }

  lemma FullSlabUnchanged(cfg: Config, st: Arena, st': Arena, t: Layout, n: nat)
    requires t.Valid() && Distinct(st'.slabs) && |st.slabs| == n + 1 && |st'.slabs| == n + 2
    requires st'.slabs[n] == st.slabs[n] && st.end == st.slabs[n] + SlabBytes(cfg, n)
    requires st.cur <= st.end < st.cur + t.size && exists k: nat :: Filled(st, t, k)
    ensures InSlab(cfg, st', t, n) == InSlab(cfg, st, t, n)
  {
    var k: nat :| Filled(st, t, k);
    WalkIgnoresRemainder(AlignAddr(st.slabs[n], t.alignment), k, t.size, st.end);
    assert st'.slabs[n] != st'.slabs[n + 1];
  }

  /** A new slab with one object in it is one more visit. */
  lemma FreshSlabIsWalked(cfg: Config, st: Arena, st': Arena, t: Layout, b: Block)
    requires t.Valid() && Distinct(st.slabs) && Distinct(st'.slabs) && st'.slabs == st.slabs + [b.base]
    requires st'.cur == AlignAddr(b.base, t.alignment) + t.size
    requires st.slabs != [] ==>
               && st.end == st.slabs[|st.slabs| - 1] + SlabBytes(cfg, |st.slabs| - 1)
               && st.cur <= st.end < st.cur + t.size && exists k: nat :: Filled(st, t, k)
    ensures InSlabs(cfg, st', t, |st'.slabs|)
         == InSlabs(cfg, st, t, |st.slabs|) + [AlignAddr(b.base, t.alignment)]
  {
    assert st'.slabs[..|st.slabs|] == st.slabs;
    FullSlabsUnchanged(cfg, st, st', t);
    OneInSlab(cfg, st', t);
  }

  lemma OneInSlab(cfg: Config, st: Arena, t: Layout)
    requires t.Valid() && st.slabs != []
    requires st.cur == AlignAddr(st.slabs[|st.slabs| - 1], t.alignment) + t.size
    ensures InSlab(cfg, st, t, |st.slabs| - 1) == [AlignAddr(st.slabs[|st.slabs| - 1], t.alignment)]
  {
    assert Walk(st.cur, st.cur, t.size) == [];
  }

  lemma FreshSlabIsAccounted(cfg: Config, st: Arena, t: Layout, log: seq<nat>, b: Block)
    requires cfg.Valid() && t.Valid() && Accounted(cfg, st, t, log) && !Oversized(cfg, t)
    requires IsFresh(cfg, st, b) && b.len == SlabBytes(cfg, |st.slabs|)
    requires st.slabs != [] ==> st.end < st.cur + t.size
    ensures var p := AlignAddr(b.base, t.alignment);
            Accounted(cfg, st.(slabs := st.slabs + [b.base], cur := p + t.size, end := b.End(),
                               bytesAllocated := st.bytesAllocated + t.size), t, log + [p])
  {
    var p := AlignAddr(b.base, t.alignment);
    var st' := st.(slabs := st.slabs + [b.base], cur := p + t.size, end := b.End(),
                   bytesAllocated := st.bytesAllocated + t.size);
    SlabBytesInRange(cfg, |st.slabs|);
    AlignAddrIsClose(b.base, t.alignment);
    NewSlabIsDistinct(cfg, st, b);
    FreshSlabIsWalked(cfg, st, st', t, b);
    assert Filled(st', t, 1);
    assert InCustoms(st.customs, t) == [];
  }

  lemma ZeroIsAligned(a: nat)
    requires Alignment(a)
    ensures AlignAddr(0, a) == 0
  {
    AlignAddrIsLeast(0, a);
    assert 0 % a == 0;
  }

  lemma WhenNothingFits(cfg: Config, st: Arena, t: Layout, mem: nat)
    requires cfg.Valid() && t.Valid() && Admissible(cfg, st, t.size, t.alignment, mem)
    requires AlignAddr(st.cur, t.alignment) == st.cur && st.end < st.cur + t.size
    ensures PlanFor(cfg, st, t.size, t.alignment)
         == if Oversized(cfg, t) then Custom(t.size + t.alignment - 1) else FreshSlab(SlabBytes(cfg, |st.slabs|))
  {
  }

  lemma OversizedStep(cfg: Config, st: Arena, t: Layout, log: seq<nat>, mem: nat)
    requires cfg.Valid() && t.Valid() && Accounted(cfg, st, t, log) && Oversized(cfg, t)
    requires Admissible(cfg, st, t.size, t.alignment, mem)
    ensures var (p, st') := AllocateStep(cfg, st, t.size, t.alignment, mem); Accounted(cfg, st', t, log + [p])
  {
    ZeroIsAligned(t.alignment);
    WhenNothingFits(cfg, st, t, mem);
    CustomIsAccounted(cfg, st, t, log, mem);
  }

  lemma FullStep(cfg: Config, st: Arena, t: Layout, log: seq<nat>, mem: nat)
    requires cfg.Valid() && t.Valid() && Accounted(cfg, st, t, log) && !Oversized(cfg, t)
    requires Admissible(cfg, st, t.size, t.alignment, mem)
    requires AlignAddr(st.cur, t.alignment) == st.cur && st.end < st.cur + t.size
    ensures var (p, st') := AllocateStep(cfg, st, t.size, t.alignment, mem); Accounted(cfg, st', t, log + [p])
  {
    FullStepTakesSlab(cfg, st, t, mem);
    FreshSlabIsAccounted(cfg, st, t, log, Block(mem, SlabBytes(cfg, |st.slabs|)));
  }

  lemma FullStepTakesSlab(cfg: Config, st: Arena, t: Layout, mem: nat)
    requires cfg.Valid() && t.Valid() && Admissible(cfg, st, t.size, t.alignment, mem) && !Oversized(cfg, t)
    requires AlignAddr(st.cur, t.alignment) == st.cur && st.end < st.cur + t.size
    ensures var b, p := Block(mem, SlabBytes(cfg, |st.slabs|)), AlignAddr(mem, t.alignment);
            && IsFresh(cfg, st, b)
            && AllocateStep(cfg, st, t.size, t.alignment, mem)
            == (p, st.(slabs := st.slabs + [mem], cur := p + t.size, end := b.End(),
                       bytesAllocated := st.bytesAllocated + t.size))
  {
    WhenNothingFits(cfg, st, t, mem);
  }

  lemma RoomyStep(cfg: Config, st: Arena, t: Layout, log: seq<nat>, mem: nat)
    requires cfg.Valid() && t.Valid() && Accounted(cfg, st, t, log) && !Oversized(cfg, t) && st.slabs != []
    requires Admissible(cfg, st, t.size, t.alignment, mem)
    requires AlignAddr(st.cur, t.alignment) == st.cur && st.cur + t.size <= st.end
    ensures var (p, st') := AllocateStep(cfg, st, t.size, t.alignment, mem); Accounted(cfg, st', t, log + [p])
  {
    var k: nat :| Filled(st, t, k);
    RoomyStepBumps(cfg, st, t, mem);
    BumpIsAccounted(cfg, st, t, log, k);
  }

  lemma RoomyStepBumps(cfg: Config, st: Arena, t: Layout, mem: nat)
    requires t.Valid() && Admissible(cfg, st, t.size, t.alignment, mem)
    requires AlignAddr(st.cur, t.alignment) == st.cur && st.cur + t.size <= st.end
    ensures AllocateStep(cfg, st, t.size, t.alignment, mem)
         == (st.cur, st.(cur := st.cur + t.size, bytesAllocated := st.bytesAllocated + t.size))
  {
    assert PlanFor(cfg, st, t.size, t.alignment) == Bump(0);
  }

  /** One allocation adds exactly its address to what will be destroyed. */
  lemma StepIsAccounted(cfg: Config, st: Arena, t: Layout, log: seq<nat>, mem: nat)
    requires cfg.Valid() && t.Valid() && Accounted(cfg, st, t, log)
    requires Admissible(cfg, st, t.size, t.alignment, mem)
    ensures var (p, st') := AllocateStep(cfg, st, t.size, t.alignment, mem); Accounted(cfg, st', t, log + [p])
  {
    if Oversized(cfg, t) {
      OversizedStep(cfg, st, t, log, mem);
    } else {
      if st.slabs == [] {
        ZeroIsAligned(t.alignment);
      } else {
        CurrentIsAligned(st, t);
      }
      if st.cur + t.size <= st.end {
        RoomyStep(cfg, st, t, log, mem);
      } else {
        FullStep(cfg, st, t, log, mem);
      }
    }
  }

  lemma CurrentIsAligned(st: Arena, t: Layout)
    requires t.Valid() && st.slabs != [] && (exists k: nat :: Filled(st, t, k))
    requires st.cur + t.alignment - 1 < WORD
    ensures AlignAddr(st.cur, t.alignment) == st.cur
  {
    var k: nat :| Filled(st, t, k);
    AlignedBehindObjects(t, AlignAddr(st.slabs[|st.slabs| - 1], t.alignment), k);
  }

  // ------------------------------------------------------------------ whole runs

  /** One object each, where malloc answers with `mems`. */
  function Requests(t: Layout, mems: seq<nat>): (rs: seq<Request>)
    ensures |rs| == |mems| && forall i :: 0 <= i < |mems| ==> rs[i] == Request(t.size, t.alignment, mems[i])
  {
    seq(|mems|, i requires 0 <= i < |mems| => Request(t.size, t.alignment, mems[i]))
  }

  function Addresses(log: seq<Block>): (ps: seq<nat>)
    ensures |ps| == |log| && forall i :: 0 <= i < |log| ==> ps[i] == log[i].base
  {
    seq(|log|, i requires 0 <= i < |log| => log[i].base)
  }

  /** There are such runs: whatever the configuration and the layout, malloc can
      answer the first request. */
  lemma FirstAllocationIsAdmissible(cfg: Config, t: Layout)
    requires cfg.Valid() && t.Valid() && t.size + t.alignment < WORD
    ensures AdmissibleRun(cfg, Requests(t, [1])) && |RunOf(cfg, Requests(t, [1])).log| == 1
  {
    var rs := Requests(t, [1]);
    assert rs[..0] == [] && AdmissibleRun(cfg, rs[..0]) && RunOf(cfg, rs[..0]).arena == EMPTY;
    ZeroIsAligned(t.alignment);
    SlabBytesInRange(cfg, 0);
    assert SlabBytes(cfg, 0) == cfg.slabSize < WORD - 1 by {
      Pow2Grows(1, 30);
      ScaleGrows(cfg.slabSize, Pow2(1), Pow2(30));
    }
    assert Admissible(cfg, EMPTY, t.size, t.alignment, 1);
  }

  lemma NothingIsAccounted(cfg: Config, t: Layout)
    requires t.Valid()
    ensures Accounted(cfg, EMPTY, t, [])
  {
  }

  lemma {:induction false} RunIsAccounted(cfg: Config, t: Layout, mems: seq<nat>)
    requires cfg.Valid() && t.Valid() && AdmissibleRun(cfg, Requests(t, mems))
    ensures var run := RunOf(cfg, Requests(t, mems)); Accounted(cfg, run.arena, t, Addresses(run.log))
  {
    var rs := Requests(t, mems);
    if mems == [] {
      NothingIsAccounted(cfg, t);
      assert Addresses(RunOf(cfg, rs).log) == [];
    } else {
      var n := |mems| - 1;
      assert rs[..n] == Requests(t, mems[..n]);
      var before := RunOf(cfg, rs[..n]);
      RunIsAccounted(cfg, t, mems[..n]);
      StepIsAccounted(cfg, before.arena, t, Addresses(before.log), mems[n]);
      assert RunOf(cfg, rs) == AfterStep(cfg, before, rs[n]);
      AddressesGrow(before.log, RunOf(cfg, rs).log[n]);
    }
  }

  lemma AddressesGrow(log: seq<Block>, r: Block)
    ensures Addresses(log + [r]) == Addresses(log) + [r.base]
  {
  }

  /** After any run the addresses returned are all different, and the destructor
      visits exactly those, each once and in the order in which they were returned. */
  lemma DestroysWhatWasAllocated(cfg: Config, t: Layout, mems: seq<nat>)
    requires cfg.Valid() && t.Valid() && AdmissibleRun(cfg, Requests(t, mems))
    ensures var run := RunOf(cfg, Requests(t, mems));
            && Destroyed(cfg, run.arena, t) == Addresses(run.log)
            && |run.log| == |mems| && Distinct(Addresses(run.log))
  {
    var rs := Requests(t, mems);
    var log := RunOf(cfg, rs).log;
    RunIsAccounted(cfg, t, mems);
    RunIsSafe(cfg, rs);
    RunIsAligned(cfg, rs);
    forall i, j | 0 <= i < j < |log| ensures log[i].base != log[j].base {
      assert Serves(log[i], rs[i]) && Serves(log[j], rs[j]) && Apart(log[i], log[j]);
    }
  }
}
