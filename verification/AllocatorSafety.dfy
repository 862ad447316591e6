/** What holds after any run of allocations: regions are aligned, inside live
    memory and pairwise disjoint, and no more is handed out than was obtained. */
module AllocatorSafety {
  import opened Words
  import opened Allocator
  import opened Seals

  // --------------------------------------------------------- safety of a step

  predicate AllApart(bs: seq<Block>, r: Block) {
    forall b {:trigger Apart(b, r)} :: b in bs ==> Apart(b, r)
  }

  predicate PairwiseApart(bs: seq<Block>) {
    forall i, j {:trigger Apart(bs[i], bs[j])} :: 0 <= i < j < |bs| ==> Apart(bs[i], bs[j])
  }

  predicate Housed(r: Block, bs: seq<Block>) {
    r == Block(0, 0) || exists b <- bs :: Inside(r, b)
  }

  predicate AllHoused(rs: seq<Block>, bs: seq<Block>) {
    forall r {:trigger Housed(r, bs)} :: r in rs ==> Housed(r, bs)
  }

  /** The bytes of the current slab that are still free. */
  function Free(st: Arena): Block
    requires st.cur <= st.end
  {
    Block(st.cur, st.end - st.cur)
  }

  /** `log` holds the region of every allocation made so far. A region is in
      a live block, except for an empty one handed out before the first slab. */
  ghost predicate Safe(cfg: Config, st: Arena, log: seq<Block>) {
    && st.cur <= st.end
    && SafeIn(Blocks(cfg, st), Free(st), log)
    && SumOfLengths(log) == st.bytesAllocated
    && st.bytesAllocated + Free(st).len <= TotalMemory(cfg, st)
  }

  ghost predicate SafeIn(bs: seq<Block>, free: Block, log: seq<Block>) {
    forall l {:trigger Open(l)} :: l == log && Open(l) ==>
      Housed(free, bs) && PairwiseApart(l) && AllHoused(l, bs) && AllApart(l, free)
  }

  lemma InsideOfHoused(r: Block, f: Block, bs: seq<Block>)
    requires Inside(r, f) && Housed(f, bs)
    ensures Housed(r, bs)
  {
  }

  lemma StaysHoused(q: Block, bs: seq<Block>, bs': seq<Block>)
    requires Housed(q, bs) && forall b <- bs :: b in bs'
    ensures Housed(q, bs')
  {
  }

  /** A fresh block is apart from whatever is housed, and so is what is in it. */
  lemma FreshIsApart(q: Block, bs: seq<Block>, b: Block, r: Block)
    requires Housed(q, bs) && 0 < b.base && Inside(r, b) && forall c <- bs :: Apart(b, c)
    ensures Apart(q, r)
  {
    if q != Block(0, 0) {
      var c :| c in bs && Inside(q, c);
      assert Apart(b, c);
    }
  }

  lemma PairsGrow(log: seq<Block>, r: Block)
    requires PairwiseApart(log) && AllApart(log, r)
    ensures PairwiseApart(log + [r])
  {
    forall i, j | 0 <= i < j < |log| + 1 ensures Apart((log + [r])[i], (log + [r])[j]) {
      assert log[i] in log;
    }
  }

  /** Cutting a region off the front of the free bytes. */
  lemma BumpIsSafe(bs: seq<Block>, free: Block, log: seq<Block>, r: Block, free': Block)
    requires SafeIn(bs, free, log) && Inside(r, free) && Inside(free', free) && r.End() == free'.base
    ensures SafeIn(bs, free', log + [r])
  {
    assert Open(log);
    InsideOfHoused(r, free, bs);
    InsideOfHoused(free', free, bs);
    forall q <- log ensures Apart(q, r) && Apart(q, free') {
      assert Apart(q, free);
    }
    PairsGrow(log, r);
  }

  /** Taking a region from a fresh block, whose other bytes may or may not
      become the free ones. */
  lemma FreshIsSafe(bs: seq<Block>, bs': seq<Block>, free: Block, log: seq<Block>, b: Block, r: Block)
    requires SafeIn(bs, free, log)
    requires 0 < b.base && Inside(r, b) && forall c <- bs :: Apart(b, c)
    requires b in bs' && forall c <- bs :: c in bs'
    ensures SafeIn(bs', free, log + [r])
    ensures SafeIn(bs', Block(r.End(), b.End() - r.End()), log + [r])
  {
    assert Open(log);
    var free' := Block(r.End(), b.End() - r.End());
    forall q <- log ensures Apart(q, r) && Apart(q, free') && Housed(q, bs') {
      FreshIsApart(q, bs, b, r);
      FreshIsApart(q, bs, b, free');
      StaysHoused(q, bs, bs');
    }
    PairsGrow(log, r);
    StaysHoused(free, bs, bs');
    FreshIsApart(free, bs, b, r);
  }

  lemma BumpStep(cfg: Config, st: Arena, log: seq<Block>, r: Block)
    requires Safe(cfg, st, log) && Inside(r, Free(st))
    ensures Safe(cfg, st.(cur := r.End(), bytesAllocated := st.bytesAllocated + r.len), log + [r])
  {
    SumOfAppended(log, r);
    BumpIsSafe(Blocks(cfg, st), Free(st), log, r, Block(r.End(), st.end - r.End()));
  }

  lemma CustomGrows(cfg: Config, st: Arena, st': Arena, b: Block)
    requires st'.slabs == st.slabs && st'.customs == st.customs + [b]
    ensures Blocks(cfg, st') == Blocks(cfg, st) + [b]
    ensures b in Blocks(cfg, st') && forall c <- Blocks(cfg, st) :: c in Blocks(cfg, st')
    ensures TotalMemory(cfg, st') == TotalMemory(cfg, st) + b.len
  {
    SumOfAppended(st.customs, b);
    assert SlabBlocks(cfg, st.slabs) + (st.customs + [b]) == SlabBlocks(cfg, st.slabs) + st.customs + [b];
    Appended(Blocks(cfg, st), b);
  }

  lemma Appended(bs: seq<Block>, b: Block)
    ensures b in bs + [b] && forall c <- bs :: c in bs + [b]
  {
  }

  lemma CustomStep(cfg: Config, st: Arena, log: seq<Block>, b: Block, r: Block)
    requires Safe(cfg, st, log) && IsFresh(cfg, st, b) && Inside(r, b)
    ensures Safe(cfg, st.(customs := st.customs + [b], bytesAllocated := st.bytesAllocated + r.len), log + [r])
  {
    var st' := st.(customs := st.customs + [b], bytesAllocated := st.bytesAllocated + r.len);
    CustomGrows(cfg, st, st', b);
    FreshIsSafe(Blocks(cfg, st), Blocks(cfg, st'), Free(st), log, b, r);
    SumOfAppended(log, r);
  }

  lemma InsertedAmong(ss: seq<Block>, b: Block, cs: seq<Block>)
    ensures b in ss + [b] + cs && forall c <- ss + cs :: c in ss + [b] + cs
  {
    assert b in ss + [b];
    assert forall c <- ss :: c in ss + [b];
  }

  lemma FreshSlabGrows(cfg: Config, st: Arena, st': Arena, b: Block)
    requires b.len == SlabBytes(cfg, |st.slabs|) && st'.slabs == st.slabs + [b.base] && st'.customs == st.customs
    ensures Blocks(cfg, st') == SlabBlocks(cfg, st.slabs) + [b] + st.customs
    ensures TotalMemory(cfg, st') == TotalMemory(cfg, st) + b.len
  {
    SlabBlocksOfAppended(cfg, st.slabs, b.base);
    SumOfAppended(SlabBlocks(cfg, st.slabs), b);
  }

  lemma FreshSlabStep(cfg: Config, st: Arena, log: seq<Block>, b: Block, r: Block)
    requires Safe(cfg, st, log) && IsFresh(cfg, st, b) && Inside(r, b) && b.len == SlabBytes(cfg, |st.slabs|)
    ensures Safe(cfg, st.(slabs := st.slabs + [b.base], cur := r.End(), end := b.End(),
                          bytesAllocated := st.bytesAllocated + r.len), log + [r])
  {
    var st' := st.(slabs := st.slabs + [b.base], cur := r.End(), end := b.End(),
                   bytesAllocated := st.bytesAllocated + r.len);
    FreshSlabGrows(cfg, st, st', b);
    InsertedAmong(SlabBlocks(cfg, st.slabs), b, st.customs);
    FreshIsSafe(Blocks(cfg, st), Blocks(cfg, st'), Free(st), log, b, r);
    SumOfAppended(log, r);
  }

  /** One allocation returns an aligned region ... */
  lemma StepIsAligned(cfg: Config, st: Arena, size: nat, alignment: nat, mem: nat)
    requires cfg.Valid() && Admissible(cfg, st, size, alignment, mem)
    ensures AllocateStep(cfg, st, size, alignment, mem).0 % alignment == 0
  {
    AlignAddrIsClose(st.cur, alignment);
    match PlanFor(cfg, st, size, alignment)
    case Bump(_) =>
    case Custom(n) => AlignAddrIsClose(mem, alignment);
    case FreshSlab(n) =>
      SlabBytesInRange(cfg, |st.slabs|);
      AlignAddrIsClose(mem, alignment);
  }

  lemma BumpPlan(cfg: Config, st: Arena, size: nat, alignment: nat, mem: nat)
    requires Admissible(cfg, st, size, alignment, mem) && PlanFor(cfg, st, size, alignment).Bump?
    ensures var (p, st') := AllocateStep(cfg, st, size, alignment, mem);
            && st.cur <= p && p + size <= st.end
            && st' == st.(cur := p + size, bytesAllocated := st.bytesAllocated + size)
  {
  }

  lemma BumpIsSafeStep(cfg: Config, st: Arena, log: seq<Block>, size: nat, alignment: nat, mem: nat)
    requires cfg.Valid() && Safe(cfg, st, log) && Admissible(cfg, st, size, alignment, mem)
    requires PlanFor(cfg, st, size, alignment).Bump?
    ensures var (p, st') := AllocateStep(cfg, st, size, alignment, mem); Safe(cfg, st', log + [Block(p, size)])
  {
    var (p, st') := AllocateStep(cfg, st, size, alignment, mem);
    BumpPlan(cfg, st, size, alignment, mem);
    BumpStep(cfg, st, log, Block(p, size));
  }

  lemma CustomIsSafeStep(cfg: Config, st: Arena, log: seq<Block>, size: nat, alignment: nat, mem: nat)
    requires cfg.Valid() && Safe(cfg, st, log) && Admissible(cfg, st, size, alignment, mem)
    requires PlanFor(cfg, st, size, alignment).Custom?
    ensures var (p, st') := AllocateStep(cfg, st, size, alignment, mem); Safe(cfg, st', log + [Block(p, size)])
  {
    var (p, st') := AllocateStep(cfg, st, size, alignment, mem);
    var b := Block(mem, PlanFor(cfg, st, size, alignment).bytes);
    AlignAddrIsClose(mem, alignment);
    CustomStep(cfg, st, log, b, Block(p, size));
    assert st' == st.(customs := st.customs + [b], bytesAllocated := st.bytesAllocated + size);
  }

  lemma FreshSlabIsSafeStep(cfg: Config, st: Arena, log: seq<Block>, size: nat, alignment: nat, mem: nat)
    requires cfg.Valid() && Safe(cfg, st, log) && Admissible(cfg, st, size, alignment, mem)
    requires PlanFor(cfg, st, size, alignment).FreshSlab?
    ensures var (p, st') := AllocateStep(cfg, st, size, alignment, mem); Safe(cfg, st', log + [Block(p, size)])
  {
    var (p, st') := AllocateStep(cfg, st, size, alignment, mem);
    var b := Block(mem, PlanFor(cfg, st, size, alignment).bytes);
    SlabBytesInRange(cfg, |st.slabs|);
    AlignAddrIsClose(mem, alignment);
    FreshSlabStep(cfg, st, log, b, Block(p, size));
    assert st' == st.(slabs := st.slabs + [mem], cur := p + size, end := b.End(),
                      bytesAllocated := st.bytesAllocated + size);
  }

  /** ... and keeps safety. */
  lemma StepIsSafe(cfg: Config, st: Arena, log: seq<Block>, size: nat, alignment: nat, mem: nat)
    requires cfg.Valid() && Safe(cfg, st, log) && Admissible(cfg, st, size, alignment, mem)
    ensures var (p, st') := AllocateStep(cfg, st, size, alignment, mem); Safe(cfg, st', log + [Block(p, size)])
  {
    match PlanFor(cfg, st, size, alignment)
    case Bump(_) => BumpIsSafeStep(cfg, st, log, size, alignment, mem);
    case Custom(_) => CustomIsSafeStep(cfg, st, log, size, alignment, mem);
    case FreshSlab(_) => FreshSlabIsSafeStep(cfg, st, log, size, alignment, mem);
  }

  // ----------------------------------------------------------- whole runs

  datatype Request = Request(size: nat, alignment: nat, mem: nat)
  datatype Run = Run(arena: Arena, log: seq<Block>)

  ghost function AfterStep(cfg: Config, before: Run, q: Request): Run
    requires Admissible(cfg, before.arena, q.size, q.alignment, q.mem)
  {
    var (p, st) := AllocateStep(cfg, before.arena, q.size, q.alignment, q.mem);
    Run(st, before.log + [Block(p, q.size)])
  }

  /** The state and the regions returned after a run from an empty allocator. */
  ghost function RunOf(cfg: Config, rs: seq<Request>): (r: Run)
    ensures |r.log| == if AdmissibleRun(cfg, rs) then |rs| else 0
    decreases rs, 1
  {
    if rs == [] || !AdmissibleRun(cfg, rs) then Run(EMPTY, []) else
    AfterStep(cfg, RunOf(cfg, rs[..|rs| - 1]), rs[|rs| - 1])
  }

  ghost predicate AdmissibleRun(cfg: Config, rs: seq<Request>)
    decreases rs, 0
  {
    rs == [] ||
    (var q := rs[|rs| - 1];
     && AdmissibleRun(cfg, rs[..|rs| - 1])
     && Admissible(cfg, RunOf(cfg, rs[..|rs| - 1]).arena, q.size, q.alignment, q.mem))
  }

  lemma EmptyIsSafe(cfg: Config, st: Arena, log: seq<Block>)
    requires st.cur == st.end == st.bytesAllocated == 0 && st.slabs == [] && st.customs == [] && log == []
    ensures Safe(cfg, st, log)
  {
    assert Free(st) == Block(0, 0);
  }

  lemma NextIsSafe(cfg: Config, run: Run, q: Request)
    requires cfg.Valid() && Safe(cfg, run.arena, run.log)
    requires Admissible(cfg, run.arena, q.size, q.alignment, q.mem)
    ensures Safe(cfg, AfterStep(cfg, run, q).arena, AfterStep(cfg, run, q).log)
  {
    StepIsSafe(cfg, run.arena, run.log, q.size, q.alignment, q.mem);
  }

  /** After any run: every region is in live memory, any two are disjoint, and
      the bytes handed out are at most the bytes obtained. */
  lemma {:induction false} RunIsSafe(cfg: Config, rs: seq<Request>)
    requires cfg.Valid() && AdmissibleRun(cfg, rs)
    ensures Safe(cfg, RunOf(cfg, rs).arena, RunOf(cfg, rs).log)
    ensures PairwiseApart(RunOf(cfg, rs).log) && AllHoused(RunOf(cfg, rs).log, Blocks(cfg, RunOf(cfg, rs).arena))
    ensures SumOfLengths(RunOf(cfg, rs).log) == RunOf(cfg, rs).arena.bytesAllocated
         <= TotalMemory(cfg, RunOf(cfg, rs).arena)
  {
    if rs == [] {
      EmptyIsSafe(cfg, RunOf(cfg, rs).arena, RunOf(cfg, rs).log);
    } else {
      RunIsSafe(cfg, rs[..|rs| - 1]);
      NextIsSafe(cfg, RunOf(cfg, rs[..|rs| - 1]), rs[|rs| - 1]);
    }
    WhatSafeMeans(cfg, RunOf(cfg, rs).arena, RunOf(cfg, rs).log);
  }

  lemma WhatSafeMeans(cfg: Config, st: Arena, log: seq<Block>)
    requires Safe(cfg, st, log)
    ensures PairwiseApart(log) && AllHoused(log, Blocks(cfg, st))
  {
    assert Open(log);
  }

  predicate Serves(r: Block, q: Request) {
    r.len == q.size && 0 < q.alignment && r.base % q.alignment == 0
  }

  /** ... and every region has the size and the alignment that were asked for. */
  lemma {:induction false} RunIsAligned(cfg: Config, rs: seq<Request>)
    requires cfg.Valid() && AdmissibleRun(cfg, rs)
    ensures forall i :: 0 <= i < |rs| ==> Serves(RunOf(cfg, rs).log[i], rs[i])
  {
    if rs != [] {
      var before, q := rs[..|rs| - 1], rs[|rs| - 1];
      RunIsAligned(cfg, before);
      StepIsAligned(cfg, RunOf(cfg, before).arena, q.size, q.alignment, q.mem);
    }
  }
}
