/** The bump-pointer allocator: what one allocation does, the class that does
    it, and what holds of every run. Addresses and sizes are 64-bit words. */
module Allocator {
  import opened Words

  /** The two template parameters. */
  datatype Config = Config(slabSize: nat, sizeThreshold: nat) {
    predicate Valid() {
      0 < slabSize && sizeThreshold <= slabSize && slabSize * Pow2(30) < WORD
    }
  }

  /** Doubles every 128 slabs, up to 2^30 times the first size. */
  function SlabBytes(cfg: Config, index: nat): nat
  {
    cfg.slabSize * Pow2(if index / 128 < 30 then index / 128 else 30)
  }

  lemma SlabBytesInRange(cfg: Config, index: nat)
    requires cfg.Valid()
    ensures cfg.slabSize <= SlabBytes(cfg, index) < WORD
  {
    var e := if index / 128 < 30 then index / 128 else 30;
    Pow2Grows(0, e);
    Pow2Grows(e, 30);
    ScaleGrows(cfg.slabSize, 1, Pow2(e));
    ScaleGrows(cfg.slabSize, Pow2(e), Pow2(30));
  }

  /** As the source announces it: the size stays for 128 slabs, then doubles, and
      after thirty doublings no more. */
  lemma SlabBytesDouble(cfg: Config, index: nat)
    ensures SlabBytes(cfg, 0) == cfg.slabSize
    ensures index % 128 != 127 ==> SlabBytes(cfg, index + 1) == SlabBytes(cfg, index)
    ensures index < 30 * 128 ==> SlabBytes(cfg, index + 128) == 2 * SlabBytes(cfg, index)
    ensures index >= 30 * 128 ==> SlabBytes(cfg, index) == cfg.slabSize * Pow2(30)
  {
    if index < 30 * 128 {
      var e := index / 128;
      assert (index + 128) / 128 == e + 1 && Pow2(e + 1) == 2 * Pow2(e);
      Scaled(cfg.slabSize, Pow2(e));
    }
  }

  lemma Scaled(s: nat, a: nat)
    ensures s * (2 * a) == 2 * (s * a)
  {
  }

  lemma ScaleGrows(s: nat, a: nat, b: nat)
    requires a <= b
    ensures s * a <= s * b
  {
    assert s * b == s * a + s * (b - a);
  }

  datatype Block = Block(base: nat, len: nat) {
    function End(): nat {
      base + len
    }
  }

  predicate Apart(a: Block, b: Block) {
    a.End() <= b.base || b.End() <= a.base
  }

  predicate Inside(a: Block, b: Block) {
    b.base <= a.base && a.End() <= b.End()
  }

  /** The fields of the allocator. */
  datatype Arena = Arena(cur: nat, end: nat, slabs: seq<nat>, customs: seq<Block>, bytesAllocated: nat)

  const EMPTY: Arena := Arena(0, 0, [], [], 0)

  function SlabBlocks(cfg: Config, slabs: seq<nat>): (bs: seq<Block>)
    ensures |bs| == |slabs|
  {
    if slabs == [] then []
    else
      var n := |slabs| - 1;
      SlabBlocks(cfg, slabs[..n]) + [Block(slabs[n], SlabBytes(cfg, n))]
  }

  /** All memory obtained from malloc and not freed. */
  function Blocks(cfg: Config, st: Arena): seq<Block> {
    SlabBlocks(cfg, st.slabs) + st.customs
  }

  // ---------------------------------------------------------- one allocation

  datatype Plan = Bump(adjustment: nat) | Custom(bytes: nat) | FreshSlab(bytes: nat)

  function PlanFor(cfg: Config, st: Arena, size: nat, alignment: nat): Plan
    requires Alignment(alignment) && st.cur + alignment - 1 < WORD
  {
    AlignAddrIsClose(st.cur, alignment);
    var adjustment := AlignAddr(st.cur, alignment) - st.cur;
    if st.cur + adjustment + size <= st.end then Bump(adjustment)
    else if size + alignment - 1 > cfg.sizeThreshold then Custom(size + alignment - 1)
    else FreshSlab(SlabBytes(cfg, |st.slabs|))
  }

  /** What the source asks of a call, and of the address malloc would return:
      no sum wraps, and a fresh block is nowhere in use. */
  ghost predicate Admissible(cfg: Config, st: Arena, size: nat, alignment: nat, mem: nat)
  {
    && Alignment(alignment) && st.cur + alignment - 1 < WORD
    && st.cur + alignment + size < WORD && st.bytesAllocated + size < WORD
    && match PlanFor(cfg, st, size, alignment)
       case Bump(_) => true
       case Custom(n) => IsFresh(cfg, st, Block(mem, n))
       case FreshSlab(n) => IsFresh(cfg, st, Block(mem, n))
  }

  ghost predicate IsFresh(cfg: Config, st: Arena, b: Block) {
    0 < b.base && b.End() < WORD && forall c <- Blocks(cfg, st) :: Apart(b, c)
  }

  function AllocateStep(cfg: Config, st: Arena, size: nat, alignment: nat, mem: nat): (nat, Arena)
    requires Alignment(alignment) && st.cur + alignment - 1 < WORD
  {
    var st := st.(bytesAllocated := st.bytesAllocated + size);
    match PlanFor(cfg, st, size, alignment)
    case Bump(adjustment) =>
      (st.cur + adjustment, st.(cur := st.cur + adjustment + size))
    case Custom(n) =>
      (AlignAddr(mem, alignment), st.(customs := st.customs + [Block(mem, n)]))
    case FreshSlab(n) =>
      var p := AlignAddr(mem, alignment);
      (p, st.(slabs := st.slabs + [mem], cur := p + size, end := mem + n))
  }

  function SumOfLengths(bs: seq<Block>): nat {
    if bs == [] then 0 else SumOfLengths(bs[..|bs| - 1]) + bs[|bs| - 1].len
  }

  function TotalMemory(cfg: Config, st: Arena): nat {
    SumOfLengths(SlabBlocks(cfg, st.slabs)) + SumOfLengths(st.customs)
  }

  lemma {:induction false} SumOfBoth(bs: seq<Block>, cs: seq<Block>)
    ensures SumOfLengths(bs + cs) == SumOfLengths(bs) + SumOfLengths(cs)
  {
    if cs == [] {
      assert bs + cs == bs;
    } else {
      var n := |cs| - 1;
      SumOfBoth(bs, cs[..n]);
      assert (bs + cs)[..|bs| + n] == bs + cs[..n];
    }
  }

  /** The total is that of all blocks obtained, and nothing for a new allocator. */
  lemma TotalIsOfBlocks(cfg: Config, st: Arena)
    ensures TotalMemory(cfg, st) == SumOfLengths(Blocks(cfg, st))
    ensures TotalMemory(cfg, EMPTY) == 0
  {
    SumOfBoth(SlabBlocks(cfg, st.slabs), st.customs);
  }

  /** The configurations for which the largest slab has a 64-bit size. */
  lemma ConfigIsValid(cfg: Config)
    ensures cfg.Valid() <==> 0 < cfg.slabSize < 0x4_0000_0000 && cfg.sizeThreshold <= cfg.slabSize
  {
    assert Pow2(10) == 1024;
    Pow2Sum(10, 10);
    Pow2Sum(20, 10);
  }

  lemma SumOfAppended(bs: seq<Block>, b: Block)
    ensures SumOfLengths(bs + [b]) == SumOfLengths(bs) + b.len
  {
    assert (bs + [b])[..|bs|] == bs;
  }

  lemma SlabBlocksOfAppended(cfg: Config, slabs: seq<nat>, mem: nat)
    ensures SlabBlocks(cfg, slabs + [mem]) == SlabBlocks(cfg, slabs) + [Block(mem, SlabBytes(cfg, |slabs|))]
  {
    assert (slabs + [mem])[..|slabs|] == slabs;
  }

  // ---------------------------------------------------------------- the class

  class BumpPtrAllocator {
    const cfg: Config
    var curPtr: nat
    var end: nat
    var slabs: seq<nat>
    var customSizedSlabs: seq<Block>
    var bytesAllocated: nat

    function State(): Arena
      reads this
    {
      Arena(curPtr, end, slabs, customSizedSlabs, bytesAllocated)
    }

    constructor (cfg: Config)
      ensures this.cfg == cfg && State() == EMPTY
    {
      this.cfg := cfg;
      curPtr, end, slabs, customSizedSlabs, bytesAllocated := 0, 0, [], [], 0;
    }

    method StartNewSlab(mem: nat)
      modifies this
      ensures State() == old(State()).(slabs := old(slabs) + [mem], cur := mem,
                                       end := mem + SlabBytes(cfg, |old(slabs)|))
    {
      var allocatedSlabSize := SlabBytes(cfg, |slabs|);
      slabs := slabs + [mem];
      curPtr := mem;
      end := mem + allocatedSlabSize;
    }

    /** `mem` is the address malloc returns, if it is called. The assertions
        are the ones in the source. */
    method Allocate(size: nat, alignment: nat, mem: nat) returns (p: nat)
      requires cfg.Valid() && Admissible(cfg, State(), size, alignment, mem)
      modifies this
      ensures (p, State()) == AllocateStep(cfg, old(State()), size, alignment, mem)
    {
      bytesAllocated := bytesAllocated + size;
      AlignAddrIsClose(curPtr, alignment);
      var adjustment := AlignAddr(curPtr, alignment) - curPtr;
      assert adjustment + size < WORD;
      if curPtr + adjustment + size <= end {
        p := curPtr + adjustment;
        curPtr := p + size;
        return;
      }
      var paddedSize := size + alignment - 1;
      if paddedSize > cfg.sizeThreshold {
        customSizedSlabs := customSizedSlabs + [Block(mem, paddedSize)];
        AlignAddrIsClose(mem, alignment);
        p := AlignAddr(mem, alignment);
        assert p + size <= mem + paddedSize;
        return;
      }
      SlabBytesInRange(cfg, |slabs|);
      StartNewSlab(mem);
      AlignAddrIsClose(curPtr, alignment);
      p := AlignAddr(curPtr, alignment);
      assert p + size <= end;
      curPtr := p + size;
    }

    method GetTotalMemory() returns (total: nat)
      ensures total == TotalMemory(cfg, State())
    {
      total := 0;
      for i := 0 to |slabs|
        invariant total == SumOfLengths(SlabBlocks(cfg, slabs[..i]))
      {
        SlabBlocksOfAppended(cfg, slabs[..i], slabs[i]);
        SumOfAppended(SlabBlocks(cfg, slabs[..i]), Block(slabs[i], SlabBytes(cfg, i)));
        assert slabs[..i + 1] == slabs[..i] + [slabs[i]];
        total := total + SlabBytes(cfg, i);
      }
      assert slabs[..|slabs|] == slabs;
      ghost var slabTotal := total;
      for i := 0 to |customSizedSlabs|
        invariant total == slabTotal + SumOfLengths(customSizedSlabs[..i])
      {
        SumOfAppended(customSizedSlabs[..i], customSizedSlabs[i]);
        assert customSizedSlabs[..i + 1] == customSizedSlabs[..i] + [customSizedSlabs[i]];
        total := total + customSizedSlabs[i].len;
      }
      assert customSizedSlabs[..|customSizedSlabs|] == customSizedSlabs;
    }
  }
}
