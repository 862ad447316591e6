/** 64-bit words as natural numbers, with the bitwise operations the allocator
    uses defined bit by bit. */
module Words {
  const WORD: nat := 0x1_0000_0000_0000_0000

  function Pow2(k: nat): (p: nat)
    ensures p > 0
  {
    if k == 0 then 1 else 2 * Pow2(k - 1)
  }

  function And(x: nat, y: nat): nat {
    if x == 0 || y == 0 then 0
    else (if x % 2 == 1 && y % 2 == 1 then 1 else 0) + 2 * And(x / 2, y / 2)
  }

  function Or(x: nat, y: nat): nat {
    if x == 0 && y == 0 then 0
    else (if x % 2 == 1 || y % 2 == 1 then 1 else 0) + 2 * Or(x / 2, y / 2)
  }

  predicate Bit(x: nat, k: nat) {
    if k == 0 then x % 2 == 1 else Bit(x / 2, k - 1)
  }

  lemma LowestAndOthers(x: nat, y: nat)
    ensures And(x, y) % 2 == (if x % 2 == 1 && y % 2 == 1 then 1 else 0) && And(x, y) / 2 == And(x / 2, y / 2)
    ensures Or(x, y) % 2 == (if x % 2 == 1 || y % 2 == 1 then 1 else 0) && Or(x, y) / 2 == Or(x / 2, y / 2)
  {
  }

  /** Both work on each bit by itself. */
  lemma {:induction false} BitwiseOperations(x: nat, y: nat, k: nat)
    ensures Bit(And(x, y), k) <==> Bit(x, k) && Bit(y, k)
    ensures Bit(Or(x, y), k) <==> Bit(x, k) || Bit(y, k)
    decreases k
  {
    LowestAndOthers(x, y);
    if k > 0 {
      BitwiseOperations(x / 2, y / 2, k - 1);
    }
  }

  function Not(x: nat): (r: nat)
    requires x < WORD
  {
    WORD - 1 - x
  }

  function ShiftRight(x: nat, k: nat): nat {
    if k == 0 then x else ShiftRight(x / 2, k - 1)
  }

  lemma WordHas64Bits()
    ensures Pow2(64) == WORD
  {
    assert Pow2(4) == 16;
    Pow2Sum(4, 4);
    Pow2Sum(8, 8);
    Pow2Sum(16, 16);
    Pow2Sum(32, 32);
  }

  lemma {:induction false} Pow2Sum(a: nat, b: nat)
    ensures Pow2(a + b) == Pow2(a) * Pow2(b)
  {
    if a > 0 {
      Pow2Sum(a - 1, b);
      assert Pow2(a + b) == 2 * (Pow2(a - 1) * Pow2(b));
    }
  }

  lemma {:induction false} Pow2Grows(a: nat, b: nat)
    requires a <= b
    ensures Pow2(a) <= Pow2(b)
    ensures a < b ==> 2 * Pow2(a) <= Pow2(b)
    decreases b
  {
    if a < b {
      Pow2Grows(a, b - 1);
    }
  }

  lemma DivideTwice(x: nat, p: nat)
    requires p > 0
    ensures x / 2 / p == x / (2 * p)
  {
    var q, r := QuotientAndRemainder(x, 2 * p);
    Associate(q, p);
    QuotientIs(x / 2, p, q, r / 2);
  }

  lemma QuotientAndRemainder(x: nat, a: nat) returns (q: nat, r: nat)
    requires a > 0
    ensures q == x / a && r == x % a < a && x == q * a + r
  {
    q, r := x / a, x % a;
  }

  lemma MultipleOf(m: nat, a: nat) returns (q: nat)
    requires a > 0 && m % a == 0
    ensures m == q * a
  {
    var r: nat;
    q, r := QuotientAndRemainder(m, a);
  }

  lemma AtLeastOnce(d: int, p: nat)
    requires d > 0
    ensures d * p >= p
  {
    assert d * p == (d - 1) * p + p;
  }

  lemma SmallMultiple(d: int, p: nat)
    requires 0 < d * p + p && d * p < p
    ensures d == 0
  {
    if d > 0 {
      AtLeastOnce(d, p);
    } else if d < 0 {
      AtLeastOnce(-d, p);
    }
  }

  lemma Distribute(q: int, t: int, p: int)
    ensures (q - t) * p == q * p - t * p
  {
  }

  lemma DistributeSum(q: int, t: int, p: int)
    ensures (q + t) * p == q * p + t * p
  {
  }

  lemma QuotientIs(x: nat, p: nat, q: nat, r: nat)
    requires r < p && x == q * p + r
    ensures x / p == q && x % p == r
  {
    var t, rest := QuotientAndRemainder(x, p);
    Distribute(q, t, p);
    SmallMultiple(q - t, p);
  }

  // ------------------------------------------------------------- power of two

  ghost predicate IsPow2(v: nat) {
    exists k: nat :: v == Pow2(k)
  }

  predicate IsPowerOf2_64(v: nat) {
    v != 0 && And(v, v - 1) == 0
  }

  lemma {:induction false} AndSelf(x: nat)
    ensures And(x, x) == x
  {
    if x > 0 {
      AndSelf(x / 2);
    }
  }

  /** The bit trick recognises exactly the powers of two. */
  lemma {:induction false} PowerOf2Test(v: nat)
    ensures IsPowerOf2_64(v) <==> IsPow2(v)
  {
    if v == 0 {
    } else if v % 2 == 1 {
      OddPowerOf2Test(v);
    } else {
      var u := v / 2;
      PowerOf2Test(u);
      assert (v - 1) % 2 == 1 && (v - 1) / 2 == u - 1;
      assert And(v, v - 1) == 2 * And(u, u - 1);
      if IsPow2(u) {
        var k: nat :| u == Pow2(k);
        assert v == Pow2(k + 1);
      }
      if IsPow2(v) {
        var k: nat :| v == Pow2(k);
        assert u == Pow2(k - 1);
      }
    }
  }

  lemma OddPowerOf2Test(v: nat)
    requires v % 2 == 1
    ensures IsPowerOf2_64(v) <==> v == 1
    ensures IsPow2(v) <==> v == 1
  {
    assert Pow2(0) == 1;
    var u := v / 2;
    AndSelf(u);
    if v > 1 {
      assert And(v, v - 1) == 2 * And(u, u);
    }
    if IsPow2(v) {
      var k: nat :| v == Pow2(k);
    }
  }

  // ---------------------------------------------------------------- alignment

  lemma {:induction false} AndOnes(x: nat, n: nat)
    requires x < Pow2(n)
    ensures And(x, Pow2(n) - 1) == x
  {
    if x > 0 {
      AndOnes(x / 2, n - 1);
      assert (Pow2(n) - 1) / 2 == Pow2(n - 1) - 1;
    }
  }

  /** Masking off the low bits rounds down to a multiple. */
  lemma {:induction false} AndMask(x: nat, k: nat, n: nat)
    requires k <= n && x < Pow2(n)
    ensures Pow2(k) <= Pow2(n)
    ensures And(x, Pow2(n) - Pow2(k)) == x / Pow2(k) * Pow2(k)
  {
    Pow2Grows(k, n);
    if k == 0 {
      AndOnes(x, n);
    } else {
      var p, m := Pow2(k - 1), Pow2(n - 1);
      AndMask(x / 2, k - 1, n - 1);
      AndEven(x, m - p);
      RoundDownTwice(x, p);
    }
  }

  lemma RoundDownTwice(x: nat, p: nat)
    requires p > 0
    ensures x / (2 * p) * (2 * p) == 2 * (x / 2 / p * p)
  {
    DivideTwice(x, p);
    Associate(x / (2 * p), p);
  }

  lemma Associate(q: nat, p: nat)
    ensures q * (2 * p) == 2 * (q * p)
  {
  }

  lemma AndEven(x: nat, y: nat)
    ensures And(x, 2 * y) == 2 * And(x / 2, y)
  {
  }

  /** `(Addr + Alignment - 1) & ~(Alignment - 1)`, in 64-bit arithmetic. */
  function AlignAddr(addr: nat, alignment: nat): nat
    requires 0 < alignment < WORD
  {
    And((addr + alignment - 1) % WORD, Not(alignment - 1))
  }

  ghost predicate Alignment(a: nat) {
    a < WORD && IsPow2(a)
  }

  lemma ExponentOf(a: nat) returns (k: nat)
    requires Alignment(a)
    ensures k < 64 && a == Pow2(k)
  {
    k :| a == Pow2(k);
    WordHas64Bits();
    if k >= 64 {
      Pow2Grows(64, k);
    }
  }

  lemma AlignAddrIsClose(addr: nat, a: nat)
    requires Alignment(a) && addr + a - 1 < WORD
    ensures addr <= AlignAddr(addr, a) < addr + a && AlignAddr(addr, a) % a == 0
  {
    var q := AlignAddrIsMultiple(addr, a);
    MultipleHasNoRemainder(q, a);
  }

  /** Unless the sum wraps, the result is the least multiple of the alignment
      that is not below the address. */
  lemma AlignAddrIsLeast(addr: nat, a: nat)
    requires Alignment(a) && addr + a - 1 < WORD
    ensures var r := AlignAddr(addr, a);
            && r % a == 0 && addr <= r < addr + a
            && forall m: nat :: m % a == 0 && addr <= m ==> r <= m
  {
    var q := AlignAddrIsMultiple(addr, a);
    MultipleHasNoRemainder(q, a);
    forall m: nat | m % a == 0 && addr <= m ensures q * a <= m {
      MultipleNotBetween(q, a, m);
    }
  }

  lemma AlignAddrIsMultiple(addr: nat, a: nat) returns (q: nat)
    requires Alignment(a) && addr + a - 1 < WORD
    ensures AlignAddr(addr, a) == q * a && addr <= q * a < addr + a
  {
    AlignAddrMasks(addr, a);
    q := RoundedDown(addr + a - 1, a);
  }

  lemma AlignAddrMasks(addr: nat, a: nat)
    requires 0 < a < WORD && addr + a - 1 < WORD
    ensures AlignAddr(addr, a) == And(addr + a - 1, WORD - a)
  {
  }

  lemma RoundedDown(x: nat, a: nat) returns (q: nat)
    requires Alignment(a) && x < WORD
    ensures And(x, WORD - a) == q * a <= x < q * a + a
  {
    var k := ExponentOf(a);
    WordHas64Bits();
    AndMask(x, k, 64);
    var r: nat;
    q, r := QuotientAndRemainder(x, a);
  }

  lemma MultipleNotBetween(q: nat, a: nat, m: nat)
    requires a > 0 && m % a == 0 && q * a < m + a
    ensures q * a <= m
  {
    var t := MultipleOf(m, a);
    Distribute(q, t, a);
    if q > t {
      AtLeastOnce(q - t, a);
    } else if q < t {
      AtLeastOnce(t - q, a);
      Distribute(t, q, a);
    }
  }

  lemma MultipleHasNoRemainder(q: nat, a: nat)
    requires a > 0
    ensures q * a % a == 0
  {
    QuotientIs(q * a, a, q, 0);
  }

  // --------------------------------------------------------- next power of two

  /** The top `s` of the low `m` bits are ones, and there is nothing above. */
  predicate TopOnes(x: nat, m: nat, s: nat) {
    x < Pow2(m) && Pow2(m) <= x + (if s <= m then Pow2(m - s) else 1)
  }

  /** Or-ing a number with itself shifted by the length of its leading run of
      ones doubles that run. */
  lemma {:induction false} SmearDoubles(x: nat, m: nat, s: nat)
    requires s > 0 && TopOnes(x, m, s)
    ensures TopOnes(Or(x, ShiftRight(x, s)), m, 2 * s)
  {
    if m == 0 {
      ShiftOfZero(s);
    } else {
      HalfHasTopOnes(x, m, s);
      SmearDoubles(x / 2, m - 1, s);
      HalfOfShifted(x, s);
      if 2 * s >= m {
        LowBitIsSet(x, m, s);
      }
    }
  }

  lemma {:induction false} HalfOfShifted(x: nat, k: nat)
    ensures ShiftRight(x, k) / 2 == ShiftRight(x / 2, k)
  {
    if k > 0 {
      HalfOfShifted(x / 2, k - 1);
    }
  }

  lemma HalfHasTopOnes(x: nat, m: nat, s: nat)
    requires m > 0 && s > 0 && TopOnes(x, m, s)
    ensures TopOnes(x / 2, m - 1, s)
  {
  }

  lemma LowBitIsSet(x: nat, m: nat, s: nat)
    requires 0 < s && 0 < m <= 2 * s && TopOnes(x, m, s)
    ensures x % 2 == 1 || ShiftRight(x, s) % 2 == 1
  {
    if s < m {
      ShiftedTop(x, m - s, m - s, s);
      AllOnesIsOdd(ShiftRight(x, s), m - s);
    } else {
      assert s == m ==> Pow2(m - s) == 1;
      AllOnesIsOdd(x, m);
    }
  }

  lemma {:induction false} ShiftedTop(x: nat, n: nat, d: nat, s: nat)
    requires d <= s && x < Pow2(n + s) <= x + Pow2(d)
    ensures ShiftRight(x, s) == Pow2(n) - 1
    decreases s
  {
    if s > 0 {
      ShiftedTop(x / 2, n, if d == 0 then 0 else d - 1, s - 1);
    }
  }

  lemma AllOnesIsOdd(x: nat, m: nat)
    requires m > 0 && x + 1 == Pow2(m)
    ensures x % 2 == 1
  {
    assert Pow2(m) == 2 * Pow2(m - 1);
  }

  lemma BitLength(a: nat) returns (m: nat)
    requires 0 < a < WORD
    ensures 0 < m <= 64 && Pow2(m - 1) <= a < Pow2(m)
  {
    WordHas64Bits();
    m := 64;
    while a < Pow2(m - 1)
      invariant 0 < m <= 64 && a < Pow2(m)
    {
      m := m - 1;
    }
  }

  method NextPowerOf2(a0: nat) returns (r: nat)
    requires a0 < WORD
    ensures Pow2(63) <= a0 ==> r == 0
    ensures a0 < Pow2(63) ==> a0 < r && IsPow2(r) && forall k: nat :: a0 < Pow2(k) ==> r <= Pow2(k)
  {
    WordHas64Bits();
    var a := a0;
    a := Or(a, ShiftRight(a, 1));
    a := Or(a, ShiftRight(a, 2));
    a := Or(a, ShiftRight(a, 4));
    a := Or(a, ShiftRight(a, 8));
    a := Or(a, ShiftRight(a, 16));
    a := Or(a, ShiftRight(a, 32));
    SmearedWord(a0, a);
    r := if a + 1 == WORD then 0 else a + 1;
  }

  function Smear(a: nat): nat {
    var a := Or(a, ShiftRight(a, 1));
    var a := Or(a, ShiftRight(a, 2));
    var a := Or(a, ShiftRight(a, 4));
    var a := Or(a, ShiftRight(a, 8));
    var a := Or(a, ShiftRight(a, 16));
    Or(a, ShiftRight(a, 32))
  }

  lemma SmearedWord(a0: nat, a: nat)
    requires a0 < WORD && a == Smear(a0)
    ensures Pow2(63) <= a0 ==> a == WORD - 1
    ensures a0 < Pow2(63) ==>
              a0 < a + 1 <= Pow2(63) && IsPow2(a + 1) && forall k: nat :: a0 < Pow2(k) ==> a + 1 <= Pow2(k)
  {
    WordHas64Bits();
    assert Pow2(64) == 2 * Pow2(63) && Pow2(0) == 1;
    if a0 == 0 {
      SmearOfZero();
      Pow2Grows(0, 63);
    } else {
      var m := BitLength(a0);
      SmearRun(a0, m);
      if m < 64 {
        Pow2Grows(m, 63);
        LeastPowerAbove(a0, m);
      } else {
        assert m - 1 == 63;
      }
    }
  }

  lemma {:induction false} ShiftOfZero(k: nat)
    ensures ShiftRight(0, k) == 0
  {
    if k > 0 {
      ShiftOfZero(k - 1);
    }
  }

  lemma SmearOfZero()
    ensures Smear(0) == 0
  {
    forall k: nat ensures ShiftRight(0, k) == 0 {
      ShiftOfZero(k);
    }
  }

  lemma LeastPowerAbove(a: nat, m: nat)
    requires 0 < m && Pow2(m - 1) <= a < Pow2(m)
    ensures forall k: nat :: a < Pow2(k) ==> Pow2(m) <= Pow2(k)
  {
    forall k: nat | a < Pow2(k) ensures Pow2(m) <= Pow2(k) {
      if k < m {
        Pow2Grows(k, m - 1);
      } else {
        Pow2Grows(m, k);
      }
    }
  }

  lemma SmearRun(a0: nat, m: nat)
    requires 0 < m <= 64 && Pow2(m - 1) <= a0 < Pow2(m)
    ensures Smear(a0) == Pow2(m) - 1
  {
    var a1 := Or(a0, ShiftRight(a0, 1));
    var a2 := Or(a1, ShiftRight(a1, 2));
    var a3 := Or(a2, ShiftRight(a2, 4));
    var a4 := Or(a3, ShiftRight(a3, 8));
    var a5 := Or(a4, ShiftRight(a4, 16));
    SmearDoubles(a0, m, 1);
    SmearDoubles(a1, m, 2);
    SmearDoubles(a2, m, 4);
    SmearDoubles(a3, m, 8);
    SmearDoubles(a4, m, 16);
    SmearDoubles(a5, m, 32);
    assert Pow2(0) == 1;
  }
}
