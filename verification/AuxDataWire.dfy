/** The wire format: which bytes stand where, in terms of bits and powers of two. */
module AuxDataWire {
  import opened LittleEndian
  import opened AuxData
  import opened AuxDataTypeNames
  import opened Words

  /** Sizes as the platform has them. */
  function Bits(k: Scalar): (bits: nat)
    ensures bits > 0
  {
    match k
    case Byte | Bool => 8
    case Addr | Double => 64
    case Uuid => 128
    case Float => 32
    case Int(w) =>
      DigitsAre(w);
      Decimal(Digits(w))
    case Uint(w) =>
      DigitsAre(w);
      Decimal(Digits(w))
  }

  /** The number that a text of digits stands for. */
  function Decimal(digits: string): int {
    if digits == [] then 0
    else 10 * Decimal(digits[..|digits| - 1]) + (digits[|digits| - 1] as int - '0' as int)
  }

  lemma DigitsAre(w: Width)
    ensures Decimal(Digits(w)) == match w case W8 => 8 case W16 => 16 case W32 => 32 case W64 => 64
  {
    var s := Digits(w);
    assert s[..0] == [];
    if |s| == 2 {
      assert s[..1][..0] == [] && s[..1][0] == s[0];
      assert Decimal(s[..1]) == s[0] as int - '0' as int;
    }
  }

  /** A scalar takes as many bits as its type name says, if it says so. */
  lemma SizeOfScalar(k: Scalar, v: Val)
    requires ScalarHasType(k, v)
    ensures 8 * |EncodeScalar(k, v)| == Bits(k)
    ensures k.Int? ==> ScalarName(k) == "int" + Digits(k.w) + "_t"
    ensures k.Uint? ==> ScalarName(k) == "uint" + Digits(k.w) + "_t"
  {
    if k.Int? || k.Uint? {
      DigitsAre(k.w);
    }
  }

  lemma {:induction false} ByteIsEightBits(w: nat)
    ensures Pow256(w) == Pow2(8 * w)
  {
    if w > 0 {
      ByteIsEightBits(w - 1);
      Pow2Sum(8, 8 * (w - 1));
      assert Pow2(8) == 256;
    }
  }

  lemma DivideTwiceBy256(n: nat, p: nat)
    requires p > 0
    ensures n / 256 / p == n / (256 * p)
  {
    var q, r := QuotientAndRemainder(n, 256 * p);
    assert 256 * p * q == 256 * (p * q);
    assert n / 256 == q * p + r / 256 && r / 256 < p;
    QuotientIs(n / 256, p, q, r / 256);
  }

  /** Byte `i` holds bits `8 * i` to `8 * i + 7`. */
  lemma {:induction false} ByteOfImage(n: nat, w: nat, i: nat)
    requires i < w
    ensures Image(n, w)[i] == n / Pow2(8 * i) % 256
  {
    if i > 0 {
      ByteOfImage(n / 256, w - 1, i - 1);
      DivideTwiceBy256(n, Pow2(8 * (i - 1)));
      Pow2Sum(8, 8 * (i - 1));
      assert Pow2(8) == 256;
    }
  }

  /** What values there are. */
  lemma ValuesOfScalar(k: Scalar, v: Val)
    ensures ScalarHasType(k, v) <==>
              match k
              case Uint(_) | Addr => v.Num? && 0 <= v.n < Pow2(Bits(k))
              case Int(_) => v.Num? && 0 <= v.n + Pow2(Bits(k) - 1) && v.n < Pow2(Bits(k) - 1)
              case _ => v.Raw? && 8 * |v.bytes| == Bits(k)
  {
    ByteIsEightBits(k.Bytes());
    if k.Int? || k.Uint? {
      DigitsAre(k.w);
    }
    assert Pow2(Bits(k)) == 2 * Pow2(Bits(k) - 1);
  }

  /** Numbers that are not negative are written byte by byte, lowest first. */
  lemma UnsignedOnTheWire(k: Scalar, n: nat, i: nat)
    requires ScalarHasType(k, Num(n)) && IsNumber(k) && 8 * i < Bits(k)
    ensures 8 * |EncodeScalar(k, Num(n))| == Bits(k)
    ensures EncodeScalar(k, Num(n))[i] == n / Pow2(8 * i) % 256
  {
    SizeOfScalar(k, Num(n));
    ByteOfImage(n, k.Bytes(), i);
    SmallIsItsResidue(n, Pow256(k.Bytes()));
  }

  lemma SmallIsItsResidue(n: nat, p: nat)
    requires n < p
    ensures n % p == n
  {
  }

  /** Negative ones in two's complement. */
  lemma NegativeOnTheWire(w: Width, n: int)
    requires ScalarHasType(Int(w), Num(n)) && n < 0
    ensures ScalarHasType(Uint(w), Num(n + Pow2(Bits(Int(w)))))
    ensures EncodeScalar(Int(w), Num(n)) == EncodeScalar(Uint(w), Num(n + Pow2(Bits(Int(w)))))
  {
    var p := PowerOfWidth(w);
    NegativeIsComplement(w, n, p);
    assert Num(n + p) == Num(n + Pow2(Bits(Int(w))));
  }

  lemma PowerOfWidth(w: Width) returns (p: nat)
    ensures p == Pow256(w.Bytes()) == Pow2(Bits(Int(w)))
  {
    p := Pow256(w.Bytes());
    DigitsAre(w);
    ByteIsEightBits(w.Bytes());
  }

  lemma NegativeIsComplement(w: Width, n: int, p: nat)
    requires p == Pow256(w.Bytes()) && ScalarHasType(Int(w), Num(n)) && n < 0
    ensures ScalarHasType(Uint(w), Num(n + p))
    ensures EncodeScalar(Int(w), Num(n)) == EncodeScalar(Uint(w), Num(n + p))
  {
    SmallIsItsResidue(n + p, p);
    AuxDataRoundTrip.ResidueOfSigned(n, p);
  }

  /** Everything else is written as it is in memory. */
  lemma OthersOnTheWire(k: Scalar, v: Val)
    requires ScalarHasType(k, v) && !IsNumber(k)
    ensures v.Raw? && EncodeScalar(k, v) == v.bytes
  {
  }

  /** Counts and variant indices are 64-bit numbers. */
  lemma HeaderOnTheWire(n: nat)
    requires n < U64
    ensures |Header(n)| == 8 && forall i :: 0 <= i < 8 ==> Header(n)[i] == n / Pow2(8 * i) % 256
  {
    forall i | 0 <= i < 8 {
      ByteOfImage(n, 8, i);
    }
  }

  function Joined(pieces: seq<seq<byte>>): seq<byte> {
    if pieces == [] then [] else Joined(pieces[..|pieces| - 1]) + pieces[|pieces| - 1]
  }

  lemma {:induction false} JoinedFirst(pieces: seq<seq<byte>>)
    requires pieces != []
    ensures Joined(pieces) == pieces[0] + Joined(pieces[1..])
  {
    var n := |pieces| - 1;
    if n > 0 {
      JoinedFirst(pieces[..n]);
      assert pieces[..n][1..] == pieces[1..][..n - 1] && pieces[1..][n - 1] == pieces[n];
    } else {
      assert pieces[..0] == [] && pieces[1..] == [];
    }
  }

  /** Elements of a list or a set, one after the other. */
  lemma {:induction false} ElementsOnTheWire(t: Ty, es: seq<Val>)
    ensures EncodeAll(t, es) == Joined(seq(|es|, i requires 0 <= i < |es| => Encode(t, es[i])))
  {
    var pieces := seq(|es|, i requires 0 <= i < |es| => Encode(t, es[i]));
    if es != [] {
      ElementsOnTheWire(t, es[1..]);
      JoinedFirst(pieces);
      assert pieces[1..] == seq(|es[1..]|, i requires 0 <= i < |es[1..]| => Encode(t, es[1..][i]));
    }
  }

  lemma {:induction false} EntriesOnTheWire(ty: Ty, ps: seq<(Val, Val)>)
    requires ty.MappingTy?
    ensures EncodePairs(ty, ps)
         == Joined(seq(|ps|, i requires 0 <= i < |ps| => Encode(ty.key, ps[i].0) + Encode(ty.mapped, ps[i].1)))
  {
    var pieces := seq(|ps|, i requires 0 <= i < |ps| => Encode(ty.key, ps[i].0) + Encode(ty.mapped, ps[i].1));
    if ps != [] {
      EntriesOnTheWire(ty, ps[1..]);
      JoinedFirst(pieces);
      var rest := ps[1..];
      assert pieces[1..]
          == seq(|rest|, i requires 0 <= i < |rest| => Encode(ty.key, rest[i].0) + Encode(ty.mapped, rest[i].1));
    }
  }

  lemma {:induction false} FieldsOnTheWire(ts: seq<Ty>, vs: seq<Val>)
    requires |ts| == |vs|
    ensures EncodeFields(ts, vs) == Joined(seq(|vs|, i requires 0 <= i < |vs| => Encode(ts[i], vs[i])))
  {
    var pieces := seq(|vs|, i requires 0 <= i < |vs| => Encode(ts[i], vs[i]));
    if vs != [] {
      FieldsOnTheWire(ts[1..], vs[1..]);
      JoinedFirst(pieces);
      assert pieces[1..] == seq(|vs[1..]|, i requires 0 <= i < |vs[1..]| => Encode(ts[1..][i], vs[1..][i]));
    }
  }
}
