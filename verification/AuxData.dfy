/** The portable AuxData types, their values, and what the two serialization
    directions compute: `Encode` is the byte string written for a value and
    `Decode` is the effect of a read on the bytes that are left. */
module AuxData {
  import opened LittleEndian
  import opened Sequences

  // ---------------------------------------------------------------- types

  datatype Width = W8 | W16 | W32 | W64 {
    function Bytes(): nat {
      match this case W8 => 1 case W16 => 2 case W32 => 4 case W64 => 8
    }
  }

  datatype Scalar = Byte | Addr | Uuid | Int(w: Width) | Uint(w: Width) | Bool | Float | Double {
    function Bytes(): (n: nat)
      ensures n > 0
    {
      match this
      case Byte | Bool => 1
      case Addr | Double => 8
      case Uuid => 16
      case Int(w) => w.Bytes()
      case Uint(w) => w.Bytes()
      case Float => 4
    }
  }

  datatype Ty =
    | ScalarTy(kind: Scalar)
    | StringTy
    | OffsetTy
    | SequenceTy(elem: Ty)
    | SetTy(elem: Ty)
    | MappingTy(key: Ty, mapped: Ty)
    | TupleTy(fields: seq<Ty>)
    | VariantTy(alts: seq<Ty>)

  /** The types that have a type name at all: a tuple or variant without
      members has none. */
  predicate Portable(ty: Ty)
  {
    match ty
    case ScalarTy(_) | StringTy | OffsetTy => true
    case SequenceTy(t) => Portable(t)
    case SetTy(t) => Portable(t)
    case MappingTy(k, m) => Portable(k) && Portable(m)
    case TupleTy(ts) => ts != [] && forall t <- ts :: Portable(t)
    case VariantTy(ts) => ts != [] && |ts| < U64 && forall t <- ts :: Portable(t)
  }

  // --------------------------------------------------------------- values

  /** A set or mapping is held as its elements in the order the container
      visits them when written, or received them when read. */
  datatype Val =
    | Num(n: int)
    | Raw(bytes: seq<byte>)
    | Text(chars: seq<byte>)
    | Ref(element: seq<byte>, displacement: nat)
    | ListOf(elems: seq<Val>)
    | SetOf(members: seq<Val>)
    | MapOf(entries: seq<(Val, Val)>)
    | TupleOf(fields: seq<Val>)
    | Alt(index: nat, chosen: Val)

  predicate IsNumber(k: Scalar) {
    k.Addr? || k.Int? || k.Uint?
  }

  predicate ScalarHasType(k: Scalar, v: Val)
  {
    match k
    case Addr => v.Num? && 0 <= v.n < Pow256(8)
    case Uint(w) => v.Num? && 0 <= v.n < Pow256(w.Bytes())
    case Int(w) => v.Num? && 0 <= 2 * v.n + Pow256(w.Bytes()) && 2 * v.n < Pow256(w.Bytes())
    case _ => v.Raw? && |v.bytes| == k.Bytes()
  }

  function Keys(ps: seq<(Val, Val)>): (ks: seq<Val>)
    ensures |ks| == |ps|
    ensures forall i :: 0 <= i < |ps| ==> ks[i] == ps[i].0
  {
    seq(|ps|, i requires 0 <= i < |ps| => ps[i].0)
  }

  predicate HasType(ty: Ty, v: Val)
  {
    match ty
    case ScalarTy(k) => ScalarHasType(k, v)
    case StringTy => v.Text? && |v.chars| < U64
    case OffsetTy => v.Ref? && |v.element| == 16 && v.displacement < U64
    case SequenceTy(t) => v.ListOf? && |v.elems| < U64 && forall e <- v.elems :: HasType(t, e)
    case SetTy(t) =>
      v.SetOf? && |v.members| < U64 && Distinct(v.members) && forall e <- v.members :: HasType(t, e)
    case MappingTy(k, m) =>
      && v.MapOf? && |v.entries| < U64 && Distinct(Keys(v.entries))
      && forall e <- v.entries :: HasType(k, e.0) && HasType(m, e.1)
    case TupleTy(ts) =>
      v.TupleOf? && |v.fields| == |ts| && forall i :: 0 <= i < |ts| ==> HasType(ts[i], v.fields[i])
    case VariantTy(ts) => v.Alt? && v.index < |ts| && v.index < U64 && HasType(ts[v.index], v.chosen)
  }

  // -------------------------------------------------------------- writing

  // The static types of the program leave no other values to write, so what
  // these functions give for a value that is not of the type means nothing.

  /** The 64-bit count or index in front of a string, container or variant. */
  function Header(n: nat): (bs: seq<byte>)
    ensures |bs| == 8
  {
    Image(n, 8)
  }

  /** Numbers in two's complement, everything else as it is. */
  function EncodeScalar(k: Scalar, v: Val): seq<byte>
  {
    match v
    case Raw(bs) => bs
    case Num(n) => Image(n % Pow256(k.Bytes()), k.Bytes())
    case _ => []
  }

  function Encode(ty: Ty, v: Val): seq<byte>
    decreases ty, 1, 0
  {
    match (ty, v)
    case (ScalarTy(k), _) => EncodeScalar(k, v)
    case (StringTy, Text(cs)) => Header(|cs|) + cs
    case (OffsetTy, Ref(e, d)) => e + Header(d)
    case (SequenceTy(t), ListOf(es)) => Header(|es|) + EncodeAll(t, es)
    case (SetTy(t), SetOf(es)) => Header(|es|) + EncodeAll(t, es)
    case (MappingTy(_, _), MapOf(ps)) => Header(|ps|) + EncodePairs(ty, ps)
    case (TupleTy(ts), TupleOf(vs)) => EncodeFields(ts, vs)
    case (VariantTy(ts), Alt(i, x)) => if i < |ts| then Header(i) + Encode(ts[i], x) else []
    case _ => []
  }

  function EncodeAll(t: Ty, es: seq<Val>): seq<byte>
    decreases t, 2, |es|
  {
    if es == [] then [] else Encode(t, es[0]) + EncodeAll(t, es[1..])
  }

  function EncodePairs(ty: Ty, ps: seq<(Val, Val)>): seq<byte>
    requires ty.MappingTy?
    decreases ty, 0, |ps|
  {
    if ps == [] then []
    else Encode(ty.key, ps[0].0) + Encode(ty.mapped, ps[0].1) + EncodePairs(ty, ps[1..])
  }

  function EncodeFields(ts: seq<Ty>, vs: seq<Val>): seq<byte>
    decreases ts, 0, 0
  {
    if ts == [] || vs == [] then [] else Encode(ts[0], vs[0]) + EncodeFields(ts[1..], vs[1..])
  }

  // -------------------------------------------------------------- reading

  /** What a read leaves behind: `rest` is what the cursor has not passed yet,
      also after a failure, because sequences and tuples read on. */
  datatype Outcome<+T> = Decoded(value: T, rest: seq<byte>) | Failed(rest: seq<byte>) {
    predicate IsFailure() {
      Failed?
    }

    function PropagateFailure<U>(): Outcome<U>
      requires Failed?
    {
      Failed(rest)
    }

    function Extract(): (T, seq<byte>)
      requires Decoded?
    {
      (value, rest)
    }
  }

  function ScalarValue(k: Scalar, bs: seq<byte>): (v: Val)
    requires |bs| == k.Bytes()
    ensures ScalarHasType(k, v)
  {
    if !IsNumber(k) then Raw(bs)
    else
      var n := Value(bs);
      if k.Int? && 2 * n >= Pow256(k.Bytes()) then Num(n - Pow256(k.Bytes())) else Num(n)
  }

  function DecodeScalar(k: Scalar, s: seq<byte>): Outcome<Val>
  {
    if |s| < k.Bytes() then Failed([])
    else Decoded(ScalarValue(k, s[..k.Bytes()]), s[k.Bytes()..])
  }

  function DecodeHeader(s: seq<byte>): (r: Outcome<nat>)
    ensures r.Decoded? ==> r.value < U64 && |s| == 8 + |r.rest|
  {
    EightBytesHold64Bits();
    if |s| < 8 then Failed([]) else Decoded(Value(s[..8]), s[8..])
  }

  /** A count or index that exceeds the number of bytes left is rejected
      before anything is allocated for it. */
  function DecodeCount(s: seq<byte>): (r: Outcome<nat>)
    ensures r.Decoded? ==> r.value <= |r.rest| && r.value < U64 && |s| == 8 + |r.rest|
  {
    var (n, r) :- DecodeHeader(s);
    if n > |r| then Failed(r) else Decoded(n, r)
  }

  function Decode(ty: Ty, s: seq<byte>): Outcome<Val>
    decreases ty, 1, 0
  {
    match ty
    case ScalarTy(k) => DecodeScalar(k, s)
    case StringTy =>
      var (n, r) :- DecodeCount(s);
      Decoded(Text(r[..n]), r[n..])
    case OffsetTy =>
      var (e, r) :- DecodeScalar(Uuid, s);
      var (d, r) :- DecodeHeader(r);
      Decoded(Ref(e.bytes, d), r)
    case SequenceTy(t) =>
      var (n, r) :- DecodeCount(s);
      var (es, r) :- DecodeAll(t, n, r);
      Decoded(ListOf(es), r)
    case SetTy(t) =>
      var (n, r) :- DecodeCount(s);
      DecodeMembers(t, n, r, [])
    case MappingTy(_, _) =>
      var (n, r) :- DecodeCount(s);
      DecodePairs(ty, n, r, [])
    case TupleTy(ts) =>
      var (vs, r) :- DecodeFields(ts, s);
      Decoded(TupleOf(vs), r)
    case VariantTy(ts) =>
      var (i, r) :- DecodeCount(s);
      if i >= |ts| then Failed(r) else
      var (v, r) :- Decode(ts[i], r);
      Decoded(Alt(i, v), r)
  }

  /** A sequence is sized first and every element is read, even after one of
      them has failed. */
  function DecodeAll(t: Ty, n: nat, s: seq<byte>): Outcome<seq<Val>>
    decreases t, 2, n
  {
    if n == 0 then Decoded([], s) else
    var h := Decode(t, s);
    var r := DecodeAll(t, n - 1, h.rest);
    if h.Decoded? && r.Decoded? then Decoded([h.value] + r.value, r.rest) else Failed(r.rest)
  }

  /** `emplace`: an element that is already present is dropped. */
  function Insert(vs: seq<Val>, v: Val): (r: seq<Val>)
  {
    if v in vs then vs else vs + [v]
  }

  function DecodeMembers(t: Ty, n: nat, s: seq<byte>, acc: seq<Val>): Outcome<Val>
    decreases t, 2, n
  {
    if n == 0 then Decoded(SetOf(acc), s) else
    var (v, r) :- Decode(t, s);
    DecodeMembers(t, n - 1, r, Insert(acc, v))
  }

  /** `emplace`: a second entry for a key is dropped, the first one stays. */
  function InsertEntry(ps: seq<(Val, Val)>, k: Val, v: Val): seq<(Val, Val)>
  {
    if k in Keys(ps) then ps else ps + [(k, v)]
  }

  function DecodePairs(ty: Ty, n: nat, s: seq<byte>, acc: seq<(Val, Val)>): Outcome<Val>
    requires ty.MappingTy?
    decreases ty, 0, n
  {
    if n == 0 then Decoded(MapOf(acc), s) else
    var (k, r) :- Decode(ty.key, s);
    var (v, r) :- Decode(ty.mapped, r);
    DecodePairs(ty, n - 1, r, InsertEntry(acc, k, v))
  }

  function DecodeFields(ts: seq<Ty>, s: seq<byte>): Outcome<seq<Val>>
    decreases ts, 0, 0
  {
    if ts == [] then Decoded([], s) else
    var h := Decode(ts[0], s);
    var r := DecodeFields(ts[1..], h.rest);
    if h.Decoded? && r.Decoded? then Decoded([h.value] + r.value, r.rest) else Failed(r.rest)
  }
}
