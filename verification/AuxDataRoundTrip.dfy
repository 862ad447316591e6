/** When a written value can be read back: exactly when every variant index in
    it is at most the number of bytes that follow that index. */
module AuxDataRoundTrip {
  import opened LittleEndian
  import opened AuxData
  import opened Sequences

  /** Every variant index inside `v` is at most the number of bytes after it,
      where `after` bytes follow the encoding of `v` itself. */
  predicate IndicesFit(ty: Ty, v: Val, after: nat)
    decreases ty, 1, 0
  {
    match (ty, v)
    case (SequenceTy(t), ListOf(es)) => AllIndicesFit(t, es, after)
    case (SetTy(t), SetOf(es)) => AllIndicesFit(t, es, after)
    case (MappingTy(_, _), MapOf(ps)) => PairIndicesFit(ty, ps, after)
    case (TupleTy(ts), TupleOf(vs)) => FieldIndicesFit(ts, vs, after)
    case (VariantTy(ts), Alt(i, x)) =>
      i < |ts| && i <= |Encode(ts[i], x)| + after && IndicesFit(ts[i], x, after)
    case _ => true
  }

  predicate AllIndicesFit(t: Ty, es: seq<Val>, after: nat)
    decreases t, 2, |es|
  {
    es == [] || (IndicesFit(t, es[0], |EncodeAll(t, es[1..])| + after) && AllIndicesFit(t, es[1..], after))
  }

  predicate PairIndicesFit(ty: Ty, ps: seq<(Val, Val)>, after: nat)
    requires ty.MappingTy?
    decreases ty, 0, |ps|
  {
    ps == [] ||
    (var later := |EncodePairs(ty, ps[1..])| + after;
     && IndicesFit(ty.key, ps[0].0, |Encode(ty.mapped, ps[0].1)| + later)
     && IndicesFit(ty.mapped, ps[0].1, later)
     && PairIndicesFit(ty, ps[1..], after))
  }

  predicate FieldIndicesFit(ts: seq<Ty>, vs: seq<Val>, after: nat)
    decreases ts, 0, 0
  {
    ts == [] || vs == []
    || (IndicesFit(ts[0], vs[0], |EncodeFields(ts[1..], vs[1..])| + after)
        && FieldIndicesFit(ts[1..], vs[1..], after))
  }

  // ---------------------------------------------- every encoding has a byte

  predicate Typed(ty: Ty, v: Val) {
    Portable(ty) && HasType(ty, v)
  }

  predicate AllTyped(t: Ty, es: seq<Val>) {
    forall i :: 0 <= i < |es| ==> Typed(t, es[i])
  }

  predicate PairsTyped(ty: Ty, ps: seq<(Val, Val)>)
    requires ty.MappingTy?
  {
    forall i :: 0 <= i < |ps| ==> Typed(ty.key, ps[i].0) && Typed(ty.mapped, ps[i].1)
  }

  predicate FieldsTyped(ts: seq<Ty>, vs: seq<Val>) {
    |ts| == |vs| && forall i :: 0 <= i < |ts| ==> Typed(ts[i], vs[i])
  }

  lemma {:induction false} EncodingIsNonEmpty(ty: Ty, v: Val)
    ensures Typed(ty, v) ==> |Encode(ty, v)| >= 1
  {
    match (ty, v)
    case (TupleTy(ts), TupleOf(vs)) =>
      if ts != [] && vs != [] {
        EncodingIsNonEmpty(ts[0], vs[0]);
      }
    case _ =>
  }

  /** So a true element count never exceeds the bytes that follow it. */
  lemma {:induction false} CountAtMostLength(t: Ty, es: seq<Val>)
    requires AllTyped(t, es)
    ensures |es| <= |EncodeAll(t, es)|
  {
    if es != [] {
      EncodingIsNonEmpty(t, es[0]);
      CountAtMostLength(t, es[1..]);
    }
  }

  lemma {:induction false} PairCountAtMostLength(ty: Ty, ps: seq<(Val, Val)>)
    requires ty.MappingTy? && PairsTyped(ty, ps)
    ensures |ps| <= |EncodePairs(ty, ps)|
  {
    if ps != [] {
      EncodingIsNonEmpty(ty.key, ps[0].0);
      PairCountAtMostLength(ty, ps[1..]);
    }
  }

  // --------------------------------------------------------------- leaves

  lemma ResidueOfSigned(n: int, p: nat)
    requires p > 0 && 0 <= n + p && n < p
    ensures n % p == if n < 0 then n + p else n
  {
    if n < 0 {
      assert n + p == (n % p) + p * (n / p + 1);
    }
  }

  lemma ScalarRoundTrip(k: Scalar, v: Val, rest: seq<byte>)
    requires ScalarHasType(k, v)
    ensures DecodeScalar(k, EncodeScalar(k, v) + rest) == Decoded(v, rest)
  {
    var bs := EncodeScalar(k, v);
    assert (bs + rest)[..|bs|] == bs && (bs + rest)[|bs|..] == rest;
    if IsNumber(k) {
      ResidueOfSigned(v.n, Pow256(k.Bytes()));
      ValueOfImage(v.n % Pow256(k.Bytes()), k.Bytes());
    }
  }

  lemma HeaderRoundTrip(n: nat, rest: seq<byte>)
    requires n < U64
    ensures DecodeHeader(Header(n) + rest) == Decoded(n, rest)
  {
    EightBytesHold64Bits();
    ValueOfImage(n, 8);
    assert (Header(n) + rest)[..8] == Header(n) && (Header(n) + rest)[8..] == rest;
  }

  lemma BehindCount(n: nat, body: seq<byte>, rest: seq<byte>)
    requires n < U64
    ensures DecodeCount(Header(n) + body + rest)
            == if n <= |body| + |rest| then Decoded(n, body + rest) else Failed(body + rest)
  {
    HeaderRoundTrip(n, body + rest);
    assert Header(n) + body + rest == Header(n) + (body + rest);
  }

  lemma StringRoundTrip(cs: seq<byte>, rest: seq<byte>)
    requires |cs| < U64
    ensures Decode(StringTy, Header(|cs|) + cs + rest) == Decoded(Text(cs), rest)
  {
    BehindCount(|cs|, cs, rest);
    assert (cs + rest)[..|cs|] == cs && (cs + rest)[|cs|..] == rest;
  }

  lemma OffsetRoundTrip(e: seq<byte>, d: nat, rest: seq<byte>)
    requires |e| == 16 && d < U64
    ensures Decode(OffsetTy, e + Header(d) + rest) == Decoded(Ref(e, d), rest)
  {
    assert e + Header(d) + rest == e + (Header(d) + rest);
    ScalarRoundTrip(Uuid, Raw(e), Header(d) + rest);
    HeaderRoundTrip(d, rest);
  }

  // ---------------------------------------------------------- main theorem

  /** The read succeeds with `v` and leaves exactly `rest` if `fits`, and fails
      otherwise. */
  predicate ReadsBack<T(==)>(out: Outcome<T>, fits: bool, v: T, rest: seq<byte>)
  {
    if fits then out == Decoded(v, rest) else out.Failed?
  }

  /** Reading back what was written gives the value and leaves exactly the
      bytes after it if and only if the variant indices fit; otherwise the read
      reports failure. */
  lemma RoundTrip(ty: Ty, v: Val, rest: seq<byte>)
    requires Portable(ty) && HasType(ty, v)
    ensures IndicesFit(ty, v, |rest|) ==> Decode(ty, Encode(ty, v) + rest) == Decoded(v, rest)
    ensures !IndicesFit(ty, v, |rest|) ==> Decode(ty, Encode(ty, v) + rest).Failed?
  {
    ValueRoundTrip(ty, v, rest);
  }

  lemma {:induction false} ValueRoundTrip(ty: Ty, v: Val, rest: seq<byte>)
    ensures Typed(ty, v) ==> ReadsBack(Decode(ty, Encode(ty, v) + rest), IndicesFit(ty, v, |rest|), v, rest)
    decreases ty, 1, 0
  {
    if Typed(ty, v) {
      match (ty, v)
      case (ScalarTy(k), _) => ScalarRoundTrip(k, v, rest);
      case (StringTy, Text(cs)) => StringRoundTrip(cs, rest);
      case (OffsetTy, Ref(e, d)) => OffsetRoundTrip(e, d, rest);
      case (SequenceTy(t), ListOf(es)) => SequenceRoundTrip(t, es, rest);
      case (SetTy(t), SetOf(es)) => SetRoundTrip(t, es, rest);
      case (MappingTy(_, _), MapOf(ps)) => MappingRoundTrip(ty, ps, rest);
      case (TupleTy(ts), TupleOf(vs)) => FieldsRoundTrip(ts, vs, rest);
      case (VariantTy(ts), Alt(i, x)) => VariantRoundTrip(ts, i, x, rest);
      case _ =>
    }
  }

  lemma {:induction false} SequenceRoundTrip(t: Ty, es: seq<Val>, rest: seq<byte>)
    requires |es| < U64 && AllTyped(t, es)
    ensures ReadsBack(Decode(SequenceTy(t), Header(|es|) + EncodeAll(t, es) + rest),
                      AllIndicesFit(t, es, |rest|), ListOf(es), rest)
    decreases t, 3, 0
  {
    var body := EncodeAll(t, es);
    AllRoundTrip(t, es, rest);
    CountAtMostLength(t, es);
    BehindCount(|es|, body, rest);
  }

  lemma {:induction false} SetRoundTrip(t: Ty, es: seq<Val>, rest: seq<byte>)
    requires |es| < U64 && AllTyped(t, es) && Distinct(es)
    ensures ReadsBack(Decode(SetTy(t), Header(|es|) + EncodeAll(t, es) + rest),
                      AllIndicesFit(t, es, |rest|), SetOf(es), rest)
    decreases t, 3, 0
  {
    var body := EncodeAll(t, es);
    CountAtMostLength(t, es);
    BehindCount(|es|, body, rest);
    assert Decode(SetTy(t), Header(|es|) + body + rest) == DecodeMembers(t, |es|, body + rest, []);
    assert [] + es == es;
    MembersRoundTrip(t, es, rest, []);
  }

  lemma {:induction false} MappingRoundTrip(ty: Ty, ps: seq<(Val, Val)>, rest: seq<byte>)
    requires ty.MappingTy? && |ps| < U64 && PairsTyped(ty, ps) && Distinct(Keys(ps))
    ensures ReadsBack(Decode(ty, Header(|ps|) + EncodePairs(ty, ps) + rest),
                      PairIndicesFit(ty, ps, |rest|), MapOf(ps), rest)
    decreases ty, 0, |ps| + 1
  {
    assert [] + ps == ps;
    PairsRoundTrip(ty, ps, rest, []);
    PairCountAtMostLength(ty, ps);
    BehindCount(|ps|, EncodePairs(ty, ps), rest);
  }

  lemma {:induction false} VariantRoundTrip(ts: seq<Ty>, i: nat, x: Val, rest: seq<byte>)
    requires i < |ts| && i < U64 && Typed(ts[i], x)
    ensures ReadsBack(Decode(VariantTy(ts), Header(i) + Encode(ts[i], x) + rest),
                      i <= |Encode(ts[i], x)| + |rest| && IndicesFit(ts[i], x, |rest|), Alt(i, x), rest)
    decreases ts, 0, 0
  {
    ValueRoundTrip(ts[i], x, rest);
    BehindCount(i, Encode(ts[i], x), rest);
  }

  // One element in front of a list: how its outcome decides that of the list.

  lemma AllStep(t: Ty, n: nat, s: seq<byte>, tail: seq<byte>, fits: bool, x: Val,
                fitsTail: bool, xs: seq<Val>, rest: seq<byte>)
    requires ReadsBack(Decode(t, s), fits, x, tail)
    requires ReadsBack(DecodeAll(t, n, tail), fitsTail, xs, rest)
    ensures ReadsBack(DecodeAll(t, n + 1, s), fits && fitsTail, [x] + xs, rest)
  {
  }

  lemma MembersStep(t: Ty, n: nat, s: seq<byte>, tail: seq<byte>, fits: bool, x: Val,
                    fitsTail: bool, out: Val, rest: seq<byte>, acc: seq<Val>)
    requires ReadsBack(Decode(t, s), fits, x, tail) && x !in acc
    requires ReadsBack(DecodeMembers(t, n, tail, acc + [x]), fitsTail, out, rest)
    ensures ReadsBack(DecodeMembers(t, n + 1, s, acc), fits && fitsTail, out, rest)
  {
  }

  lemma PairsStep(ty: Ty, n: nat, s: seq<byte>, mid: seq<byte>, tail: seq<byte>, fitsKey: bool, k: Val,
                  fitsMapped: bool, v: Val, fitsTail: bool, out: Val, rest: seq<byte>, acc: seq<(Val, Val)>)
    requires ty.MappingTy? && k !in Keys(acc)
    requires ReadsBack(Decode(ty.key, s), fitsKey, k, mid) && ReadsBack(Decode(ty.mapped, mid), fitsMapped, v, tail)
    requires ReadsBack(DecodePairs(ty, n, tail, acc + [(k, v)]), fitsTail, out, rest)
    ensures ReadsBack(DecodePairs(ty, n + 1, s, acc), fitsKey && fitsMapped && fitsTail, out, rest)
  {
  }

  lemma NextMemberIsNew(acc: seq<Val>, es: seq<Val>)
    requires es != [] && Distinct(acc + es)
    ensures es[0] !in acc && acc + [es[0]] + es[1..] == acc + es
  {
    assert (acc + es)[|acc|] == es[0] && forall i :: 0 <= i < |acc| ==> (acc + es)[i] == acc[i];
  }

  lemma NextKeyIsNew(acc: seq<(Val, Val)>, ps: seq<(Val, Val)>)
    requires ps != [] && Distinct(Keys(acc + ps))
    ensures ps[0].0 !in Keys(acc) && acc + [ps[0]] + ps[1..] == acc + ps
  {
    assert Keys(acc + ps)[|acc|] == ps[0].0;
    assert forall i :: 0 <= i < |acc| ==> Keys(acc + ps)[i] == Keys(acc)[i];
  }

  lemma {:induction false} AllRoundTrip(t: Ty, es: seq<Val>, rest: seq<byte>)
    requires AllTyped(t, es)
    ensures ReadsBack(DecodeAll(t, |es|, EncodeAll(t, es) + rest), AllIndicesFit(t, es, |rest|), es, rest)
    decreases t, 2, |es|
  {
    if es == [] {
      assert EncodeAll(t, es) + rest == rest;
    } else {
      var x, xs := es[0], es[1..];
      assert es == [x] + xs;
      var tail := EncodeAll(t, xs) + rest;
      var s := Encode(t, x) + tail;
      var fits, fitsTail := IndicesFit(t, x, |tail|), AllIndicesFit(t, xs, |rest|);
      assert EncodeAll(t, es) + rest == s;
      assert AllIndicesFit(t, es, |rest|) == (fits && fitsTail);
      ValueRoundTrip(t, x, tail);
      AllRoundTrip(t, xs, rest);
      AllStep(t, |xs|, s, tail, fits, x, fitsTail, xs, rest);
    }
  }

  lemma {:induction false} MembersRoundTrip(t: Ty, es: seq<Val>, rest: seq<byte>, acc: seq<Val>)
    requires AllTyped(t, es) && Distinct(acc + es)
    ensures ReadsBack(DecodeMembers(t, |es|, EncodeAll(t, es) + rest, acc),
                      AllIndicesFit(t, es, |rest|), SetOf(acc + es), rest)
    decreases t, 2, |es|
  {
    if es == [] {
      assert EncodeAll(t, es) + rest == rest && acc + es == acc;
    } else {
      var x, xs := es[0], es[1..];
      var tail := EncodeAll(t, xs) + rest;
      var s := Encode(t, x) + tail;
      assert EncodeAll(t, es) + rest == s;
      NextMemberIsNew(acc, es);
      ValueRoundTrip(t, x, tail);
      MembersRoundTrip(t, xs, rest, acc + [x]);
      MembersStep(t, |xs|, s, tail, IndicesFit(t, x, |tail|), x,
                  AllIndicesFit(t, xs, |rest|), SetOf(acc + es), rest, acc);
    }
  }

  lemma {:induction false} PairsRoundTrip(ty: Ty, ps: seq<(Val, Val)>, rest: seq<byte>, acc: seq<(Val, Val)>)
    requires ty.MappingTy? && PairsTyped(ty, ps) && Distinct(Keys(acc + ps))
    ensures ReadsBack(DecodePairs(ty, |ps|, EncodePairs(ty, ps) + rest, acc),
                      PairIndicesFit(ty, ps, |rest|), MapOf(acc + ps), rest)
    decreases ty, 0, |ps|
  {
    if ps == [] {
      assert EncodePairs(ty, ps) + rest == rest && acc + ps == acc;
    } else {
      var k, v, qs := ps[0].0, ps[0].1, ps[1..];
      var tail := EncodePairs(ty, qs) + rest;
      var mid := Encode(ty.mapped, v) + tail;
      var s := Encode(ty.key, k) + mid;
      assert EncodePairs(ty, ps) + rest == s;
      NextKeyIsNew(acc, ps);
      ValueRoundTrip(ty.key, k, mid);
      ValueRoundTrip(ty.mapped, v, tail);
      PairsRoundTrip(ty, qs, rest, acc + [ps[0]]);
      PairsStep(ty, |qs|, s, mid, tail, IndicesFit(ty.key, k, |mid|), k,
                IndicesFit(ty.mapped, v, |tail|), v, PairIndicesFit(ty, qs, |rest|), MapOf(acc + ps), rest, acc);
    }
  }

  lemma {:induction false} FieldsRoundTrip(ts: seq<Ty>, vs: seq<Val>, rest: seq<byte>)
    requires FieldsTyped(ts, vs)
    ensures ReadsBack(DecodeFields(ts, EncodeFields(ts, vs) + rest), FieldIndicesFit(ts, vs, |rest|), vs, rest)
    decreases ts, 0, 0
  {
    if ts == [] {
      assert EncodeFields(ts, vs) + rest == rest;
    } else {
      var tail := EncodeFields(ts[1..], vs[1..]) + rest;
      assert EncodeFields(ts, vs) + rest == Encode(ts[0], vs[0]) + tail;
      ValueRoundTrip(ts[0], vs[0], tail);
      FieldsRoundTrip(ts[1..], vs[1..], rest);
      assert vs == [vs[0]] + vs[1..];
    }
  }
}
