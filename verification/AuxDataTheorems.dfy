/** Consequences of the round trip, and how a read depends on its input. */
module AuxDataTheorems {
  import opened LittleEndian
  import opened AuxData
  import opened AuxDataRoundTrip
  import opened Sequences

  // ------------------------------------- types that always survive the trip

  /** No variant anywhere in the type has more than two alternatives. */
  predicate SmallVariants(ty: Ty)
  {
    match ty
    case SequenceTy(t) => SmallVariants(t)
    case SetTy(t) => SmallVariants(t)
    case MappingTy(k, m) => SmallVariants(k) && SmallVariants(m)
    case TupleTy(ts) => forall t <- ts :: SmallVariants(t)
    case VariantTy(ts) => |ts| <= 2 && forall t <- ts :: SmallVariants(t)
    case _ => true
  }

  /** A payload has at least one byte, so index 0 or 1 always fits. */
  lemma {:induction false} SmallVariantsFit(ty: Ty, v: Val, after: nat)
    ensures Typed(ty, v) && SmallVariants(ty) ==> IndicesFit(ty, v, after)
    decreases ty, 1, 0
  {
    if Typed(ty, v) && SmallVariants(ty) {
      match (ty, v)
      case (SequenceTy(t), ListOf(es)) => AllSmallVariantsFit(t, es, after);
      case (SetTy(t), SetOf(es)) => AllSmallVariantsFit(t, es, after);
      case (MappingTy(_, _), MapOf(ps)) => PairSmallVariantsFit(ty, ps, after);
      case (TupleTy(ts), TupleOf(vs)) => FieldSmallVariantsFit(ts, vs, after);
      case (VariantTy(ts), Alt(i, x)) =>
        EncodingIsNonEmpty(ts[i], x);
        SmallVariantsFit(ts[i], x, after);
      case _ =>
    }
  }

  lemma {:induction false} AllSmallVariantsFit(t: Ty, es: seq<Val>, after: nat)
    requires AllTyped(t, es) && SmallVariants(t)
    ensures AllIndicesFit(t, es, after)
    decreases t, 2, |es|
  {
    if es != [] {
      SmallVariantsFit(t, es[0], |EncodeAll(t, es[1..])| + after);
      AllSmallVariantsFit(t, es[1..], after);
    }
  }

  lemma {:induction false} PairSmallVariantsFit(ty: Ty, ps: seq<(Val, Val)>, after: nat)
    requires ty.MappingTy? && PairsTyped(ty, ps) && SmallVariants(ty.key) && SmallVariants(ty.mapped)
    ensures PairIndicesFit(ty, ps, after)
    decreases ty, 0, |ps|
  {
    if ps != [] {
      var later := |EncodePairs(ty, ps[1..])| + after;
      SmallVariantsFit(ty.key, ps[0].0, |Encode(ty.mapped, ps[0].1)| + later);
      SmallVariantsFit(ty.mapped, ps[0].1, later);
      PairSmallVariantsFit(ty, ps[1..], after);
    }
  }

  lemma {:induction false} FieldSmallVariantsFit(ts: seq<Ty>, vs: seq<Val>, after: nat)
    requires FieldsTyped(ts, vs) && forall t <- ts :: SmallVariants(t)
    ensures FieldIndicesFit(ts, vs, after)
    decreases ts, 0, 0
  {
    if ts != [] {
      SmallVariantsFit(ts[0], vs[0], |EncodeFields(ts[1..], vs[1..])| + after);
      FieldSmallVariantsFit(ts[1..], vs[1..], after);
    }
  }

  lemma SmallVariantsRoundTrip(ty: Ty, v: Val, rest: seq<byte>)
    requires Portable(ty) && HasType(ty, v) && SmallVariants(ty)
    ensures Decode(ty, Encode(ty, v) + rest) == Decoded(v, rest)
  {
    SmallVariantsFit(ty, v, |rest|);
    RoundTrip(ty, v, rest);
  }

  /** The bound is sharp: with three one-byte alternatives, the last one cannot
      be read back from its own encoding. */
  lemma ThirdAlternativeIsRejected(b: byte)
    ensures var ty := VariantTy([ScalarTy(Byte), ScalarTy(Byte), ScalarTy(Byte)]);
            var v := Alt(2, Raw([b]));
            Portable(ty) && HasType(ty, v) && Decode(ty, Encode(ty, v)).Failed?
  {
    var ty := VariantTy([ScalarTy(Byte), ScalarTy(Byte), ScalarTy(Byte)]);
    var v := Alt(2, Raw([b]));
    assert Encode(ty, v) + [] == Encode(ty, v);
    assert Encode(ty.alts[2], v.chosen) == [b];
    RoundTrip(ty, v, []);
  }

  // ----------------------------------------------- bytes behind the encoding

  predicate Extends<T(==)>(out: Outcome<T>, longer: Outcome<T>, more: seq<byte>)
  {
    out.Decoded? ==> longer == Decoded(out.value, out.rest + more)
  }

  lemma HeaderExtends(s: seq<byte>, more: seq<byte>)
    ensures Extends(DecodeHeader(s), DecodeHeader(s + more), more)
    ensures Extends(DecodeCount(s), DecodeCount(s + more), more)
  {
    if |s| >= 8 {
      assert (s + more)[..8] == s[..8] && (s + more)[8..] == s[8..] + more;
    }
  }

  lemma ScalarExtends(k: Scalar, s: seq<byte>, more: seq<byte>)
    ensures Extends(DecodeScalar(k, s), DecodeScalar(k, s + more), more)
  {
    var w := k.Bytes();
    if |s| >= w {
      assert (s + more)[..w] == s[..w] && (s + more)[w..] == s[w..] + more;
    }
  }

  /** Appending bytes to the input of a successful read changes neither the
      value nor what is consumed. */
  lemma {:induction false} ReadIgnoresWhatFollows(ty: Ty, s: seq<byte>, more: seq<byte>)
    ensures Extends(Decode(ty, s), Decode(ty, s + more), more)
    decreases ty, 1, 0
  {
    HeaderExtends(s, more);
    var c := DecodeCount(s);
    match ty
    case ScalarTy(k) => ScalarExtends(k, s, more);
    case StringTy =>
      if c.Decoded? {
        assert (c.rest + more)[..c.value] == c.rest[..c.value];
        assert (c.rest + more)[c.value..] == c.rest[c.value..] + more;
      }
    case OffsetTy =>
      ScalarExtends(Uuid, s, more);
      HeaderExtends(DecodeScalar(Uuid, s).rest, more);
    case SequenceTy(t) =>
      if c.Decoded? {
        AllIgnoreWhatFollows(t, c.value, c.rest, more);
      }
    case SetTy(t) =>
      if c.Decoded? {
        MembersIgnoreWhatFollows(t, c.value, c.rest, more, []);
      }
    case MappingTy(_, _) =>
      if c.Decoded? {
        PairsIgnoreWhatFollows(ty, c.value, c.rest, more, []);
      }
    case TupleTy(ts) => FieldsIgnoreWhatFollows(ts, s, more);
    case VariantTy(ts) =>
      if c.Decoded? && c.value < |ts| {
        ReadIgnoresWhatFollows(ts[c.value], c.rest, more);
      }
  }

  lemma {:induction false} AllIgnoreWhatFollows(t: Ty, n: nat, s: seq<byte>, more: seq<byte>)
    ensures Extends(DecodeAll(t, n, s), DecodeAll(t, n, s + more), more)
    decreases t, 2, n
  {
    if n > 0 && Decode(t, s).Decoded? {
      ReadIgnoresWhatFollows(t, s, more);
      AllIgnoreWhatFollows(t, n - 1, Decode(t, s).rest, more);
    }
  }

  lemma {:induction false} MembersIgnoreWhatFollows(t: Ty, n: nat, s: seq<byte>, more: seq<byte>, acc: seq<Val>)
    ensures Extends(DecodeMembers(t, n, s, acc), DecodeMembers(t, n, s + more, acc), more)
    decreases t, 2, n
  {
    if n > 0 && Decode(t, s).Decoded? {
      var h := Decode(t, s);
      ReadIgnoresWhatFollows(t, s, more);
      MembersIgnoreWhatFollows(t, n - 1, h.rest, more, Insert(acc, h.value));
    }
  }

  lemma {:induction false} PairsIgnoreWhatFollows(ty: Ty, n: nat, s: seq<byte>, more: seq<byte>,
                                                  acc: seq<(Val, Val)>)
    requires ty.MappingTy?
    ensures Extends(DecodePairs(ty, n, s, acc), DecodePairs(ty, n, s + more, acc), more)
    decreases ty, 0, n
  {
    if n > 0 && Decode(ty.key, s).Decoded? {
      var k := Decode(ty.key, s);
      ReadIgnoresWhatFollows(ty.key, s, more);
      ReadIgnoresWhatFollows(ty.mapped, k.rest, more);
      var v := Decode(ty.mapped, k.rest);
      if v.Decoded? {
        PairsIgnoreWhatFollows(ty, n - 1, v.rest, more, InsertEntry(acc, k.value, v.value));
      }
    }
  }

  lemma {:induction false} FieldsIgnoreWhatFollows(ts: seq<Ty>, s: seq<byte>, more: seq<byte>)
    ensures Extends(DecodeFields(ts, s), DecodeFields(ts, s + more), more)
    decreases ts, 0, 0
  {
    if ts != [] && Decode(ts[0], s).Decoded? {
      ReadIgnoresWhatFollows(ts[0], s, more);
      FieldsIgnoreWhatFollows(ts[1..], Decode(ts[0], s).rest, more);
    }
  }

  // ---------------------------------------------------------- repeated keys

  /** The entries read for a mapping, repeated keys included. */
  function EntriesRead(ty: Ty, n: nat, s: seq<byte>): seq<(Val, Val)>
    requires ty.MappingTy?
    decreases n
  {
    if n == 0 then [] else
    var k := Decode(ty.key, s);
    var v := Decode(ty.mapped, k.rest);
    if k.Failed? || v.Failed? then []
    else [(k.value, v.value)] + EntriesRead(ty, n - 1, v.rest)
  }

  /** Of the entries with the same key, only the first. */
  function FirstOfEachKey(ps: seq<(Val, Val)>): seq<(Val, Val)>
  {
    if ps == [] then [] else
    var before, p := ps[..|ps| - 1], ps[|ps| - 1];
    if p.0 in Keys(before) then FirstOfEachKey(before) else FirstOfEachKey(before) + [p]
  }

  lemma KeysOfConcat(ps: seq<(Val, Val)>, p: (Val, Val))
    ensures Keys(ps + [p]) == Keys(ps) + [p.0]
  {
  }

  lemma {:induction false} NoKeyIsLost(ps: seq<(Val, Val)>, k: Val)
    ensures k in Keys(FirstOfEachKey(ps)) <==> k in Keys(ps)
  {
    if ps != [] {
      var before, p := ps[..|ps| - 1], ps[|ps| - 1];
      NoKeyIsLost(before, k);
      assert ps == before + [p];
      KeysOfConcat(before, p);
      KeysOfConcat(FirstOfEachKey(before), p);
    }
  }

  /** The first entry with its key. */
  predicate IsFirst(ps: seq<(Val, Val)>, e: (Val, Val), i: nat) {
    i < |ps| && ps[i] == e && forall j :: 0 <= j < i ==> ps[j].0 != e.0
  }

  lemma {:induction false} KeptIsFirst(ps: seq<(Val, Val)>, e: (Val, Val))
    ensures e in FirstOfEachKey(ps) <==> exists i: nat :: IsFirst(ps, e, i)
  {
    if ps != [] {
      var n := |ps| - 1;
      var before, p := ps[..n], ps[n];
      KeptIsFirst(before, e);
      assert forall i: nat :: i < n ==> (IsFirst(before, e, i) <==> IsFirst(ps, e, i));
      assert p.0 in Keys(before) <==> exists j :: 0 <= j < n && Keys(before)[j] == p.0;
      assert IsFirst(ps, e, n) <==> p == e && p.0 !in Keys(before);
    }
  }

  lemma {:induction false} KeptOnce(ps: seq<(Val, Val)>)
    ensures Distinct(Keys(FirstOfEachKey(ps)))
  {
    if ps != [] {
      var before, p := ps[..|ps| - 1], ps[|ps| - 1];
      KeptOnce(before);
      NoKeyIsLost(before, p.0);
      KeysOfConcat(FirstOfEachKey(before), p);
    }
  }

  lemma InsertIsFirstOfEachKey(seen: seq<(Val, Val)>, p: (Val, Val))
    ensures InsertEntry(FirstOfEachKey(seen), p.0, p.1) == FirstOfEachKey(seen + [p])
  {
    NoKeyIsLost(seen, p.0);
    assert (seen + [p])[..|seen|] == seen;
  }

  lemma OnePairRead(ty: Ty, n: nat, s: seq<byte>, acc: seq<(Val, Val)>)
      returns (p: (Val, Val), rest: seq<byte>)
    requires ty.MappingTy? && n > 0 && DecodePairs(ty, n, s, acc).Decoded?
    ensures DecodePairs(ty, n, s, acc) == DecodePairs(ty, n - 1, rest, InsertEntry(acc, p.0, p.1))
    ensures EntriesRead(ty, n, s) == [p] + EntriesRead(ty, n - 1, rest)
  {
    var k := Decode(ty.key, s);
    var v := Decode(ty.mapped, k.rest);
    return (k.value, v.value), v.rest;
  }

  lemma {:induction false} PairsAreFirstOfEachKey(ty: Ty, n: nat, s: seq<byte>, seen: seq<(Val, Val)>)
    requires ty.MappingTy? && DecodePairs(ty, n, s, FirstOfEachKey(seen)).Decoded?
    ensures DecodePairs(ty, n, s, FirstOfEachKey(seen)).value
         == MapOf(FirstOfEachKey(seen + EntriesRead(ty, n, s)))
    decreases n
  {
    if n == 0 {
      assert seen + [] == seen;
    } else {
      var p, rest := OnePairRead(ty, n, s, FirstOfEachKey(seen));
      InsertIsFirstOfEachKey(seen, p);
      PairsAreFirstOfEachKey(ty, n - 1, rest, seen + [p]);
      Regroup(seen, p, EntriesRead(ty, n - 1, rest));
    }
  }

  /** Reading a mapping keeps, of every repeated key, the value at the least index
      among the entries read, and nothing else. */
  lemma FirstKeyWins(ty: Ty, s: seq<byte>)
    requires ty.MappingTy? && Decode(ty, s).Decoded?
    ensures var c, v := DecodeCount(s), Decode(ty, s).value;
            && c.Decoded? && v.MapOf? && Distinct(Keys(v.entries))
            && forall e :: e in v.entries <==> exists i: nat :: IsFirst(EntriesRead(ty, c.value, c.rest), e, i)
  {
    var c := DecodeCount(s);
    var read := EntriesRead(ty, c.value, c.rest);
    PairsAreFirstOfEachKey(ty, c.value, c.rest, []);
    assert [] + read == read;
    KeptOnce(read);
    forall e ensures e in FirstOfEachKey(read) <==> exists i: nat :: IsFirst(read, e, i) {
      KeptIsFirst(read, e);
    }
  }

  // ------------------------------------------------------- repeated elements

  /** The elements read for a set, repeated ones included. */
  function ElementsRead(t: Ty, n: nat, s: seq<byte>): seq<Val> {
    if n == 0 then [] else
    var h := Decode(t, s);
    if h.Failed? then [] else [h.value] + ElementsRead(t, n - 1, h.rest)
  }

  lemma {:induction false} MembersAreElementsRead(t: Ty, n: nat, s: seq<byte>, seen: seq<Val>)
    requires Distinct(seen) && DecodeMembers(t, n, s, seen).Decoded?
    ensures var v := DecodeMembers(t, n, s, seen).value;
            && v.SetOf? && Distinct(v.members)
            && forall e :: e in v.members <==> e in seen || e in ElementsRead(t, n, s)
  {
    if n > 0 {
      var h := Decode(t, s);
      MembersAreElementsRead(t, n - 1, h.rest, Insert(seen, h.value));
    }
  }

  /** Reading a set drops repetitions and no element. */
  lemma SetKeepsWhatWasRead(t: Ty, s: seq<byte>)
    requires Decode(SetTy(t), s).Decoded?
    ensures var c, v := DecodeCount(s), Decode(SetTy(t), s).value;
            && c.Decoded? && v.SetOf? && Distinct(v.members) && |ElementsRead(t, c.value, c.rest)| == c.value
            && forall e :: e in v.members <==> e in ElementsRead(t, c.value, c.rest)
  {
    var c := DecodeCount(s);
    MembersAreElementsRead(t, c.value, c.rest, []);
    AllElementsRead(t, c.value, c.rest, []);
  }

  lemma {:induction false} AllElementsRead(t: Ty, n: nat, s: seq<byte>, seen: seq<Val>)
    requires DecodeMembers(t, n, s, seen).Decoded?
    ensures |ElementsRead(t, n, s)| == n
  {
    if n > 0 {
      var h := Decode(t, s);
      AllElementsRead(t, n - 1, h.rest, Insert(seen, h.value));
    }
  }
}
