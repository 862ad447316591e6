/** What a read makes of arbitrary bytes. */
module AuxDataDecoding {
  import opened LittleEndian
  import opened AuxData
  import opened AuxDataRoundTrip
  import opened Sequences

  /** The number of objects a value is made of: every scalar, every character,
      every container and every variant, at any depth. */
  function Nodes(v: Val): nat
    decreases v, 0
  {
    match v
    case Text(cs) => 1 + |cs|
    case ListOf(es) => 1 + NodesOfAll(es)
    case SetOf(es) => 1 + NodesOfAll(es)
    case MapOf(ps) => 1 + NodesOfPairs(ps)
    case TupleOf(vs) => NodesOfAll(vs)
    case Alt(_, x) => 1 + Nodes(x)
    case _ => 1
  }

  function NodesOfAll(vs: seq<Val>): nat
    decreases vs, 0
  {
    if vs == [] then 0 else NodesOfAll(vs[..|vs| - 1]) + Nodes(vs[|vs| - 1])
  }

  function NodesOfPairs(ps: seq<(Val, Val)>): nat
    decreases ps, 0
  {
    if ps == [] then 0
    else NodesOfPairs(ps[..|ps| - 1]) + NodesOfEntry(ps[|ps| - 1])
  }

  function NodesOfEntry(p: (Val, Val)): nat
    decreases p, 0
  {
    Nodes(p.0) + Nodes(p.1)
  }

  /** No set or mapping anywhere in the type. */
  predicate OrderedOnly(ty: Ty)
  {
    match ty
    case SequenceTy(t) => OrderedOnly(t)
    case SetTy(_) => false
    case MappingTy(_, _) => false
    case TupleTy(ts) => forall t <- ts :: OrderedOnly(t)
    case VariantTy(ts) => forall t <- ts :: OrderedOnly(t)
    case _ => true
  }

  lemma {:induction false} NodesOfConcat(xs: seq<Val>, ys: seq<Val>)
    ensures NodesOfAll(xs + ys) == NodesOfAll(xs) + NodesOfAll(ys)
  {
    if ys == [] {
      assert xs + ys == xs;
    } else {
      var m := |ys| - 1;
      assert (xs + ys)[..|xs + ys| - 1] == xs + ys[..m];
      NodesOfConcat(xs, ys[..m]);
    }
  }

  lemma NodesOfOne(x: Val)
    ensures NodesOfAll([x]) == Nodes(x)
  {
    assert [x][..0] == [];
  }

  // ------------------------------------------------- soundness of a success

  predicate Suffix(rest: seq<byte>, s: seq<byte>) {
    |rest| <= |s| && s[|s| - |rest|..] == rest
  }

  predicate Sound(ty: Ty, s: seq<byte>, out: Outcome<Val>)
  {
    && Suffix(out.rest, s)
    && (out.Decoded? ==>
          && HasType(ty, out.value)
          && Nodes(out.value) + |out.rest| <= |s|
          && (OrderedOnly(ty) ==> Encode(ty, out.value) + out.rest == s))
  }

  lemma SuffixTransitive(a: seq<byte>, b: seq<byte>, c: seq<byte>)
    requires Suffix(a, b) && Suffix(b, c)
    ensures Suffix(a, c)
  {
    assert c[|c| - |b|..][|b| - |a|..] == c[|c| - |a|..];
  }

  /** A successful read of any bytes consumes a prefix of them, yields a value
      of the type with at most one object per byte consumed, and, when the type
      has no set or mapping, has consumed exactly that value's encoding. */
  lemma {:induction false} DecodedIsSound(ty: Ty, s: seq<byte>)
    ensures Portable(ty) ==> Sound(ty, s, Decode(ty, s))
    decreases ty, 1, 0
  {
    if Portable(ty) {
      match ty
      case ScalarTy(k) => ScalarIsSound(k, s);
      case StringTy => StringIsSound(s);
      case OffsetTy => OffsetIsSound(s);
      case SequenceTy(t) => SequenceIsSound(t, s);
      case SetTy(t) => SetIsSound(t, s);
      case MappingTy(_, _) => MappingIsSound(ty, s);
      case TupleTy(ts) => TupleIsSound(ts, s);
      case VariantTy(ts) => VariantIsSound(ts, s);
    }
  }

  lemma ScalarIsSound(k: Scalar, s: seq<byte>)
    ensures Sound(ScalarTy(k), s, DecodeScalar(k, s))
  {
    var w := k.Bytes();
    if |s| >= w {
      assert s[..w] + s[w..] == s;
      ScalarTaken(k, s[..w], s[w..], s);
    }
  }

  lemma ScalarTaken(k: Scalar, bs: seq<byte>, rest: seq<byte>, s: seq<byte>)
    requires |bs| == k.Bytes() && bs + rest == s
    ensures Sound(ScalarTy(k), s, Decoded(ScalarValue(k, bs), rest))
  {
    ScalarImage(k, bs);
    assert Nodes(ScalarValue(k, bs)) == 1;
  }

  lemma ScalarImage(k: Scalar, bs: seq<byte>)
    requires |bs| == k.Bytes()
    ensures EncodeScalar(k, ScalarValue(k, bs)) == bs
  {
    ImageOfValue(bs);
    if IsNumber(k) {
      ResidueOfSigned(ScalarValue(k, bs).n, Pow256(|bs|));
    }
  }

  lemma HeaderIsSound(s: seq<byte>)
    ensures Suffix(DecodeHeader(s).rest, s)
    ensures DecodeHeader(s).Decoded? ==> Header(DecodeHeader(s).value) + DecodeHeader(s).rest == s
  {
    if |s| >= 8 {
      ImageOfValue(s[..8]);
      assert s[..8] + s[8..] == s;
    }
  }

  lemma CountIsSound(s: seq<byte>)
    ensures Suffix(DecodeCount(s).rest, s)
    ensures DecodeCount(s).Decoded? ==> Header(DecodeCount(s).value) + DecodeCount(s).rest == s
  {
    HeaderIsSound(s);
  }

  lemma StringIsSound(s: seq<byte>)
    ensures Sound(StringTy, s, Decode(StringTy, s))
  {
    CountIsSound(s);
    var c := DecodeCount(s);
    if c.Decoded? {
      TextIsSound(c.value, c.rest, s);
    }
  }

  lemma TextIsSound(n: nat, r: seq<byte>, s: seq<byte>)
    requires n <= |r| && n < U64 && Header(n) + r == s
    ensures Sound(StringTy, s, Decoded(Text(r[..n]), r[n..]))
  {
    assert r[..n] + r[n..] == r;
    HeadThenBody(Header(n), r[..n], r[n..], s);
  }

  lemma OffsetIsSound(s: seq<byte>)
    ensures Sound(OffsetTy, s, Decode(OffsetTy, s))
  {
    var e := DecodeScalar(Uuid, s);
    ScalarIsSound(Uuid, s);
    if e.Decoded? {
      var d := DecodeHeader(e.rest);
      HeaderIsSound(e.rest);
      SuffixTransitive(d.rest, e.rest, s);
      if d.Decoded? {
        RefIsSound(e.value.bytes, d.value, d.rest, s);
      }
    }
  }

  lemma RefIsSound(id: seq<byte>, d: nat, rest: seq<byte>, s: seq<byte>)
    requires |id| == 16 && d < U64 && id + (Header(d) + rest) == s
    ensures Sound(OffsetTy, s, Decoded(Ref(id, d), rest))
  {
    HeadThenBody(id, Header(d), rest, s);
  }

  lemma {:induction false} SequenceIsSound(t: Ty, s: seq<byte>)
    requires Portable(t)
    ensures Sound(SequenceTy(t), s, Decode(SequenceTy(t), s))
    decreases t, 3, 0
  {
    CountIsSound(s);
    var c := DecodeCount(s);
    if c.Decoded? {
      AllIsSound(t, c.value, c.rest);
      var a := DecodeAll(t, c.value, c.rest);
      SuffixTransitive(a.rest, c.rest, s);
      if a.Decoded? {
        SequenceOutcome(t, c, a, s);
      }
    }
  }

  lemma SequenceOutcome(t: Ty, c: Outcome<nat>, a: Outcome<seq<Val>>, s: seq<byte>)
    requires a.Decoded? && Suffix(a.rest, s)
    requires c.Decoded? && c.value < U64 && |c.rest| < |s| && Header(c.value) + c.rest == s
    requires AllSound(t, c.value, c.rest, a)
    ensures Sound(SequenceTy(t), s, Decoded(ListOf(a.value), a.rest))
  {
    if OrderedOnly(t) {
      HeadThenBody(Header(c.value), EncodeAll(t, a.value), a.rest, s);
      assert Encode(SequenceTy(t), ListOf(a.value)) == Header(c.value) + EncodeAll(t, a.value);
    }
  }

  lemma HeadThenBody(head: seq<byte>, body: seq<byte>, rest: seq<byte>, s: seq<byte>)
    requires head + (body + rest) == s
    ensures head + body + rest == s
  {
  }

  predicate AllSound(t: Ty, n: nat, s: seq<byte>, a: Outcome<seq<Val>>)
  {
    && Suffix(a.rest, s)
    && (a.Decoded? ==>
          && |a.value| == n && (forall e <- a.value :: HasType(t, e))
          && NodesOfAll(a.value) + |a.rest| <= |s|
          && (OrderedOnly(t) ==> EncodeAll(t, a.value) + a.rest == s))
  }

  lemma {:induction false} AllIsSound(t: Ty, n: nat, s: seq<byte>)
    requires Portable(t)
    ensures AllSound(t, n, s, DecodeAll(t, n, s))
    decreases t, 2, n
  {
    if n > 0 {
      var h := Decode(t, s);
      DecodedIsSound(t, s);
      AllIsSound(t, n - 1, h.rest);
      var r := DecodeAll(t, n - 1, h.rest);
      SuffixTransitive(r.rest, h.rest, s);
      if h.Decoded? && r.Decoded? {
        PrependedIsSound(t, n, s, h, r);
      }
    }
  }

  lemma PrependedIsSound(t: Ty, n: nat, s: seq<byte>, h: Outcome<Val>, r: Outcome<seq<Val>>)
    requires n > 0 && h.Decoded? && r.Decoded? && Suffix(r.rest, s)
    requires Sound(t, s, h) && AllSound(t, n - 1, h.rest, r)
    ensures AllSound(t, n, s, Decoded([h.value] + r.value, r.rest))
  {
    NodesOfOne(h.value);
    NodesOfConcat([h.value], r.value);
    assert ([h.value] + r.value)[1..] == r.value;
    var head, tail := Encode(t, h.value), EncodeAll(t, r.value);
    assert head + tail + r.rest == head + (tail + r.rest);
  }

  predicate MembersSound(t: Ty, es: seq<Val>) {
    Distinct(es) && forall i :: 0 <= i < |es| ==> HasType(t, es[i])
  }

  lemma InsertKeepsSound(t: Ty, acc: seq<Val>, v: Val)
    requires MembersSound(t, acc) && HasType(t, v)
    ensures MembersSound(t, Insert(acc, v))
    ensures |Insert(acc, v)| <= |acc| + 1 && NodesOfAll(Insert(acc, v)) <= NodesOfAll(acc) + Nodes(v)
  {
    assert (acc + [v])[..|acc|] == acc;
  }

  lemma {:induction false} SetIsSound(t: Ty, s: seq<byte>)
    requires Portable(t)
    ensures Sound(SetTy(t), s, Decode(SetTy(t), s))
    decreases t, 3, 0
  {
    CountIsSound(s);
    var c := DecodeCount(s);
    if c.Decoded? {
      MembersAreSound(t, c.value, c.rest, []);
      SuffixTransitive(DecodeMembers(t, c.value, c.rest, []).rest, c.rest, s);
    }
  }

  predicate MembersRead(t: Ty, n: nat, s: seq<byte>, acc: seq<Val>, a: Outcome<Val>) {
    && Suffix(a.rest, s)
    && (a.Decoded? ==>
          && a.value.SetOf? && |a.value.members| <= |acc| + n && MembersSound(t, a.value.members)
          && NodesOfAll(a.value.members) + |a.rest| <= NodesOfAll(acc) + |s|)
  }

  /** What reading one element gives, but for its bytes. */
  lemma {:induction false} MemberIsSound(t: Ty, s: seq<byte>)
    requires Portable(t)
    ensures var h := Decode(t, s);
            Suffix(h.rest, s) && (h.Decoded? ==> HasType(t, h.value) && Nodes(h.value) + |h.rest| <= |s|)
    decreases t, 2, 0
  {
    DecodedIsSound(t, s);
  }

  lemma {:induction false} MembersAreSound(t: Ty, n: nat, s: seq<byte>, acc: seq<Val>)
    requires Portable(t) && MembersSound(t, acc)
    ensures MembersRead(t, n, s, acc, DecodeMembers(t, n, s, acc))
    decreases t, 2, n
  {
    if n > 0 {
      var h := Decode(t, s);
      MemberIsSound(t, s);
      if h.Decoded? {
        InsertKeepsSound(t, acc, h.value);
        MembersAreSound(t, n - 1, h.rest, Insert(acc, h.value));
        NextMember(t, n, s, acc);
      }
    }
  }

  lemma NextMember(t: Ty, n: nat, s: seq<byte>, acc: seq<Val>)
    requires n > 0 && MembersSound(t, acc) && Decode(t, s).Decoded?
    requires var h := Decode(t, s);
             && HasType(t, h.value) && Suffix(h.rest, s) && Nodes(h.value) + |h.rest| <= |s|
             && var more := Insert(acc, h.value);
                MembersRead(t, n - 1, h.rest, more, DecodeMembers(t, n - 1, h.rest, more))
    ensures MembersRead(t, n, s, acc, DecodeMembers(t, n, s, acc))
  {
    var h := Decode(t, s);
    InsertKeepsSound(t, acc, h.value);
    SuffixTransitive(DecodeMembers(t, n, s, acc).rest, h.rest, s);
  }

  predicate EntriesSound(ty: Ty, ps: seq<(Val, Val)>)
    requires ty.MappingTy?
  {
    Distinct(Keys(ps)) && forall i :: 0 <= i < |ps| ==> HasType(ty.key, ps[i].0) && HasType(ty.mapped, ps[i].1)
  }

  lemma InsertEntryKeepsSound(ty: Ty, acc: seq<(Val, Val)>, k: Val, v: Val)
    requires ty.MappingTy? && EntriesSound(ty, acc) && HasType(ty.key, k) && HasType(ty.mapped, v)
    ensures EntriesSound(ty, InsertEntry(acc, k, v))
    ensures |InsertEntry(acc, k, v)| <= |acc| + 1
    ensures NodesOfPairs(InsertEntry(acc, k, v)) <= NodesOfPairs(acc) + Nodes(k) + Nodes(v)
  {
    assert (acc + [(k, v)])[..|acc|] == acc;
    assert Keys(acc + [(k, v)]) == Keys(acc) + [k];
  }

  predicate PairsSound(ty: Ty, n: nat, s: seq<byte>, acc: seq<(Val, Val)>, a: Outcome<Val>)
    requires ty.MappingTy?
  {
    && Suffix(a.rest, s)
    && (a.Decoded? ==>
          && a.value.MapOf? && |a.value.entries| <= |acc| + n && EntriesSound(ty, a.value.entries)
          && NodesOfPairs(a.value.entries) + |a.rest| <= NodesOfPairs(acc) + |s|)
  }

  lemma {:induction false} MappingIsSound(ty: Ty, s: seq<byte>)
    requires ty.MappingTy? && Portable(ty)
    ensures Sound(ty, s, Decode(ty, s))
    decreases ty, 0, |s| + 1
  {
    CountIsSound(s);
    var c := DecodeCount(s);
    if c.Decoded? {
      PairsAreSound(ty, c.value, c.rest, []);
      SuffixTransitive(DecodePairs(ty, c.value, c.rest, []).rest, c.rest, s);
    }
  }

  /** What reading one key and one value gives. */
  lemma {:induction false} PairIsSound(ty: Ty, s: seq<byte>)
    requires ty.MappingTy? && Portable(ty.key) && Portable(ty.mapped)
    ensures var k := Decode(ty.key, s);
            && Suffix(k.rest, s)
            && (k.Decoded? ==>
                  var v := Decode(ty.mapped, k.rest);
                  && Suffix(v.rest, s)
                  && (v.Decoded? ==>
                        && HasType(ty.key, k.value) && HasType(ty.mapped, v.value)
                        && Nodes(k.value) + |k.rest| <= |s| && Nodes(v.value) + |v.rest| <= |k.rest|))
    decreases ty, 0, 0
  {
    var k := Decode(ty.key, s);
    DecodedIsSound(ty.key, s);
    if k.Decoded? {
      DecodedIsSound(ty.mapped, k.rest);
      SuffixTransitive(Decode(ty.mapped, k.rest).rest, k.rest, s);
    }
  }

  lemma {:induction false} PairsAreSound(ty: Ty, n: nat, s: seq<byte>, acc: seq<(Val, Val)>)
    requires ty.MappingTy? && Portable(ty.key) && Portable(ty.mapped) && EntriesSound(ty, acc)
    ensures PairsSound(ty, n, s, acc, DecodePairs(ty, n, s, acc))
    decreases ty, 0, n
  {
    if n > 0 {
      var k := Decode(ty.key, s);
      PairIsSound(ty, s);
      if k.Decoded? {
        var v := Decode(ty.mapped, k.rest);
        if v.Decoded? {
          var more := InsertEntry(acc, k.value, v.value);
          InsertEntryKeepsSound(ty, acc, k.value, v.value);
          PairsAreSound(ty, n - 1, v.rest, more);
          PairsSoundStep(ty, n, s, k, v, acc, more, DecodePairs(ty, n - 1, v.rest, more));
        }
      }
    }
  }

  lemma PairsSoundStep(ty: Ty, n: nat, s: seq<byte>, k: Outcome<Val>, v: Outcome<Val>,
                       acc: seq<(Val, Val)>, more: seq<(Val, Val)>, a: Outcome<Val>)
    requires ty.MappingTy? && n > 0 && k.Decoded? && v.Decoded?
    requires Nodes(k.value) + |k.rest| <= |s| && Nodes(v.value) + |v.rest| <= |k.rest| && Suffix(v.rest, s)
    requires |more| <= |acc| + 1 && NodesOfPairs(more) <= NodesOfPairs(acc) + Nodes(k.value) + Nodes(v.value)
    requires PairsSound(ty, n - 1, v.rest, more, a)
    ensures PairsSound(ty, n, s, acc, a)
  {
    SuffixTransitive(a.rest, v.rest, s);
  }

  lemma {:induction false} TupleIsSound(ts: seq<Ty>, s: seq<byte>)
    requires forall t <- ts :: Portable(t)
    ensures Sound(TupleTy(ts), s, Decode(TupleTy(ts), s))
    decreases ts, 1, 0
  {
    FieldsAreSound(ts, s);
    var a := DecodeFields(ts, s);
    if a.Decoded? {
      TupleOutcome(ts, s, a);
      assert Decode(TupleTy(ts), s) == Decoded(TupleOf(a.value), a.rest);
    } else {
      assert Decode(TupleTy(ts), s) == Failed(a.rest);
    }
  }

  lemma TupleOutcome(ts: seq<Ty>, s: seq<byte>, a: Outcome<seq<Val>>)
    requires a.Decoded? && FieldsSound(ts, s, a)
    ensures Sound(TupleTy(ts), s, Decoded(TupleOf(a.value), a.rest))
  {
    assert HasType(TupleTy(ts), TupleOf(a.value));
    assert Encode(TupleTy(ts), TupleOf(a.value)) == EncodeFields(ts, a.value);
  }

  predicate FieldsSound(ts: seq<Ty>, s: seq<byte>, a: Outcome<seq<Val>>)
  {
    && Suffix(a.rest, s)
    && (a.Decoded? ==>
          && |a.value| == |ts| && (forall i :: 0 <= i < |ts| ==> HasType(ts[i], a.value[i]))
          && NodesOfAll(a.value) + |a.rest| <= |s|
          && ((forall t <- ts :: OrderedOnly(t)) ==> EncodeFields(ts, a.value) + a.rest == s))
  }

  lemma {:induction false} FieldsAreSound(ts: seq<Ty>, s: seq<byte>)
    requires forall t <- ts :: Portable(t)
    ensures FieldsSound(ts, s, DecodeFields(ts, s))
    decreases ts, 0, 0
  {
    if ts != [] {
      var h := Decode(ts[0], s);
      DecodedIsSound(ts[0], s);
      FieldsAreSound(ts[1..], h.rest);
      var r := DecodeFields(ts[1..], h.rest);
      SuffixTransitive(r.rest, h.rest, s);
      if h.Decoded? && r.Decoded? {
        PrependedFieldIsSound(ts, s, h, r);
      }
    }
  }

  lemma PrependedFieldIsSound(ts: seq<Ty>, s: seq<byte>, h: Outcome<Val>, r: Outcome<seq<Val>>)
    requires ts != [] && h.Decoded? && r.Decoded? && Suffix(r.rest, s)
    requires Sound(ts[0], s, h) && FieldsSound(ts[1..], h.rest, r)
    ensures FieldsSound(ts, s, Decoded([h.value] + r.value, r.rest))
  {
    NodesOfOne(h.value);
    NodesOfConcat([h.value], r.value);
    assert ([h.value] + r.value)[1..] == r.value;
    if forall t <- ts :: OrderedOnly(t) {
      HeadThenBody(Encode(ts[0], h.value), EncodeFields(ts[1..], r.value), r.rest, s);
    }
  }

  lemma {:induction false} VariantIsSound(ts: seq<Ty>, s: seq<byte>)
    requires forall t <- ts :: Portable(t)
    ensures Sound(VariantTy(ts), s, Decode(VariantTy(ts), s))
    decreases ts, 0, 0
  {
    CountIsSound(s);
    var c := DecodeCount(s);
    if c.Decoded? && c.value < |ts| {
      var t := ts[c.value];
      DecodedIsSound(t, c.rest);
      var v := Decode(t, c.rest);
      SuffixTransitive(v.rest, c.rest, s);
      if v.Decoded? {
        VariantOutcome(ts, c.value, c.rest, v, s);
      }
    }
  }

  lemma VariantOutcome(ts: seq<Ty>, i: nat, rest: seq<byte>, v: Outcome<Val>, s: seq<byte>)
    requires i < |ts| && i < U64 && |rest| < |s| && Header(i) + rest == s
    requires v.Decoded? && Sound(ts[i], rest, v) && Suffix(v.rest, s)
    ensures Sound(VariantTy(ts), s, Decoded(Alt(i, v.value), v.rest))
  {
    if OrderedOnly(ts[i]) {
      HeadThenBody(Header(i), Encode(ts[i], v.value), v.rest, s);
    }
    assert Encode(VariantTy(ts), Alt(i, v.value)) == Header(i) + Encode(ts[i], v.value);
  }

  // -------------------------------------------------- no more elements than bytes

  lemma {:induction false} TypedHasNodes(ty: Ty, v: Val)
    requires Portable(ty) && HasType(ty, v)
    ensures Nodes(v) >= 1
    decreases ty
  {
    if ty.TupleTy? {
      var n := |ty.fields| - 1;
      TypedHasNodes(ty.fields[n], v.fields[n]);
    }
  }

  lemma {:induction false} ElementsHaveNodes(vs: seq<Val>)
    requires forall v <- vs :: Nodes(v) >= 1
    ensures NodesOfAll(vs) >= |vs|
  {
    if vs != [] {
      ElementsHaveNodes(vs[..|vs| - 1]);
    }
  }

  lemma {:induction false} EntriesHaveNodes(ps: seq<(Val, Val)>)
    requires forall p <- ps :: Nodes(p.0) >= 1 && Nodes(p.1) >= 1
    ensures NodesOfPairs(ps) >= 2 * |ps|
  {
    if ps != [] {
      EntriesHaveNodes(ps[..|ps| - 1]);
    }
  }

  /** The number of characters or elements that a container holds, with a key and
      its value counting for two. */
  function Elements(v: Val): nat {
    match v
    case Text(cs) => |cs|
    case ListOf(es) => |es|
    case SetOf(es) => |es|
    case MapOf(ps) => 2 * |ps|
    case TupleOf(vs) => |vs|
    case _ => 0
  }

  lemma ElementsAreNodes(ty: Ty, v: Val)
    requires Portable(ty) && HasType(ty, v)
    ensures Elements(v) <= Nodes(v)
  {
    match (ty, v) {
      case (SequenceTy(t), ListOf(es)) =>
        forall e <- es { TypedHasNodes(t, e); }
        ElementsHaveNodes(es);
      case (SetTy(t), SetOf(es)) =>
        forall e <- es { TypedHasNodes(t, e); }
        ElementsHaveNodes(es);
      case (MappingTy(k, m), MapOf(ps)) =>
        forall p <- ps ensures Nodes(p.0) >= 1 && Nodes(p.1) >= 1 {
          TypedHasNodes(k, p.0);
          TypedHasNodes(m, p.1);
        }
        EntriesHaveNodes(ps);
      case (TupleTy(ts), TupleOf(vs)) =>
        forall i | 0 <= i < |vs| ensures Nodes(vs[i]) >= 1 {
          TypedHasNodes(ts[i], vs[i]);
        }
        ElementsHaveNodes(vs);
      case _ =>
    }
  }

  /** A value is a part of itself, and so are the parts of what it holds. */
  predicate IsPart(p: Val, v: Val)
    decreases v
  {
    p == v ||
    match v
    case ListOf(es) => exists e <- es :: IsPart(p, e)
    case SetOf(es) => exists e <- es :: IsPart(p, e)
    case MapOf(ps) => exists e <- ps :: IsPart(p, e.0) || IsPart(p, e.1)
    case TupleOf(vs) => exists e <- vs :: IsPart(p, e)
    case Alt(_, x) => IsPart(p, x)
    case _ => false
  }

  /** What a container holds are its parts, keys and values alike, ... */
  lemma HeldIsPart(v: Val)
    ensures v.ListOf? ==> forall e <- v.elems :: IsPart(e, v)
    ensures v.SetOf? ==> forall e <- v.members :: IsPart(e, v)
    ensures v.MapOf? ==> forall e <- v.entries :: IsPart(e.0, v) && IsPart(e.1, v)
    ensures v.TupleOf? ==> forall e <- v.fields :: IsPart(e, v)
    ensures v.Alt? ==> IsPart(v.chosen, v)
  {
    if v.MapOf? {
      forall e <- v.entries ensures IsPart(e.0, v) && IsPart(e.1, v) {
        assert IsPart(e.0, e.0) && IsPart(e.1, e.1);
      }
    }
  }

  /** ... and so are their parts. */
  lemma {:induction false} PartOfPart(p: Val, q: Val, v: Val)
    requires IsPart(p, q) && IsPart(q, v)
    ensures IsPart(p, v)
    decreases v
  {
    if q != v {
      match v
      case ListOf(es) =>
        var e :| e in es && IsPart(q, e);
        PartOfPart(p, q, e);
      case SetOf(es) =>
        var e :| e in es && IsPart(q, e);
        PartOfPart(p, q, e);
      case MapOf(ps) =>
        var e :| e in ps && (IsPart(q, e.0) || IsPart(q, e.1));
        if IsPart(q, e.0) {
          PartOfPart(p, q, e.0);
        } else {
          PartOfPart(p, q, e.1);
        }
      case TupleOf(vs) =>
        var e :| e in vs && IsPart(q, e);
        PartOfPart(p, q, e);
      case Alt(_, x) => PartOfPart(p, q, x);
    }
  }

  lemma {:induction false} ElementIsNoLarger(vs: seq<Val>, i: nat)
    requires i < |vs|
    ensures Nodes(vs[i]) <= NodesOfAll(vs)
  {
    var n := |vs| - 1;
    if i < n {
      ElementIsNoLarger(vs[..n], i);
    }
  }

  lemma {:induction false} EntryIsNoLarger(ps: seq<(Val, Val)>, i: nat)
    requires i < |ps|
    ensures Nodes(ps[i].0) + Nodes(ps[i].1) <= NodesOfPairs(ps)
  {
    var n := |ps| - 1;
    if i < n {
      EntryIsNoLarger(ps[..n], i);
    }
  }

  lemma {:induction false} PartsAreSmall(ty: Ty, v: Val, p: Val)
    requires Portable(ty) && HasType(ty, v) && IsPart(p, v)
    ensures Elements(p) <= Nodes(v)
    decreases ty
  {
    if p == v {
      ElementsAreNodes(ty, v);
    } else {
      match (ty, v) {
        case (SequenceTy(t), ListOf(es)) =>
          var i :| 0 <= i < |es| && IsPart(p, es[i]);
          PartsAreSmall(t, es[i], p);
          ElementIsNoLarger(es, i);
        case (SetTy(t), SetOf(es)) =>
          var i :| 0 <= i < |es| && IsPart(p, es[i]);
          PartsAreSmall(t, es[i], p);
          ElementIsNoLarger(es, i);
        case (MappingTy(k, m), MapOf(ps)) =>
          var i :| 0 <= i < |ps| && (IsPart(p, ps[i].0) || IsPart(p, ps[i].1));
          if IsPart(p, ps[i].0) {
            PartsAreSmall(k, ps[i].0, p);
          } else {
            PartsAreSmall(m, ps[i].1, p);
          }
          EntryIsNoLarger(ps, i);
        case (TupleTy(ts), TupleOf(vs)) =>
          var i :| 0 <= i < |vs| && IsPart(p, vs[i]);
          PartsAreSmall(ts[i], vs[i], p);
          ElementIsNoLarger(vs, i);
        case (VariantTy(ts), Alt(i, x)) =>
          PartsAreSmall(ts[i], x, p);
      }
    }
  }

  /** Whatever the bytes are and whatever counts they announce, no container that has
      been read, at any depth, holds more than the bytes consumed. */
  lemma NoMoreElementsThanBytes(ty: Ty, s: seq<byte>)
    requires Portable(ty)
    ensures var out := Decode(ty, s);
            out.Decoded? ==>
              && 1 <= |s| - |out.rest|
              && forall p :: IsPart(p, out.value) ==> Elements(p) <= |s| - |out.rest|
  {
    DecodedIsSound(ty, s);
    var out := Decode(ty, s);
    if out.Decoded? {
      TypedHasNodes(ty, out.value);
      forall p | IsPart(p, out.value) ensures Elements(p) <= |s| - |out.rest| {
        PartsAreSmall(ty, out.value, p);
      }
    }
  }
}
