/** The writer and the reader themselves: a growing buffer, a cursor, and the
    loops over them, each shown to do what `Encode` and `Decode` say. */
module AuxDataStreams {
  import opened LittleEndian
  import opened AuxData
  import opened Sequences

  class ToByteRange {
    var bytes: seq<byte>

    constructor ()
      ensures bytes == []
    {
      bytes := [];
    }

    method Write(b: byte)
      modifies this
      ensures bytes == old(bytes) + [b]
    {
      bytes := bytes + [b];
    }
  }

  class FromByteRange {
    const bytes: seq<byte>
    var curr: nat

    ghost predicate Valid()
      reads this
    {
      curr <= |bytes|
    }

    /** The bytes the cursor has not passed. */
    ghost function Rest(): seq<byte>
      reads this
      requires Valid()
    {
      bytes[curr..]
    }

    constructor (bytes: seq<byte>)
      ensures Valid() && Rest() == bytes
    {
      this.bytes := bytes;
      curr := 0;
    }

    method Read() returns (ok: bool, b: byte)
      requires Valid()
      modifies this
      ensures Valid()
      ensures ok == (old(Rest()) != [])
      ensures if ok then old(Rest()) == [b] + Rest() else Rest() == old(Rest())
    {
      if curr == |bytes| {
        return false, 0;
      }
      ok, b := true, bytes[curr];
      curr := curr + 1;
    }

    method RemainingBytesToRead() returns (n: nat)
      requires Valid()
      ensures n == |Rest()|
    {
      n := |bytes| - curr;
    }
  }

  // ---------------------------------------------------------------- writing

  method WriteRaw(bs: seq<byte>, tbr: ToByteRange)
    modifies tbr
    ensures tbr.bytes == old(tbr.bytes) + bs
  {
    for i := 0 to |bs|
      invariant tbr.bytes == old(tbr.bytes) + bs[..i]
    {
      tbr.Write(bs[i]);
      assert bs[..i + 1] == bs[..i] + [bs[i]];
    }
  }

  method ToBytes(ty: Ty, v: Val, tbr: ToByteRange)
    modifies tbr
    ensures tbr.bytes == old(tbr.bytes) + Encode(ty, v)
    decreases ty, 1, 0
  {
    ghost var start := tbr.bytes;
    match (ty, v)
    case (ScalarTy(k), _) => WriteRaw(EncodeScalar(k, v), tbr);
    case (StringTy, Text(cs)) =>
      WriteRaw(Header(|cs|), tbr);
      WriteRaw(cs, tbr);
      assert start + Header(|cs|) + cs == start + (Header(|cs|) + cs);
    case (OffsetTy, Ref(e, d)) =>
      WriteRaw(e, tbr);
      WriteRaw(Header(d), tbr);
      assert start + e + Header(d) == start + (e + Header(d));
    case (SequenceTy(t), ListOf(es)) =>
      ElementsToBytes(t, es, tbr);
    case (SetTy(t), SetOf(es)) =>
      ElementsToBytes(t, es, tbr);
    case (MappingTy(_, _), MapOf(ps)) =>
      EntriesToBytes(ty, ps, tbr);
    case (TupleTy(ts), TupleOf(vs)) =>
      FieldsToBytes(ts, vs, tbr);
    case (VariantTy(ts), Alt(i, x)) =>
      if i < |ts| {
        WriteRaw(Header(i), tbr);
        ToBytes(ts[i], x, tbr);
        assert start + Header(i) + Encode(ts[i], x) == start + (Header(i) + Encode(ts[i], x));
      }
    case _ =>
  }

  method ElementsToBytes(t: Ty, es: seq<Val>, tbr: ToByteRange)
    modifies tbr
    ensures tbr.bytes == old(tbr.bytes) + (Header(|es|) + EncodeAll(t, es))
    decreases t, 2, |es|
  {
    ghost var start := tbr.bytes + Header(|es|);
    WriteRaw(Header(|es|), tbr);
    assert es[0..] == es;
    for i := 0 to |es|
      invariant tbr.bytes + EncodeAll(t, es[i..]) == start + EncodeAll(t, es)
    {
      ghost var before := tbr.bytes;
      ToBytes(t, es[i], tbr);
      assert es[i..][1..] == es[i + 1..];
      ghost var x, later := Encode(t, es[i]), EncodeAll(t, es[i + 1..]);
      assert EncodeAll(t, es[i..]) == x + later;
      assert before + (x + later) == before + x + later;
    }
    assert tbr.bytes + [] == tbr.bytes;
  }

  method EntriesToBytes(ty: Ty, ps: seq<(Val, Val)>, tbr: ToByteRange)
    requires ty.MappingTy?
    modifies tbr
    ensures tbr.bytes == old(tbr.bytes) + (Header(|ps|) + EncodePairs(ty, ps))
    decreases ty, 0, |ps|
  {
    ghost var start := tbr.bytes + Header(|ps|);
    WriteRaw(Header(|ps|), tbr);
    assert ps[0..] == ps;
    for i := 0 to |ps|
      invariant tbr.bytes + EncodePairs(ty, ps[i..]) == start + EncodePairs(ty, ps)
    {
      ghost var before := tbr.bytes;
      ToBytes(ty.key, ps[i].0, tbr);
      ToBytes(ty.mapped, ps[i].1, tbr);
      assert ps[i..][1..] == ps[i + 1..];
      ghost var k, m := Encode(ty.key, ps[i].0), Encode(ty.mapped, ps[i].1);
      ghost var later := EncodePairs(ty, ps[i + 1..]);
      assert before + (k + m + later) == before + k + m + later;
    }
    assert tbr.bytes + [] == tbr.bytes;
  }

  method FieldsToBytes(ts: seq<Ty>, vs: seq<Val>, tbr: ToByteRange)
    modifies tbr
    ensures tbr.bytes == old(tbr.bytes) + EncodeFields(ts, vs)
    decreases ts, 0, 0
  {
    // One field after the other, unrolled at compile time in the source.
    if ts != [] && vs != [] {
      ghost var start := tbr.bytes;
      ToBytes(ts[0], vs[0], tbr);
      FieldsToBytes(ts[1..], vs[1..], tbr);
      ghost var h, r := Encode(ts[0], vs[0]), EncodeFields(ts[1..], vs[1..]);
      assert start + h + r == start + (h + r);
    }
  }

  // ---------------------------------------------------------------- reading

  /** The flag, the object and the cursor after a read, as an outcome. */
  ghost predicate Gives<T>(out: Outcome<T>, ok: bool, v: T, rest: seq<byte>)
  {
    out.rest == rest && out.Decoded? == ok && (ok ==> out.value == v)
  }

  method ReadRaw(n: nat, fbr: FromByteRange) returns (ok: bool, bs: seq<byte>)
    requires fbr.Valid()
    modifies fbr
    ensures fbr.Valid()
    ensures ok == (n <= |old(fbr.Rest())|)
    ensures ok ==> bs == old(fbr.Rest())[..n] && fbr.Rest() == old(fbr.Rest())[n..]
    ensures !ok ==> fbr.Rest() == []
  {
    ghost var s := fbr.Rest();
    ok, bs := true, [];
    for i := 0 to n
      invariant fbr.Valid() && ok == (i <= |s|)
      invariant if ok then bs == s[..i] && fbr.Rest() == s[i..] else fbr.Rest() == []
    {
      var one, b := fbr.Read();
      if one {
        bs := bs + [b];
      } else {
        ok := false;
      }
    }
  }

  method ScalarFromBytes(k: Scalar, fbr: FromByteRange) returns (ok: bool, v: Val)
    requires fbr.Valid()
    modifies fbr
    ensures fbr.Valid() && Gives(DecodeScalar(k, old(fbr.Rest())), ok, v, fbr.Rest())
  {
    var bs;
    ok, bs := ReadRaw(k.Bytes(), fbr);
    v := if ok then ScalarValue(k, bs) else Raw([]);
  }

  method HeaderFromBytes(fbr: FromByteRange) returns (ok: bool, n: nat)
    requires fbr.Valid()
    modifies fbr
    ensures fbr.Valid() && Gives(DecodeHeader(old(fbr.Rest())), ok, n, fbr.Rest())
  {
    var bs;
    ok, bs := ReadRaw(8, fbr);
    n := if ok then Value(bs) else 0;
  }

  method CountFromBytes(fbr: FromByteRange) returns (ok: bool, n: nat)
    requires fbr.Valid()
    modifies fbr
    ensures fbr.Valid() && Gives(DecodeCount(old(fbr.Rest())), ok, n, fbr.Rest())
  {
    ok, n := HeaderFromBytes(fbr);
    if !ok {
      return;
    }
    var left := fbr.RemainingBytesToRead();
    if n > left {
      ok := false;
    }
  }

  method FromBytes(ty: Ty, fbr: FromByteRange) returns (ok: bool, v: Val)
    requires fbr.Valid()
    modifies fbr
    ensures fbr.Valid() && Gives(Decode(ty, old(fbr.Rest())), ok, v, fbr.Rest())
    decreases ty, 1, 0
  {
    v := Raw([]);
    match ty
    case ScalarTy(k) => ok, v := ScalarFromBytes(k, fbr);
    case StringTy =>
      var n, cs;
      ok, n := CountFromBytes(fbr);
      if ok {
        ok, cs := ReadRaw(n, fbr);
        v := Text(cs);
      }
    case OffsetTy =>
      var e, d;
      ok, e := ScalarFromBytes(Uuid, fbr);
      if ok {
        ok, d := HeaderFromBytes(fbr);
        v := Ref(e.bytes, d);
      }
    case SequenceTy(t) =>
      var n, es;
      ok, n := CountFromBytes(fbr);
      if ok {
        ok, es := ElementsFromBytes(t, n, fbr);
        v := ListOf(es);
      }
    case SetTy(t) =>
      var n;
      ok, n := CountFromBytes(fbr);
      if ok {
        ok, v := MembersFromBytes(t, n, fbr);
      }
    case MappingTy(_, _) =>
      var n;
      ok, n := CountFromBytes(fbr);
      if ok {
        ok, v := EntriesFromBytes(ty, n, fbr);
      }
    case TupleTy(ts) =>
      var vs;
      ok, vs := FieldsFromBytes(ts, fbr);
      v := TupleOf(vs);
    case VariantTy(ts) =>
      var i, x;
      ok, i := CountFromBytes(fbr);
      if ok {
        if i >= |ts| {
          ok := false;
        } else {
          ok, x := FromBytes(ts[i], fbr);
          v := Alt(i, x);
        }
      }
  }

  method ElementsFromBytes(t: Ty, n: nat, fbr: FromByteRange) returns (ok: bool, es: seq<Val>)
    requires fbr.Valid()
    modifies fbr
    ensures fbr.Valid() && Gives(DecodeAll(t, n, old(fbr.Rest())), ok, es, fbr.Rest())
    decreases t, 2, n
  {
    ghost var out := DecodeAll(t, n, fbr.Rest());
    ok, es := true, [];
    for i := 0 to n
      invariant fbr.Valid()
      invariant var tail := DecodeAll(t, n - i, fbr.Rest());
        && out.rest == tail.rest && out.Decoded? == (ok && tail.Decoded?)
        && (out.Decoded? ==> out.value == es + tail.value)
    {
      ghost var tail := DecodeAll(t, n - i, fbr.Rest());
      var one, x := FromBytes(t, fbr);
      ghost var later := DecodeAll(t, n - i - 1, fbr.Rest());
      if one {
        if later.Decoded? {
          assert tail == Decoded([x] + later.value, later.rest);
          Regroup(es, x, later.value);
        }
        es := es + [x];
      } else {
        ok := false;
      }
    }
    assert es + [] == es;
  }

  method MembersFromBytes(t: Ty, n: nat, fbr: FromByteRange) returns (ok: bool, v: Val)
    requires fbr.Valid()
    modifies fbr
    ensures fbr.Valid() && Gives(DecodeMembers(t, n, old(fbr.Rest()), []), ok, v, fbr.Rest())
    decreases t, 2, n
  {
    ghost var out := DecodeMembers(t, n, fbr.Rest(), []);
    var es := [];
    for i := 0 to n
      invariant fbr.Valid() && out == DecodeMembers(t, n - i, fbr.Rest(), es)
    {
      var one, x := FromBytes(t, fbr);
      if !one {
        return false, Raw([]);
      }
      es := Insert(es, x);
    }
    return true, SetOf(es);
  }

  /** One entry of a mapping. */
  lemma NextPair(ty: Ty, n: nat, s: seq<byte>, acc: seq<(Val, Val)>)
    requires ty.MappingTy? && n > 0
    ensures var k, all := Decode(ty.key, s), DecodePairs(ty, n, s, acc);
            if k.Failed? then all == Failed(k.rest)
            else
              var v := Decode(ty.mapped, k.rest);
              if v.Failed? then all == Failed(v.rest)
              else all == DecodePairs(ty, n - 1, v.rest, InsertEntry(acc, k.value, v.value))
  {
  }

  method EntriesFromBytes(ty: Ty, n: nat, fbr: FromByteRange) returns (ok: bool, v: Val)
    requires fbr.Valid() && ty.MappingTy?
    modifies fbr
    ensures fbr.Valid() && Gives(DecodePairs(ty, n, old(fbr.Rest()), []), ok, v, fbr.Rest())
    decreases ty, 0, n
  {
    ghost var out := DecodePairs(ty, n, fbr.Rest(), []);
    var ps := [];
    for i := 0 to n
      invariant fbr.Valid() && out == DecodePairs(ty, n - i, fbr.Rest(), ps)
    {
      NextPair(ty, n - i, fbr.Rest(), ps);
      var one, k := FromBytes(ty.key, fbr);
      if !one {
        return false, Raw([]);
      }
      var two, m := FromBytes(ty.mapped, fbr);
      if !two {
        return false, Raw([]);
      }
      ps := InsertEntry(ps, k, m);
    }
    return true, MapOf(ps);
  }

  method FieldsFromBytes(ts: seq<Ty>, fbr: FromByteRange) returns (ok: bool, vs: seq<Val>)
    requires fbr.Valid()
    modifies fbr
    ensures fbr.Valid() && Gives(DecodeFields(ts, old(fbr.Rest())), ok, vs, fbr.Rest())
    decreases ts, 0, 0
  {
    if ts == [] {
      return true, [];
    }
    var one, x := FromBytes(ts[0], fbr);
    var others, xs := FieldsFromBytes(ts[1..], fbr);
    return one && others, [x] + xs;
  }
}
