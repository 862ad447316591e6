/** The portable type names, the test made on them before decoding, and the
    serialized form of an AuxData object as a whole. */
module AuxDataTypeNames {
  import opened LittleEndian
  import opened AuxData
  import opened AuxDataRoundTrip
  import opened Options

  function Digits(w: Width): string
  {
    match w case W8 => "8" case W16 => "16" case W32 => "32" case W64 => "64"
  }

  function ScalarName(k: Scalar): string
  {
    match k
    case Byte => "byte"
    case Addr => "Addr"
    case Uuid => "UUID"
    case Int(w) => "int" + Digits(w) + "_t"
    case Uint(w) => "uint" + Digits(w) + "_t"
    case Bool => "bool"
    case Float => "float"
    case Double => "double"
  }

  /** The name up to the parameter list. */
  function Stem(ty: Ty): string
  {
    match ty
    case ScalarTy(k) => ScalarName(k)
    case StringTy => "string"
    case OffsetTy => "Offset"
    case SequenceTy(_) => "sequence"
    case SetTy(_) => "set"
    case MappingTy(_, _) => "mapping"
    case TupleTy(_) => "tuple"
    case VariantTy(_) => "variant"
  }

  /** The parameter list in its brackets. */
  function Arguments(ty: Ty): string
    decreases ty, 0
  {
    match ty
    case SequenceTy(t) => Bracketed(TypeName(t))
    case SetTy(t) => Bracketed(TypeName(t))
    case MappingTy(k, m) => Bracketed(TypeName(k) + [','] + TypeName(m))
    case TupleTy(ts) => Bracketed(TypeNames(ts))
    case VariantTy(ts) => Bracketed(TypeNames(ts))
    case _ => []
  }

  function Bracketed(s: string): string {
    ['<'] + s + ['>']
  }

  function TypeName(ty: Ty): string
    decreases ty, 1
  {
    Stem(ty) + Arguments(ty)
  }

  function TypeNames(ts: seq<Ty>): string
    decreases ts, 0
  {
    if ts == [] then []
    else if |ts| == 1 then TypeName(ts[0])
    else TypeName(ts[0]) + [','] + TypeNames(ts[1..])
  }

  // -------------------------------------------------- reading a name back

  datatype Read<T> = Read(value: T, rest: string) | Unreadable

  predicate Special(c: char) {
    c == '<' || c == '>' || c == ','
  }

  function FirstBreak(s: string): (n: nat)
    ensures n <= |s|
  {
    if s == [] || Special(s[0]) then 0 else 1 + FirstBreak(s[1..])
  }

  /** The names without parameters. */
  function PlainType(word: string): Option<Ty> {
    if word == "byte" then Some(ScalarTy(Byte))
    else if word == "Addr" then Some(ScalarTy(Addr))
    else if word == "UUID" then Some(ScalarTy(Uuid))
    else if word == "int8_t" then Some(ScalarTy(Int(W8)))
    else if word == "int16_t" then Some(ScalarTy(Int(W16)))
    else if word == "int32_t" then Some(ScalarTy(Int(W32)))
    else if word == "int64_t" then Some(ScalarTy(Int(W64)))
    else if word == "uint8_t" then Some(ScalarTy(Uint(W8)))
    else if word == "uint16_t" then Some(ScalarTy(Uint(W16)))
    else if word == "uint32_t" then Some(ScalarTy(Uint(W32)))
    else if word == "uint64_t" then Some(ScalarTy(Uint(W64)))
    else if word == "bool" then Some(ScalarTy(Bool))
    else if word == "float" then Some(ScalarTy(Float))
    else if word == "double" then Some(ScalarTy(Double))
    else if word == "string" then Some(StringTy)
    else if word == "Offset" then Some(OffsetTy)
    else None
  }

  /** The names with parameters. */
  function Applied(word: string, ts: seq<Ty>): Option<Ty> {
    if word == "sequence" && |ts| == 1 then Some(SequenceTy(ts[0]))
    else if word == "set" && |ts| == 1 then Some(SetTy(ts[0]))
    else if word == "mapping" && |ts| == 2 then Some(MappingTy(ts[0], ts[1]))
    else if word == "tuple" then Some(TupleTy(ts))
    else if word == "variant" then Some(VariantTy(ts))
    else None
  }

  /** Reads one type from the front of a text: a word and, in brackets, the
      parameters. */
  function ReadType(s: string): (r: Read<Ty>)
    ensures r.Read? ==> |r.rest| < |s|
    decreases |s|, 0
  {
    var n := FirstBreak(s);
    if n == 0 then Unreadable
    else if n == |s| || s[n] != '<' then
      var plain := PlainType(s[..n]);
      if plain.Some? then Read(plain.value, s[n..]) else Unreadable
    else
      var ts := ReadTypes(s[n + 1..]);
      if ts.Unreadable? then Unreadable
      else
        var applied := Applied(s[..n], ts.value);
        if applied.Some? then Read(applied.value, ts.rest) else Unreadable
  }

  /** Reads types between commas up to the closing bracket, and the bracket. */
  function ReadTypes(s: string): (r: Read<seq<Ty>>)
    ensures r.Read? ==> |r.rest| < |s|
    decreases |s|, 1
  {
    if s == [] then Unreadable
    else
      var t := ReadType(s);
      if t.Unreadable? || t.rest == [] then Unreadable
      else if t.rest[0] == '>' then Read([t.value], t.rest[1..])
      else if t.rest[0] != ',' then Unreadable
      else
        var ts := ReadTypes(t.rest[1..]);
        if ts.Unreadable? then Unreadable else Read([t.value] + ts.value, ts.rest)
  }

  // What may stand behind a stem, or behind a whole name.

  predicate Plain(s: string) {
    forall i :: 0 <= i < |s| ==> !Special(s[i])
  }

  predicate Breaks(s: string) {
    s == [] || Special(s[0])
  }

  predicate Ends(s: string) {
    s == [] || s[0] == '>' || s[0] == ','
  }

  lemma {:induction false} BreakIsBehindPlain(a: string, u: string)
    requires Plain(a) && Breaks(u)
    ensures FirstBreak(a + u) == |a|
  {
    if a == [] {
      assert a + u == u;
    } else {
      assert (a + u)[1..] == a[1..] + u;
      BreakIsBehindPlain(a[1..], u);
    }
  }

  lemma SplitAtBreak(a: string, u: string)
    requires Plain(a) && Breaks(u)
    ensures FirstBreak(a + u) == |a| && (a + u)[..|a|] == a && (a + u)[|a|..] == u
    ensures u != [] ==> (a + u)[|a|] == u[0] && (a + u)[|a| + 1..] == u[1..]
  {
    BreakIsBehindPlain(a, u);
  }

  /** Types without parameters. */
  predicate Simple(ty: Ty) {
    ty.ScalarTy? || ty.StringTy? || ty.OffsetTy?
  }

  lemma ScalarIsNamed(k: Scalar)
    ensures PlainType(ScalarName(k)) == Some(ScalarTy(k))
    ensures Plain(ScalarName(k)) && ScalarName(k) != []
  {
    var s := ScalarName(k);
    if k.Int? {
      assert s[3] == Digits(k.w)[0];
    } else if k.Uint? {
      assert s[4] == Digits(k.w)[0];
    }
  }

  lemma StemIsRead(ty: Ty)
    ensures Plain(Stem(ty)) && Stem(ty) != []
    ensures Simple(ty) ==> PlainType(Stem(ty)) == Some(ty)
  {
    if ty.ScalarTy? {
      ScalarIsNamed(ty.kind);
    }
  }

  lemma SimpleIsRead(ty: Ty, u: string)
    requires Simple(ty) && Ends(u)
    ensures ReadType(TypeName(ty) + u) == Read(ty, u)
  {
    StemIsRead(ty);
    assert TypeName(ty) == Stem(ty);
    SplitAtBreak(Stem(ty), u);
  }

  /** A stem, and its parameters in brackets. */
  lemma AppliedIsRead(stem: string, args: string, ts: seq<Ty>, ty: Ty, u: string)
    requires Plain(stem) && stem != [] && ReadTypes(args + (['>'] + u)) == Read(ts, u) && Applied(stem, ts) == Some(ty)
    ensures ReadType(stem + Bracketed(args) + u) == Read(ty, u)
  {
    var behind := ['<'] + (args + (['>'] + u));
    assert stem + Bracketed(args) + u == stem + behind;
    SplitAtBreak(stem, behind);
    assert behind[1..] == args + (['>'] + u);
    ReadApplied(stem + behind, |stem|, ts, ty, u);
  }

  lemma ReadApplied(s: string, n: nat, ts: seq<Ty>, ty: Ty, u: string)
    requires n == FirstBreak(s) && 0 < n < |s| && s[n] == '<'
    requires ReadTypes(s[n + 1..]) == Read(ts, u) && Applied(s[..n], ts) == Some(ty)
    ensures ReadType(s) == Read(ty, u)
  {
  }

  /** Whatever ends a name, reading it gives back the type and what follows. */
  lemma {:induction false} NameIsRead(ty: Ty, u: string)
    requires Portable(ty) && Ends(u)
    ensures ReadType(TypeName(ty) + u) == Read(ty, u)
    decreases ty, 1
  {
    StemIsRead(ty);
    match ty
    case SequenceTy(t) =>
      OneIsRead(t, u);
      AppliedIsRead(Stem(ty), TypeName(t), [t], ty, u);
    case SetTy(t) =>
      OneIsRead(t, u);
      AppliedIsRead(Stem(ty), TypeName(t), [t], ty, u);
    case MappingTy(k, m) =>
      PairIsRead(ty, u);
      AppliedIsRead(Stem(ty), TypeName(k) + [','] + TypeName(m), [k, m], ty, u);
    case TupleTy(ts) =>
      NamesAreRead(ts, u);
      AppliedIsRead(Stem(ty), TypeNames(ts), ts, ty, u);
    case VariantTy(ts) =>
      NamesAreRead(ts, u);
      AppliedIsRead(Stem(ty), TypeNames(ts), ts, ty, u);
    case _ => SimpleIsRead(ty, u);
  }

  lemma {:induction false} OneIsRead(t: Ty, u: string)
    requires Portable(t)
    ensures ReadTypes(TypeName(t) + (['>'] + u)) == Read([t], u)
    decreases t, 2
  {
    StemIsRead(t);
    NameIsRead(t, ['>'] + u);
  }

  /** Behind a comma comes the rest of the list and the closing bracket. */
  lemma AfterComma(head: string, tail: string, u: string)
    ensures head + [','] + tail + (['>'] + u) == head + ([','] + (tail + (['>'] + u)))
  {
  }

  lemma {:induction false} FirstIsRead(t: Ty, tail: string, ts: seq<Ty>, u: string)
    requires Portable(t) && ReadTypes(tail + (['>'] + u)) == Read(ts, u)
    ensures ReadTypes(TypeName(t) + [','] + tail + (['>'] + u)) == Read([t] + ts, u)
    decreases t, 2
  {
    StemIsRead(t);
    AfterComma(TypeName(t), tail, u);
    var behind := [','] + (tail + (['>'] + u));
    NameIsRead(t, behind);
    assert behind[1..] == tail + (['>'] + u);
  }

  lemma {:induction false} PairIsRead(ty: Ty, u: string)
    requires ty.MappingTy? && Portable(ty)
    ensures ReadTypes(TypeName(ty.key) + [','] + TypeName(ty.mapped) + (['>'] + u)) == Read([ty.key, ty.mapped], u)
    decreases ty, 0
  {
    OneIsRead(ty.mapped, u);
    FirstIsRead(ty.key, TypeName(ty.mapped), [ty.mapped], u);
    assert [ty.key] + [ty.mapped] == [ty.key, ty.mapped];
  }

  lemma {:induction false} NamesAreRead(ts: seq<Ty>, u: string)
    requires ts != [] && forall t <- ts :: Portable(t)
    ensures ReadTypes(TypeNames(ts) + (['>'] + u)) == Read(ts, u)
    decreases ts, 0
  {
    if |ts| == 1 {
      OneIsRead(ts[0], u);
      assert ts == [ts[0]];
    } else {
      NamesAreRead(ts[1..], u);
      FirstIsRead(ts[0], TypeNames(ts[1..]), ts[1..], u);
      assert ts == [ts[0]] + ts[1..];
    }
  }

  /** The name of a type is read as that type: names are the words of the grammar. */
  lemma TypeNameIsRead(ty: Ty)
    requires Portable(ty)
    ensures ReadType(TypeName(ty)) == Read(ty, [])
  {
    NameIsRead(ty, []);
    assert TypeName(ty) + [] == TypeName(ty);
  }

  lemma {:induction false} ReadIsPortable(s: string)
    requires ReadType(s).Read? && |s| < U64
    ensures Portable(ReadType(s).value)
    decreases |s|, 0
  {
    var n := FirstBreak(s);
    if n < |s| && s[n] == '<' {
      ReadArePortable(s[n + 1..]);
    }
  }

  lemma {:induction false} ReadArePortable(s: string)
    requires ReadTypes(s).Read? && |s| < U64
    ensures var ts := ReadTypes(s).value; ts != [] && |ts| <= |s| && forall t <- ts :: Portable(t)
    decreases |s|, 1
  {
    ReadIsPortable(s);
    var t := ReadType(s);
    if t.rest[0] == ',' {
      ReadArePortable(t.rest[1..]);
    }
  }

  /** The portable types are exactly those whose name is read back. */
  lemma PortableIsReadable(ty: Ty)
    requires |TypeName(ty)| < U64
    ensures Portable(ty) <==> ReadType(TypeName(ty)) == Read(ty, [])
  {
    if Portable(ty) {
      TypeNameIsRead(ty);
    }
    if ReadType(TypeName(ty)) == Read(ty, []) {
      ReadIsPortable(TypeName(ty));
    }
  }

  /** A name followed by something that ends it can be split in one way. */
  lemma NameIsUniquePrefix(a: Ty, b: Ty, u: string, v: string)
    requires Portable(a) && Portable(b) && Ends(u) && Ends(v) && TypeName(a) + u == TypeName(b) + v
    ensures a == b && u == v
  {
    NameIsRead(a, u);
    NameIsRead(b, v);
  }

  /** Different portable types have different names. */
  lemma TypeNameIsInjective(a: Ty, b: Ty)
    requires Portable(a) && Portable(b) && TypeName(a) == TypeName(b)
    ensures a == b
  {
    TypeNameIsRead(a);
    TypeNameIsRead(b);
  }

  // ------------------------------------------------------- the whole object

  datatype SerializedForm = SerializedForm(rawBytes: seq<byte>, typeName: string)
  datatype Loaded = Loaded(object: Val) | Rejected

  function Save(ty: Ty, v: Val): SerializedForm
  {
    SerializedForm(Encode(ty, v), TypeName(ty))
  }

  /** Decode only under the expected name; bytes behind the value are ignored. */
  function Load(expected: Ty, form: SerializedForm): Loaded
  {
    if form.typeName != TypeName(expected) then Rejected else
    var out := Decode(expected, form.rawBytes);
    if out.Failed? then Rejected else Loaded(out.value)
  }

  /** A saved object is loaded under exactly its own type, and then it is the
      same object, if and only if its variant indices fit. */
  lemma LoadOfSaved(ty: Ty, v: Val, expected: Ty)
    requires Portable(ty) && HasType(ty, v) && Portable(expected)
    ensures Load(expected, Save(ty, v))
            == if expected == ty && IndicesFit(ty, v, 0) then Loaded(v) else Rejected
  {
    if TypeName(ty) == TypeName(expected) {
      TypeNameIsInjective(ty, expected);
      assert Encode(ty, v) + [] == Encode(ty, v);
      RoundTrip(ty, v, []);
    }
  }
}
