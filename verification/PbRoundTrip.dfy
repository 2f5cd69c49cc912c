/** Decoding what the encoder wrote gives the message back. */
module PbRoundTrip {
  import opened Octets
  import opened PbVarint
  import opened PbModel
  import opened PbParse

  // ---------------------------------------------------------------- which tables and messages

  predicate DistinctTags(fs: seq<Field>)
  {
    forall i, j :: 0 <= i < j < |fs| ==> fs[i].tag != fs[j].tag
  }

  /** Tables the generator emits: legal distinct tags, no default on a proto3 singular field. */
  predicate WellFormedField(f: Field)
    decreases f
  {
    && 0 < f.tag < 0x2000_0000 && Counted(f)
    && (f.htype.Optional? && f.sizeOffset == 0 ==> f.default.None?)
    && f.dataSize <= PB_SIZE_MAX
    && WellFormed(f.sub)
  }

  predicate WellFormed(fs: seq<Field>)
    decreases fs
  {
    DistinctTags(fs) && forall i :: 0 <= i < |fs| ==> WellFormedField(fs[i])
  }

  predicate OneMemberSet(fs: seq<Field>, m: Message)
    requires |fs| == |m|
  {
    forall i, j :: 0 <= i < |fs| && 0 <= j < |fs| && i != j && SameUnion(fs, i, j) && m[i].has ==> !m[j].has
  }

  predicate Short(e: Option<Bytes>)
  {
    e.Some? && |e.value| < U32
  }

  /** A value its own field can hold once decoded: strings leave room for their terminator. */
  predicate Storable(f: Field, v: Value)
    requires Typed(f, v)
    decreases f, 0
  {
    match f.ltype
    case LString => |CString(v.b, f.dataSize)| < f.dataSize
    case LBytes => |v.b| + BYTES_OFFSET <= f.dataSize
    case LSubmessage => StorableMessage(f.sub, v.m) && Short(EncMessage(f.sub, v.m))
    case _ => true
  }

  predicate StorableSlot(f: Field, s: Slot)
    requires TypedSlot(f, s)
    decreases f, 1
  {
    if f.htype.Repeated? then
      && |s.vs| <= f.arraySize
      && (forall i :: 0 <= i < |s.vs| ==> Storable(f, s.vs[i]))
      && (f.ltype.Packable() ==> Short(EncElements(f, [], s.vs)))
    else Absent(f, s) || Storable(f, s.v)
  }

  predicate StorableMessage(fs: seq<Field>, m: Message)
    requires TypedMessage(fs, m)
    decreases fs
  {
    OneMemberSet(fs, m) && forall i :: 0 <= i < |fs| ==> StorableSlot(fs[i], m[i])
  }

  // ---------------------------------------------------------------- the message up to absent contents

  function NormValue(f: Field, v: Value): Value
    requires Typed(f, v)
    decreases f, 0
  {
    if f.ltype.LSubmessage? then Sub(Norm(f.sub, v.m))
    else if f.ltype.LString? then Str(CString(v.b, f.dataSize))
    else v
  }

  function NormAll(f: Field, vs: seq<Value>): (ns: seq<Value>)
    requires forall i :: 0 <= i < |vs| ==> Typed(f, vs[i])
    ensures |ns| == |vs|
    decreases f, 1, |vs|
  {
    if vs == [] then [] else [NormValue(f, vs[0])] + NormAll(f, vs[1..])
  }

  function NormSlot(f: Field, s: Slot): Slot
    requires TypedSlot(f, s)
    decreases f, 2
  {
    if f.htype.Repeated? then s.(vs := NormAll(f, s.vs))
    else if Absent(f, s) then DefaultSlot(f)
    else s.(v := NormValue(f, s.v))
  }

  /** The same message with the contents of absent fields replaced by their defaults. */
  function Norm(fs: seq<Field>, m: Message): (n: Message)
    requires TypedMessage(fs, m)
    ensures |n| == |fs|
    decreases fs
  {
    if fs == [] then [] else [NormSlot(fs[0], m[0])] + Norm(fs[1..], m[1..])
  }

  // ---------------------------------------------------------------- integers and strings

  lemma Signed64(n: int)
    requires FitsSigned(n, 8)
    ensures ToU64(n) < U64 && ToS64(ToU64(n)) == n
  {
  }

  lemma Signed32(n: int, size: nat)
    requires FitsSigned(n, size) && size != 8
    ensures FitsSigned(n, 8) && ToU64(n) < U64 && ToS32(ToU64(n)) == n
  {
    var u := ToU64(n);
    if n < 0 {
      assert u == (n + U32) + U32 * (U32 - 1);
      assert u % U32 == n + U32;
    }
  }

  lemma ZigZagInverse(n: int)
    requires FitsSigned(n, 8)
    ensures ZigZag(n) < U64 && UnZigZag(ZigZag(n)) == n
  {
  }

  lemma SmallerFits(n: int, size: nat)
    requires FitsSigned(n, size)
    ensures FitsSigned(n, 8)
  {
  }

  lemma {:induction false} LittleEndianInverse(n: nat, size: nat)
    requires n < Pow256(size)
    ensures FromLittleEndian(LittleEndian(n, size)) == n
    decreases size
  {
    if size > 0 {
      LittleEndianInverse(n / 256, size - 1);
      assert LittleEndian(n, size)[1..] == LittleEndian(n / 256, size - 1);
    }
  }

  lemma {:induction false} FixedRoundTrip(n: nat, size: nat, rest: Bytes)
    requires n < Pow256(size)
    ensures var p := Take(LittleEndian(n, size) + rest, size);
            p.Ok? && p.rest == rest && FromLittleEndian(p.val) == n
  {
    LittleEndianInverse(n, size);
    var e := LittleEndian(n, size);
    assert (e + rest)[..size] == e && (e + rest)[size..] == rest;
  }

  lemma {:induction false} IntRoundTrip(f: Field, v: Value, rest: Bytes)
    requires f.ltype.Varint? || f.ltype.UVarint? || f.ltype.SVarint?
    requires Typed(f, v)
    ensures DecScalar(f.ltype, f.dataSize, EncValue(f, v).value + rest) == Ok(v, rest)
  {
    hide EncVarint;
    hide DecodeVarint;
    match f.ltype
    case Varint =>
      if f.dataSize == 8 { Signed64(v.n); } else { Signed32(v.n, f.dataSize); }
      VarintRoundTrip(ToU64(v.n), rest);
    case UVarint => VarintRoundTrip(v.n, rest);
    case SVarint =>
      SmallerFits(v.n, f.dataSize);
      ZigZagInverse(v.n);
      VarintRoundTrip(ZigZag(v.n), rest);
  }

  /** Every scalar type reads back the value it wrote. */
  lemma {:induction false} ScalarRoundTrip(f: Field, v: Value, rest: Bytes)
    requires f.ltype.Packable() && Typed(f, v)
    ensures EncValue(f, v).Some?
    ensures DecScalar(f.ltype, f.dataSize, EncValue(f, v).value + rest) == Ok(v, rest)
  {
    hide DecScalar;
    if f.ltype.Fixed32? {
      assert Pow256(4) == U32;
      Fixed32RoundTrip(f, v, rest);
    } else if f.ltype.Fixed64? {
      assert Pow256(8) == U64;
      Fixed64RoundTrip(f, v, rest);
    } else {
      IntRoundTrip(f, v, rest);
    }
  }

  lemma {:induction false} Fixed32RoundTrip(f: Field, v: Value, rest: Bytes)
    requires f.ltype.Fixed32? && Typed(f, v) && Pow256(4) == U32
    ensures DecScalar(f.ltype, f.dataSize, EncValue(f, v).value + rest) == Ok(v, rest)
  {
    FixedRoundTrip(v.n, 4, rest);
  }

  lemma {:induction false} Fixed64RoundTrip(f: Field, v: Value, rest: Bytes)
    requires f.ltype.Fixed64? && Typed(f, v) && Pow256(8) == U64
    ensures DecScalar(f.ltype, f.dataSize, EncValue(f, v).value + rest) == Ok(v, rest)
  {
    FixedRoundTrip(v.n, 8, rest);
  }

  lemma TakeStringRoundTrip(b: Bytes, rest: Bytes)
    requires |b| < U32
    ensures TakeString(EncString(b) + rest) == Ok(b, rest)
    ensures DecodeVarint32(EncString(b) + rest) == Ok(|b|, b + rest)
    ensures Take(b + rest, |b|) == Ok(b, rest)
  {
    hide EncVarint;
    hide DecodeVarint32;
    assert EncString(b) + rest == EncVarint(|b|) + (b + rest);
    Varint32RoundTrip(|b|, b + rest);
    assert (b + rest)[..|b|] == b && (b + rest)[|b|..] == rest;
  }

  lemma {:induction false} StringRoundTrip(f: Field, v: Value, rest: Bytes)
    requires f.ltype.LBytes? || f.ltype.LString? || f.ltype.FixedLengthBytes?
    requires Typed(f, v) && Storable(f, v) && f.dataSize <= PB_SIZE_MAX
    ensures EncValue(f, v) == Some(EncString(NormValue(f, v).b))
    ensures DecString(f.ltype, f.dataSize, EncString(NormValue(f, v).b) + rest) == Ok(NormValue(f, v), rest)
  {
    hide EncString;
    hide DecodeVarint32;
    var b := NormValue(f, v).b;
    TakeStringRoundTrip(b, rest);
    if f.ltype.FixedLengthBytes? && |b| == 0 {
      assert b + rest == rest;
      assert b == Zeros(f.dataSize);
    }
  }

  /** A string is read back exactly when its buffer has room for the terminator the decoder adds. */
  lemma {:induction false} StringNeedsTerminator(f: Field, v: Value, rest: Bytes)
    requires f.ltype.LString? && Typed(f, v) && f.dataSize <= PB_SIZE_MAX
    ensures DecValue(f, v, EncValue(f, v).value + rest).Ok? <==> |CString(v.b, f.dataSize)| < f.dataSize
  {
    hide EncString;
    hide DecodeVarint32;
    TakeStringRoundTrip(CString(v.b, f.dataSize), rest);
  }

  // ---------------------------------------------------------------- one tagged field

  lemma {:induction false} FindItself(fs: seq<Field>, k: nat)
    requires k < |fs| && DistinctTags(fs)
    ensures FindField(fs, fs[k].tag) == k
  {
    if k > 0 {
      assert fs[0].tag != fs[k].tag;
      FindItself(fs[1..], k - 1);
    }
  }

  lemma SplitKey(tag: nat, wt: nat)
    requires wt < 8
    ensures (8 * tag + wt) / 8 == tag && (8 * tag + wt) % 8 == wt
  {
  }

  /** Reading a tag the table knows hands the rest to that field's decoder. */
  lemma {:induction false} DecKnown(fs: seq<Field>, p: Progress, k: nat, wt: nat, body: Bytes)
    requires |p.m| == |fs| && k < |fs| && wt < 8
    requires DistinctTags(fs) && 0 < fs[k].tag < 0x2000_0000
    ensures DecFields(fs, p, EncTag(wt, fs[k].tag) + body)
         == match DecSlot(fs[k], p.m[k], wt, body)
            case Fail => Fail
            case Ok(s, r) => DecFields(fs, Progress(Put(fs, p.m, k, s), Note(fs, p.seen, k)), r)
  {
    hide DecSlot;
    hide EncVarint;
    hide DecodeVarint32;
    hide SkipField;
    var t := 8 * fs[k].tag + wt;
    Varint32RoundTrip(t, body);
    SplitKey(fs[k].tag, wt);
    FindItself(fs, k);
  }

  // ---------------------------------------------------------------- progress while fields go by

  /** The message after the first `k` fields were read: they are there, the others are at default. */
  function Filled(fs: seq<Field>, m: Message, k: nat): (p: Message)
    requires TypedMessage(fs, m)
    ensures |p| == |fs|
  {
    seq(|fs|, j requires 0 <= j < |fs| => if j < k then NormSlot(fs[j], m[j]) else DefaultSlot(fs[j]))
  }

  /** The required fields noted while the first `k` fields go by. */
  function FirstRequired(fs: seq<Field>, k: nat): set<nat>
    requires k <= |fs|
  {
    if k == 0 then {} else Note(fs, FirstRequired(fs, k - 1), k - 1)
  }

  lemma {:induction false} FirstRequiredIs(fs: seq<Field>, k: nat)
    requires k <= |fs|
    ensures forall n: nat :: n in FirstRequired(fs, k) <==> n < RequiredBefore(fs, k)
  {
    if k > 0 {
      FirstRequiredIs(fs, k - 1);
    }
  }

  function After(fs: seq<Field>, m: Message, k: nat): (p: Progress)
    requires TypedMessage(fs, m) && k <= |fs|
    ensures |p.m| == |fs|
  {
    Progress(Filled(fs, m, k), FirstRequired(fs, k))
  }

  lemma {:induction false} NormAt(fs: seq<Field>, m: Message, j: nat)
    requires TypedMessage(fs, m) && j < |fs|
    ensures Norm(fs, m)[j] == NormSlot(fs[j], m[j])
  {
    if j > 0 {
      NormAt(fs[1..], m[1..], j - 1);
    }
  }

  lemma {:induction false} NothingFilled(fs: seq<Field>, m: Message)
    requires TypedMessage(fs, m)
    ensures Filled(fs, m, 0) == DefaultMessage(fs)
  {
    forall j | 0 <= j < |fs|
      ensures Filled(fs, m, 0)[j] == DefaultMessage(fs)[j]
    {
      DefaultAt(fs, j);
    }
  }

  lemma {:induction false} AllFilled(fs: seq<Field>, m: Message)
    requires TypedMessage(fs, m)
    ensures Filled(fs, m, |fs|) == Norm(fs, m)
  {
    forall j | 0 <= j < |fs|
      ensures Filled(fs, m, |fs|)[j] == Norm(fs, m)[j]
    {
      NormAt(fs, m, j);
    }
  }

  /** An absent field changes nothing; its default is already there. */
  lemma {:induction false} SkipAbsent(fs: seq<Field>, m: Message, k: nat)
    requires TypedMessage(fs, m) && k < |fs|
    requires NormSlot(fs[k], m[k]) == DefaultSlot(fs[k]) && !fs[k].htype.Required?
    ensures After(fs, m, k + 1) == After(fs, m, k)
  {
    hide NormSlot;
    hide DefaultSlot;
    assert Filled(fs, m, k + 1) == Filled(fs, m, k);
  }

  /** Storing a field that is not a union member touches that field alone. */
  lemma PutPlain(fs: seq<Field>, m: Message, k: nat, s: Slot)
    requires k < |fs| == |m| && !fs[k].htype.Oneof?
    ensures Put(fs, m, k, s) == m[k := s]
  {
  }

  lemma {:induction false} FilledStep(fs: seq<Field>, m: Message, k: nat)
    requires TypedMessage(fs, m) && k < |fs|
    ensures Filled(fs, m, k)[k := NormSlot(fs[k], m[k])] == Filled(fs, m, k + 1)
  {
  }

  /** Storing a set union member: the other members are unset in the message itself. */
  lemma {:induction false} PutMember(fs: seq<Field>, m: Message, k: nat)
    requires TypedMessage(fs, m) && OneMemberSet(fs, m) && k < |fs|
    requires fs[k].htype.Oneof? && m[k].has
    ensures Put(fs, Filled(fs, m, k), k, NormSlot(fs[k], m[k])) == Filled(fs, m, k + 1)
  {
    forall j | 0 <= j < |fs| && j != k && SameUnion(fs, k, j)
      ensures NormSlot(fs[j], m[j]) == DefaultSlot(fs[j])
    {
      assert Absent(fs[j], m[j]);
    }
  }

  // ---------------------------------------------------------------- absent means default

  lemma {:induction false} AllAbsentIsDefault(fs: seq<Field>, m: Message)
    requires TypedMessage(fs, m) && AllAbsent(fs, m)
    ensures Norm(fs, m) == DefaultMessage(fs)
  {
    forall j | 0 <= j < |fs|
      ensures Norm(fs, m)[j] == DefaultMessage(fs)[j]
    {
      NormAt(fs, m, j);
      DefaultAt(fs, j);
      assert Absent(fs[j], m[j]);
    }
  }

  /** A proto3 singular field the encoder leaves out holds exactly what the decoder's default puts
      there, so leaving it out loses nothing. */
  lemma {:induction false} ZeroIsDefault(f: Field, v: Value)
    requires f.default.None? && Typed(f, v) && IsZero(f, v)
    ensures NormValue(f, v) == DefaultValue(f)
  {
    if f.ltype.LSubmessage? {
      AllAbsentIsDefault(f.sub, v.m);
    } else if f.ltype.FixedLengthBytes? {
      assert v.b == Zeros(f.dataSize);
    }
  }

  // ---------------------------------------------------------------- the round trip

  lemma {:induction false} ValueRoundTrip(f: Field, cur: Value, v: Value, rest: Bytes)
    requires WellFormedField(f) && Typed(f, v) && Storable(f, v)
    requires f.ltype.LSubmessage? ==> BaseMessage(f, cur) == DefaultMessage(f.sub)
    ensures EncValue(f, v).Some?
    ensures DecValue(f, cur, EncValue(f, v).value + rest) == Ok(NormValue(f, v), rest)
    decreases f, 0
  {
    hide DecScalar;
    hide DecString;
    hide EncString;
    if f.ltype.Packable() {
      ScalarRoundTrip(f, v, rest);
    } else if !f.ltype.LSubmessage? {
      StringRoundTrip(f, v, rest);
    } else {
      var e := EncMessage(f.sub, v.m).value;
      TakeStringRoundTrip(e, rest);
      MessageRoundTrip(f.sub, v.m);
    }
  }

  /** A packed chunk appends its values. */
  lemma {:induction false} PackedRoundTrip(f: Field, vs: seq<Value>, ws: seq<Value>)
    requires f.ltype.Packable() && |vs| + |ws| <= f.arraySize
    requires forall i :: 0 <= i < |ws| ==> Typed(f, ws[i])
    ensures EncElements(f, [], ws).Some?
    ensures DecPacked(f, vs, EncElements(f, [], ws).value) == Some(vs + ws)
    decreases |ws|
  {
    hide DecScalar;
    if ws == [] {
      assert vs + ws == vs;
    } else {
      ScalarRoundTrip(f, ws[0], []);
      PackedRoundTrip(f, vs + [ws[0]], ws[1..]);
      var e, tail := EncValue(f, ws[0]).value, EncElements(f, [], ws[1..]).value;
      assert EncElements(f, [], ws).value == e + tail by { assert [] + e == e; }
      ScalarRoundTrip(f, ws[0], tail);
      assert vs + [ws[0]] + ws[1..] == vs + ws;
      assert e + tail != [] by { ScalarNonempty(f, ws[0]); }
    }
  }

  lemma {:induction false} ScalarNonempty(f: Field, v: Value)
    requires f.ltype.Packable() && Typed(f, v)
    ensures EncValue(f, v).value != []
  {
  }

  lemma {:induction false} NormAllScalar(f: Field, vs: seq<Value>)
    requires f.ltype.Packable()
    requires forall i :: 0 <= i < |vs| ==> Typed(f, vs[i])
    ensures NormAll(f, vs) == vs
    decreases |vs|
  {
    if vs != [] {
      NormAllScalar(f, vs[1..]);
    }
  }

  function Appended(p: Progress, k: nat, vs: seq<Value>): (p': Progress)
    requires k < |p.m|
    ensures |p'.m| == |p.m|
  {
    p.(m := p.m[k := p.m[k].(vs := p.m[k].vs + vs)])
  }

  lemma AppendedTwice(p: Progress, k: nat, v: Value, vs: seq<Value>)
    requires k < |p.m|
    ensures Appended(Appended(p, k, [v]), k, vs) == Appended(p, k, [v] + vs)
  {
    assert p.m[k].vs + [v] + vs == p.m[k].vs + ([v] + vs);
    var s, s' := p.m[k].(vs := p.m[k].vs + [v]), p.m[k].(vs := p.m[k].vs + ([v] + vs));
    assert p.m[k := s][k := s'] == p.m[k := s'];
  }

  lemma AppendedNothing(p: Progress, k: nat)
    requires k < |p.m|
    ensures Appended(p, k, []) == p
  {
    assert p.m[k].vs + [] == p.m[k].vs;
    assert p.m[k := p.m[k]] == p.m;
  }

  lemma {:induction false} ElementRoundTrip(fs: seq<Field>, p: Progress, k: nat, v: Value, rest: Bytes)
    requires |p.m| == |fs| && k < |fs| && WellFormed(fs)
    requires fs[k].htype.Repeated? && !fs[k].ltype.Packable()
    requires Typed(fs[k], v) && Storable(fs[k], v) && |p.m[k].vs| < fs[k].arraySize
    ensures EncValue(fs[k], v).Some?
    ensures DecFields(fs, p, EncTag(WireType(fs[k].ltype), fs[k].tag) + (EncValue(fs[k], v).value + rest))
         == DecFields(fs, Appended(p, k, [NormValue(fs[k], v)]), rest)
    decreases fs, 0
  {
    hide DecValue;
    hide DecFields;
    hide EncTag;
    assert WellFormedField(fs[k]);
    ValueRoundTrip(fs[k], Num(0), v, rest);
    DecKnown(fs, p, k, WireType(fs[k].ltype), EncValue(fs[k], v).value + rest);
    PutPlain(fs, p.m, k, p.m[k].(vs := p.m[k].vs + [NormValue(fs[k], v)]));
  }

  lemma Regrouped(a: Bytes, b: Bytes, c: Bytes, d: Bytes)
    ensures a + b + c + d == a + (b + (c + d))
  {
  }

  /** Elements that carry a tag each are appended one by one. */
  lemma {:induction false} ElementsRoundTrip(fs: seq<Field>, p: Progress, k: nat, vs: seq<Value>, rest: Bytes)
    requires |p.m| == |fs| && k < |fs| && WellFormed(fs)
    requires fs[k].htype.Repeated? && !fs[k].ltype.Packable()
    requires forall i :: 0 <= i < |vs| ==> Typed(fs[k], vs[i]) && Storable(fs[k], vs[i])
    requires |p.m[k].vs| + |vs| <= fs[k].arraySize
    ensures var e := EncElements(fs[k], EncTag(WireType(fs[k].ltype), fs[k].tag), vs);
            && e.Some?
            && DecFields(fs, p, e.value + rest) == DecFields(fs, Appended(p, k, NormAll(fs[k], vs)), rest)
    decreases fs, 1, |vs|
  {
    hide DecFields;
    hide EncTag;
    hide EncValue;
    hide NormValue;
    hide Storable;
    hide Typed;
    hide WellFormed;
    var f := fs[k];
    var tag := EncTag(WireType(f.ltype), f.tag);
    if vs == [] {
      assert [] + rest == rest;
      AppendedNothing(p, k);
    } else {
      var n := NormValue(f, vs[0]);
      ElementsRoundTrip(fs, Appended(p, k, [n]), k, vs[1..], rest);
      var tail := EncElements(f, tag, vs[1..]).value;
      ElementRoundTrip(fs, p, k, vs[0], tail + rest);
      Regrouped(tag, EncValue(f, vs[0]).value, tail, rest);
      AppendedTwice(p, k, n, NormAll(f, vs[1..]));
    }
  }

  lemma {:induction false} ArrayRoundTrip(fs: seq<Field>, m: Message, k: nat, rest: Bytes)
    requires WellFormed(fs) && TypedMessage(fs, m) && StorableMessage(fs, m) && k < |fs|
    requires fs[k].htype.Repeated?
    ensures EncSlot(fs[k], m[k]).Some?
    ensures DecFields(fs, After(fs, m, k), EncSlot(fs[k], m[k]).value + rest)
         == DecFields(fs, After(fs, m, k + 1), rest)
    decreases fs, 2
  {
    hide DecFields;
    hide DecPacked;
    hide EncString;
    hide EncTag;
    var f, s, p := fs[k], m[k], After(fs, m, k);
    assert TypedSlot(f, s) && StorableSlot(f, s) && WellFormedField(f);
    assert p.m[k] == DefaultSlot(f);
    assert NormSlot(f, s) == p.m[k].(vs := [] + NormAll(f, s.vs));
    FilledStep(fs, m, k);
    if s.vs == [] {
      assert [] + rest == rest;
      assert NormAll(f, s.vs) == [];
      SkipAbsent(fs, m, k);
    } else if f.ltype.Packable() {
      PackedRoundTrip(f, [], s.vs);
      assert [] + s.vs == s.vs;
      NormAllScalar(f, s.vs);
      var chunk := EncElements(f, [], s.vs).value;
      TakeStringRoundTrip(chunk, rest);
      assert EncTag(WT_STRING, f.tag) + EncString(chunk) + rest == EncTag(WT_STRING, f.tag) + (EncString(chunk) + rest);
      DecKnown(fs, p, k, WT_STRING, EncString(chunk) + rest);
      PutPlain(fs, p.m, k, NormSlot(f, s));
    } else {
      ElementsRoundTrip(fs, p, k, s.vs, rest);
    }
  }

  lemma {:induction false} SingleRoundTrip(fs: seq<Field>, m: Message, k: nat, rest: Bytes)
    requires WellFormed(fs) && TypedMessage(fs, m) && StorableMessage(fs, m) && k < |fs|
    requires !fs[k].htype.Repeated? && !Absent(fs[k], m[k])
    ensures EncSlot(fs[k], m[k]).Some?
    ensures DecFields(fs, After(fs, m, k), EncSlot(fs[k], m[k]).value + rest)
         == DecFields(fs, After(fs, m, k + 1), rest)
    decreases fs, 1
  {
    hide DecFields;
    hide DecValue;
    hide EncTag;
    var f, s, p := fs[k], m[k], After(fs, m, k);
    assert TypedSlot(f, s) && StorableSlot(f, s) && WellFormedField(f);
    assert p.m[k] == DefaultSlot(f);
    ValueRoundTrip(f, DefaultValue(f), s.v, rest);
    var tag, e := EncTag(WireType(f.ltype), f.tag), EncValue(f, s.v).value;
    assert tag + e + rest == tag + (e + rest);
    DecKnown(fs, p, k, WireType(f.ltype), e + rest);
    assert s.has;
    assert NormSlot(f, s) == p.m[k].(has := true, v := NormValue(f, s.v));
    if f.htype.Oneof? {
      PutMember(fs, m, k);
    } else {
      PutPlain(fs, p.m, k, NormSlot(f, s));
      FilledStep(fs, m, k);
    }
  }

  lemma {:induction false} FieldRoundTrip(fs: seq<Field>, m: Message, k: nat, rest: Bytes)
    requires WellFormed(fs) && TypedMessage(fs, m) && StorableMessage(fs, m) && k < |fs|
    ensures EncSlot(fs[k], m[k]).Some?
    ensures DecFields(fs, After(fs, m, k), EncSlot(fs[k], m[k]).value + rest)
         == DecFields(fs, After(fs, m, k + 1), rest)
    decreases fs, 3
  {
    hide DecFields;
    assert TypedSlot(fs[k], m[k]);
    if fs[k].htype.Repeated? {
      ArrayRoundTrip(fs, m, k, rest);
    } else if Absent(fs[k], m[k]) {
      assert [] + rest == rest;
      SkipAbsent(fs, m, k);
    } else {
      SingleRoundTrip(fs, m, k, rest);
    }
  }

  lemma {:induction false} SuffixRoundTrip(fs: seq<Field>, m: Message, k: nat)
    requires WellFormed(fs) && TypedMessage(fs, m) && StorableMessage(fs, m) && k <= |fs|
    requires TypedMessage(fs[k..], m[k..])
    ensures var e := EncMessage(fs[k..], m[k..]);
            e.Some? && DecFields(fs, After(fs, m, k), e.value) == Ok(After(fs, m, |fs|), [])
    decreases fs, 4, |fs| - k
  {
    hide EncSlot;
    if k < |fs| {
      assert fs[k..][1..] == fs[k + 1..] && m[k..][1..] == m[k + 1..];
      SuffixRoundTrip(fs, m, k + 1);
      FieldRoundTrip(fs, m, k, EncMessage(fs[k + 1..], m[k + 1..]).value);
    }
  }

  /** Decoding an encoded message returns it, up to the contents of absent fields, and consumes
      every byte. */
  lemma {:induction false} MessageRoundTrip(fs: seq<Field>, m: Message)
    requires WellFormed(fs) && TypedMessage(fs, m) && StorableMessage(fs, m)
    ensures EncMessage(fs, m).Some?
    ensures Decode(fs, EncMessage(fs, m).value) == Ok(Norm(fs, m), [])
    decreases fs, 5
  {
    hide DecFields;
    hide EncMessage;
    assert fs[0..] == fs && m[0..] == m;
    SuffixRoundTrip(fs, m, 0);
    NothingFilled(fs, m);
    AllFilled(fs, m);
    FirstRequiredIs(fs, |fs|);
  }
}
