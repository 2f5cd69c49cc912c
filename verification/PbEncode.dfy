/** The encoder as it runs (pb_encode.c): output streams that count or fill a buffer. */
module PbEncode {
  import opened Octets
  import opened PbVarint
  import opened PbModel
  import opened PbParse
  import opened PbCommon

  /** pb_ostream_t. A stream without a buffer only counts (PB_OSTREAM_SIZING). */
  class OStream {
    const buf: array?<Byte>
    var state: nat
    var maxSize: nat
    var bytesWritten: nat
    /** Everything written through this stream. */
    ghost var out: Bytes

    constructor Sizing()
      ensures buf == null && out == [] && Valid()
    {
      buf, state, maxSize, bytesWritten, out := null, 0, 0, 0, [];
    }

    /** A stream over memory starting at `start`; substreams share their parent's buffer. */
    constructor OnBuffer(b: array<Byte>, start: nat, size: nat)
      requires start + size <= b.Length
      ensures buf == b && state == start && maxSize == size && out == [] && Valid()
    {
      buf, state, maxSize, bytesWritten, out := b, start, size, 0, [];
    }

    ghost predicate Valid()
      reads this, Memory()
    {
      && bytesWritten == |out|
      && (buf != null ==>
            && bytesWritten <= maxSize
            && |out| <= state <= state + (maxSize - bytesWritten) <= buf.Length
            && buf[state - |out|..state] == out)
    }

    ghost function Memory(): set<object>
    {
      if buf == null then {} else {buf}
    }

    /** Room for `count` more bytes; a counting stream always has room. */
    ghost predicate Fits(count: nat)
      reads this
    {
      buf == null || bytesWritten + count <= maxSize
    }

    /** What every writer promises: it succeeds iff there is something to write and it fits, it appends
        exactly that, and it leaves the memory before its position alone. */
    twostate predicate Wrote(ok: bool, new e: Option<Bytes>)
      reads this, Memory()
    {
      && Valid()
      && maxSize == old(maxSize)
      && (ok <==> e.Some? && old(Fits(|e.value|)))
      && (ok ==> out == old(out) + e.value)
      && (buf != null ==>
            && old(state) <= state
            && state - bytesWritten == old(state) - old(bytesWritten)
            && forall j :: 0 <= j < old(state) && j < buf.Length ==> buf[j] == old(buf[j]))
    }

    /** buf_write */
    method BufWrite(data: Bytes)
      requires buf != null && state + |data| <= buf.Length
      modifies this`state, buf
      ensures state == old(state) + |data|
      ensures buf[old(state)..state] == data
      ensures forall j :: 0 <= j < old(state) ==> buf[j] == old(buf[j])
    {
      var dest := state;
      state := dest + |data|;
      var i := 0;
      while i < |data|
        invariant 0 <= i <= |data|
        invariant buf[dest..dest + i] == data[..i]
        invariant forall j :: 0 <= j < dest ==> buf[j] == old(buf[j])
        modifies buf
      {
        buf[dest + i] := data[i];
        i := i + 1;
      }
    }

    /** pb_write. A counting stream never looks at `data`. */
    method Write(data: Bytes, count: nat, ghost bytes: Bytes) returns (ok: bool)
      requires Valid() && |bytes| == count && (buf != null ==> data == bytes)
      modifies this, Memory()
      ensures Wrote(ok, Some(bytes))
    {
      if buf != null {
        if bytesWritten + count > maxSize {
          return false;
        }
        BufWrite(data);
      }
      bytesWritten := bytesWritten + count;
      out := out + bytes;
      return true;
    }

    /** The position a substream over the same memory reached becomes this stream's. */
    method Absorb(substream: OStream)
      requires Valid() && substream.Valid() && buf != null && substream.buf == buf && substream != this
      requires substream.state - |substream.out| == state
      requires bytesWritten + substream.maxSize <= maxSize
      modifies this
      ensures Valid() && maxSize == old(maxSize)
      ensures out == old(out) + substream.out && state == old(state) + |substream.out|
    {
      ghost var start := state - |out|;
      assert buf[start..substream.state] == buf[start..state] + buf[state..substream.state];
      bytesWritten := bytesWritten + substream.bytesWritten;
      state := substream.state;
      out := out + substream.out;
    }
  }

  // ---------------------------------------------------------------- scalars

  /** Peeling one group off what is left to write. */
  lemma {:induction false} PeelGroup(whole: Bytes, done: Bytes, w: nat)
    requires w > 0 && whole == done + EncVarint(w)
    ensures if w >= 128 then whole == done + [w % 128 + 128] + EncVarint(w / 128)
            else whole == done + [w % 128] && w / 128 == 0
    ensures w % 128 + 128 < 256
  {
  }

  /** pb_encode_varint */
  method EncodeVarint(s: OStream, value: nat) returns (ok: bool)
    requires s.Valid() && value < U64
    modifies s, s.Memory()
    ensures s.Wrote(ok, Some(EncVarint(value)))
  {
    if value < 128 {
      ok := s.Write([value], 1, [value]);
      return;
    }
    var buffer := FillVarint(value);
    ok := s.Write(buffer, |buffer|, buffer);
  }

  /** The loop of pb_encode_varint: seven bits at a time, then the last continuation bit is unset. */
  method FillVarint(value: nat) returns (bytes: Bytes)
    requires 128 <= value < U64
    ensures bytes == EncVarint(value)
  {
    hide EncVarint;
    hide Pow128;
    var buffer := new Byte[10];
    var i: nat, v: nat := 0, value;
    Ten(value);
    while v != 0
      invariant 0 <= i <= 10 && v < Pow128(10 - i)
      invariant v != 0 ==> EncVarint(value) == buffer[..i] + EncVarint(v)
      invariant v == 0 ==> i > 0 && buffer[i - 1] >= 128 && EncVarint(value) == buffer[..i - 1] + [buffer[i - 1] - 128]
      decreases v
    {
      ghost var done := buffer[..i];
      Shrinks(v, 10 - i);
      PeelGroup(EncVarint(value), done, v);
      buffer[i] := v % 128 + 128;
      assert buffer[..i] == done;
      assert buffer[..i + 1] == done + [v % 128 + 128];
      v := v / 128;
      i := i + 1;
    }
    buffer[i - 1] := buffer[i - 1] - 128;
    return buffer[..i];
  }

  lemma Ten(value: nat)
    requires value < U64
    ensures value < Pow128(10)
  {
  }

  lemma Shrinks(v: nat, n: nat)
    requires 0 < v < Pow128(n)
    ensures n > 0 && v / 128 < Pow128(n - 1)
  {
  }

  /** pb_encode_svarint */
  method EncodeSvarint(s: OStream, value: int) returns (ok: bool)
    requires s.Valid() && FitsSigned(value, 8)
    modifies s, s.Memory()
    ensures s.Wrote(ok, Some(EncVarint(ZigZag(value))))
  {
    var zigzagged := if value < 0 then U64 - 1 - (2 * (value + U64)) % U64 else 2 * value;
    assert zigzagged == ZigZag(value);
    ok := EncodeVarint(s, zigzagged);
  }

  /** pb_encode_fixed32 */
  method EncodeFixed32(s: OStream, val: nat) returns (ok: bool)
    requires s.Valid() && val < U32
    modifies s, s.Memory()
    ensures s.Wrote(ok, Some(LittleEndian(val, 4)))
  {
    var bytes := [val % 256, val / 0x100 % 256, val / 0x1_0000 % 256, val / 0x100_0000 % 256];
    FourBytes(val);
    ok := s.Write(bytes, 4, bytes);
  }

  lemma {:induction false} FourBytes(n: nat)
    ensures LittleEndian(n, 4) == [n % 256, n / 0x100 % 256, n / 0x1_0000 % 256, n / 0x100_0000 % 256]
  {
    var a, b, c := n / 0x100, n / 0x1_0000, n / 0x100_0000;
    assert a / 256 == b && b / 256 == c;
    assert LittleEndian(c / 256, 0) == [];
    assert LittleEndian(c, 1) == [c % 256];
    assert LittleEndian(b, 2) == [b % 256, c % 256];
    assert LittleEndian(a, 3) == [a % 256, b % 256, c % 256];
  }

  /** pb_encode_fixed64 */
  method EncodeFixed64(s: OStream, val: nat) returns (ok: bool)
    requires s.Valid() && val < U64
    modifies s, s.Memory()
    ensures s.Wrote(ok, Some(LittleEndian(val, 8)))
  {
    var high := val / U32;
    var bytes := [val % 256, val / 0x100 % 256, val / 0x1_0000 % 256, val / 0x100_0000 % 256,
                  high % 256, high / 0x100 % 256, high / 0x1_0000 % 256, high / 0x100_0000 % 256];
    FourBytes(val);
    FourBytes(high);
    EightBytes(val);
    assert bytes == LittleEndian(val, 4) + LittleEndian(high, 4);
    ok := s.Write(bytes, 8, bytes);
  }

  lemma ShiftChain(n: nat)
    ensures n / 0x100 / 256 == n / 0x1_0000 && n / 0x1_0000 / 256 == n / 0x100_0000 && n / 0x100_0000 / 256 == n / U32
  {
  }

  lemma PeelByte(n: nat, next: nat, size: nat)
    requires next == n / 256 && size > 0
    ensures LittleEndian(n, size) == [n % 256] + LittleEndian(next, size - 1)
  {
  }

  lemma {:induction false} EightBytes(n: nat)
    ensures LittleEndian(n, 8) == LittleEndian(n, 4) + LittleEndian(n / U32, 4)
  {
    hide LittleEndian;
    var a, b, c, d := n / 0x100, n / 0x1_0000, n / 0x100_0000, n / U32;
    ShiftChain(n);
    FourBytes(n);
    PeelByte(n, a, 8);
    PeelByte(a, b, 7);
    PeelByte(b, c, 6);
    PeelByte(c, d, 5);
  }

  /** pb_encode_tag */
  method EncodeTag(s: OStream, wireType: nat, tag: nat) returns (ok: bool)
    requires s.Valid() && wireType < 8 && tag < U32
    modifies s, s.Memory()
    ensures s.Wrote(ok, Some(EncTag(wireType, tag)))
  {
    ok := EncodeVarint(s, 8 * tag + wireType);
  }

  /** pb_encode_string */
  method EncodeString(s: OStream, data: Bytes) returns (ok: bool)
    requires s.Valid() && |data| < U64
    modifies s, s.Memory()
    ensures s.Wrote(ok, Some(EncString(data)))
  {
    ok := EncodeVarint(s, |data|);
    if ok {
      ok := s.Write(data, |data|, data);
    }
  }

  /** The strnlen loop of pb_enc_string. */
  method StringLength(b: Bytes, maxSize: nat) returns (size: nat)
    ensures size == |CString(b, maxSize)|
  {
    size := 0;
    while size < maxSize && size < |b| && b[size] != 0
      invariant size <= maxSize && size <= |b|
      invariant |CString(b, maxSize)| == size + |CString(b[size..], maxSize - size)|
    {
      assert b[size..][1..] == b[size + 1..];
      size := size + 1;
    }
  }

  // ---------------------------------------------------------------- fields

  /** pb_enc_varint, pb_enc_uvarint, pb_enc_svarint, pb_enc_fixed32, pb_enc_fixed64 */
  method EncodeScalar(s: OStream, f: Field, v: Value) returns (ok: bool)
    requires s.Valid() && f.ltype.Packable() && Typed(f, v)
    modifies s, s.Memory()
    ensures s.Wrote(ok, EncValue(f, v))
  {
    hide EncVarint;
    hide LittleEndian;
    if f.ltype.Varint? {
      ok := EncodeVarint(s, ToU64(v.n));
    } else if f.ltype.UVarint? {
      ok := EncodeVarint(s, v.n);
    } else if f.ltype.SVarint? {
      ok := EncodeSvarint(s, v.n);
    } else if f.ltype.Fixed32? {
      ok := EncodeFixed32(s, v.n);
    } else {
      ok := EncodeFixed64(s, v.n);
    }
  }

  /** pb_enc_bytes, pb_enc_string, pb_enc_fixed_length_bytes */
  method EncodeText(s: OStream, f: Field, v: Value) returns (ok: bool)
    requires s.Valid() && !f.ltype.Packable() && !f.ltype.LSubmessage? && Typed(f, v)
    requires f.dataSize <= PB_SIZE_MAX
    modifies s, s.Memory()
    ensures s.Wrote(ok, EncValue(f, v))
  {
    hide EncString;
    if f.ltype.LBytes? && |v.b| + BYTES_OFFSET > f.dataSize {
      return false;
    }
    var data := v.b;
    if f.ltype.LString? {
      var size := StringLength(v.b, f.dataSize);
      data := v.b[..size];
    }
    ok := EncodeString(s, data);
  }

  /** What the tables must satisfy all the way down: they fit pb_field_t's 32-bit members, their
      submessages shorter than any length C can count. */
  ghost predicate Encodable(fs: seq<Field>)
    decreases fs
  {
    && HasLayout(fs)
    && forall i :: 0 <= i < |fs| ==> EncodableField(fs[i])
  }

  ghost predicate EncodableField(f: Field)
    decreases f
  {
    f.tag <= PB_SIZE_MAX && f.dataSize <= PB_SIZE_MAX && Counted(f) && Encodable(f.sub)
  }

  lemma {:induction false} EncodableHasLayout(fs: seq<Field>)
    requires Encodable(fs)
    ensures HasLayout(fs)
  {
  }

  /** The sizes involved stay below the 64-bit size_t. */
  predicate Countable(e: Option<Bytes>)
  {
    e.Some? ==> |e.value| < U64
  }

  /** The field encoders (PB_ENCODERS). */
  method EncodeValue(s: OStream, f: Field, v: Value) returns (ok: bool)
    requires s.Valid() && Typed(f, v) && EncodableField(f) && CountableValue(f, v)
    modifies s, s.Memory()
    ensures s.Wrote(ok, EncValue(f, v))
    decreases f, 1
  {
    if f.ltype.Packable() {
      ok := EncodeScalar(s, f, v);
    } else if !f.ltype.LSubmessage? {
      ok := EncodeText(s, f, v);
    } else {
      ok := EncodeSubmessage(s, f.sub, v.m);
    }
  }

  predicate CountableValue(f: Field, v: Value)
    requires Typed(f, v)
    decreases f, 0
  {
    f.ltype.LSubmessage? ==> Countable(EncMessage(f.sub, v.m)) && CountableMessage(f.sub, v.m)
  }

  predicate CountableSlot(f: Field, s: Slot)
    requires TypedSlot(f, s)
    decreases f, 1
  {
    if f.htype.Repeated? then
      && (forall i :: 0 <= i < |s.vs| ==> CountableValue(f, s.vs[i]))
      && Countable(EncElements(f, [], s.vs))
    else CountableValue(f, s.v)
  }

  predicate CountableMessage(fs: seq<Field>, m: Message)
    requires TypedMessage(fs, m)
    decreases fs
  {
    forall i :: 0 <= i < |fs| ==> CountableSlot(fs[i], m[i])
  }

  /** pb_encode_submessage: a counting pass, the length, and a writing pass through a substream that
      may write no more than was counted. */
  method EncodeSubmessage(s: OStream, fs: seq<Field>, m: Message) returns (ok: bool)
    requires s.Valid() && TypedMessage(fs, m) && Encodable(fs)
    requires CountableMessage(fs, m) && Countable(EncMessage(fs, m))
    modifies s, s.Memory()
    ensures s.Wrote(ok, match EncMessage(fs, m) case None => None case Some(e) => Some(EncString(e)))
    decreases fs, 4
  {
    hide EncMessage;
    hide EncVarint;
    hide TypedMessage;
    hide CountableMessage;
    hide Encodable;
    var counter := new OStream.Sizing();
    ok := Encode(counter, fs, m);
    if !ok {
      return;
    }
    var size := counter.bytesWritten;
    ok := EncodeVarint(s, size);
    if !ok {
      return;
    }
    ghost var e := EncMessage(fs, m).value;
    if s.buf == null {
      ok := s.Write([], size, e);
      return;
    }
    if s.bytesWritten + size > s.maxSize {
      return false;
    }
    ok := WriteThrough(s, fs, m, size);
  }

  /** The writing pass. */
  method WriteThrough(s: OStream, fs: seq<Field>, m: Message, size: nat) returns (ok: bool)
    requires s.Valid() && TypedMessage(fs, m) && Encodable(fs) && CountableMessage(fs, m)
    requires s.buf != null && s.Fits(size)
    requires EncMessage(fs, m).Some? && |EncMessage(fs, m).value| == size
    modifies s, s.Memory()
    ensures ok && s.Wrote(ok, EncMessage(fs, m))
    decreases fs, 3
  {
    hide EncMessage;
    hide TypedMessage;
    hide CountableMessage;
    hide Encodable;
    var substream := new OStream.OnBuffer(s.buf, s.state, size);
    ok := Encode(substream, fs, m);
    Untouched(s);
    s.Absorb(substream);
    // "submsg size changed" cannot happen: both passes wrote EncMessage(fs, m).
    assert substream.bytesWritten == size;
  }

  /** Writing past a stream's position leaves the stream as it was. */
  twostate lemma Untouched(s: OStream)
    requires old(s.Valid()) && s.buf != null && unchanged(s)
    requires forall j :: 0 <= j < s.state ==> s.buf[j] == old(s.buf[j])
    ensures s.Valid()
  {
    assert s.buf[s.state - |s.out|..s.state] == old(s.buf[s.state - |s.out|..s.state]);
  }

  // ---------------------------------------------------------------- one write after another

  /** A stream at one moment. */
  datatype Shot = Shot(hasBuf: bool, mem: Bytes, state: nat, maxSize: nat, out: Bytes)

  ghost function Now(s: OStream): Shot
    reads s, s.Memory()
  {
    Shot(s.buf != null, if s.buf == null then [] else s.buf[..], s.state, s.maxSize, s.out)
  }

  /** What `Wrote` says of two moments. */
  ghost predicate Went(a: Shot, b: Shot, ok: bool, e: Option<Bytes>)
  {
    && b.hasBuf == a.hasBuf && b.maxSize == a.maxSize && |b.mem| == |a.mem|
    && (ok <==> e.Some? && (a.hasBuf ==> |a.out| + |e.value| <= a.maxSize))
    && (ok ==> b.out == a.out + e.value)
    && (a.hasBuf ==>
          && a.state <= b.state && b.state - |b.out| == a.state - |a.out|
          && forall j :: 0 <= j < a.state && j < |a.mem| ==> b.mem[j] == a.mem[j])
  }

  twostate lemma WroteIsWent(s: OStream, new ok: bool, new e: Option<Bytes>)
    ensures old(s.Valid()) ==> (s.Wrote(ok, e) <==> s.Valid() && Went(old(Now(s)), Now(s), ok, e))
  {
    if s.buf != null {
      assert forall j :: 0 <= j < s.buf.Length ==> Now(s).mem[j] == s.buf[j] && old(Now(s)).mem[j] == old(s.buf[j]);
    }
  }

  lemma WentThen(a: Shot, b: Shot, c: Shot, d: Bytes, ok: bool, e: Option<Bytes>)
    requires Went(a, b, true, Some(d)) && Went(b, c, ok, e)
    ensures Went(a, c, ok, Cat(Some(d), e))
  {
  }

  lemma WentNowhere(s: OStream)
    requires s.Valid()
    ensures Went(Now(s), Now(s), true, Some([]))
  {
    assert s.out + [] == s.out;
  }

  /** What did not fit does not fit with more behind it. */
  lemma WentFailed(a: Shot, b: Shot, e: Option<Bytes>, more: Option<Bytes>)
    requires Went(a, b, false, e)
    ensures Went(a, b, false, Cat(e, more))
  {
  }

  // ---------------------------------------------------------------- arrays

  /** The bytes before each element: a tag, unless the array is packed. */
  function Prefix(f: Field): Bytes
  {
    if f.ltype.Packable() then [] else EncTag(WireType(f.ltype), f.tag)
  }

  function EncElement(f: Field, v: Value): Option<Bytes>
    requires Typed(f, v)
  {
    Cat(Some(Prefix(f)), EncValue(f, v))
  }

  /** One round of the loops in encode_array. */
  method EncodeElement(s: OStream, f: Field, v: Value) returns (ok: bool)
    requires s.Valid() && Typed(f, v) && EncodableField(f) && CountableValue(f, v)
    modifies s, s.Memory()
    ensures s.Wrote(ok, EncElement(f, v))
    decreases f, 2
  {
    hide EncValue;
    hide EncTag;
    hide Typed;
    hide CountableValue;
    if !f.ltype.Packable() {
      ok := EncodeTag(s, WireType(f.ltype), f.tag);
      if !ok {
        return;
      }
    } else {
      assert s.out + [] == s.out;
    }
    ok := EncodeValue(s, f, v);
  }

  /** An element behind those already written. */
  method EncodeNextElement(s: OStream, f: Field, v: Value, ghost start: Shot, ghost done: Bytes) returns (ok: bool)
    requires s.Valid() && Typed(f, v) && EncodableField(f) && CountableValue(f, v)
    requires Went(start, Now(s), true, Some(done))
    modifies s, s.Memory()
    ensures s.Valid() && Went(start, Now(s), ok, Cat(Some(done), EncElement(f, v)))
    decreases f, 3
  {
    hide EncElement;
    hide Typed;
    hide CountableValue;
    hide EncodableField;
    ghost var before := Now(s);
    ok := EncodeElement(s, f, v);
    WroteIsWent(s, ok, EncElement(f, v));
    WentThen(start, before, Now(s), done, ok, EncElement(f, v));
  }

  lemma {:induction false} ElementsCons(f: Field, vs: seq<Value>)
    requires vs != [] && forall i :: 0 <= i < |vs| ==> Typed(f, vs[i])
    ensures EncElements(f, Prefix(f), vs) == Cat(EncElement(f, vs[0]), EncElements(f, Prefix(f), vs[1..]))
  {
  }

  /** The loops of encode_array over the elements. */
  method EncodeElements(s: OStream, f: Field, vs: seq<Value>) returns (ok: bool)
    requires s.Valid() && EncodableField(f)
    requires forall i :: 0 <= i < |vs| ==> Typed(f, vs[i]) && CountableValue(f, vs[i])
    modifies s, s.Memory()
    ensures s.Wrote(ok, EncElements(f, Prefix(f), vs))
    decreases f, 4
  {
    hide EncElements;
    hide EncElement;
    hide Prefix;
    hide Typed;
    hide CountableValue;
    hide EncodableField;
    hide OStream.Wrote;
    hide OStream.Valid;
    hide Went;
    ghost var total := EncElements(f, Prefix(f), vs);
    ghost var done: Bytes, start := [], Now(s);
    var i := 0;
    assert vs[0..] == vs;
    PrependNothing(total);
    WentNowhere(s);
    while i < |vs|
      invariant 0 <= i <= |vs| && s.Valid()
      invariant Went(start, Now(s), true, Some(done))
      invariant total == Cat(Some(done), EncElements(f, Prefix(f), vs[i..]))
    {
      assert vs[i..][0] == vs[i] && vs[i..][1..] == vs[i + 1..];
      ElementsCons(f, vs[i..]);
      ghost var e, rest := EncElement(f, vs[i]), EncElements(f, Prefix(f), vs[i + 1..]);
      ok := EncodeNextElement(s, f, vs[i], start, done);
      CatRegroups(done, e, rest);
      if !ok {
        WentFailed(start, Now(s), Cat(Some(done), e), rest);
        WroteIsWent(s, false, total);
        return;
      }
      WentSome(start, Now(s), Cat(Some(done), e));
      done := done + e.value;
      i := i + 1;
    }
    assert vs[|vs|..] == [];
    NoElements(f);
    assert done + [] == done;
    WroteIsWent(s, true, total);
    return true;
  }

  lemma CatRegroups(a: Bytes, b: Option<Bytes>, c: Option<Bytes>)
    ensures Cat(Cat(Some(a), b), c) == Cat(Some(a), Cat(b, c))
  {
    if b.Some? && c.Some? {
      assert a + b.value + c.value == a + (b.value + c.value);
    }
  }

  lemma WentSome(a: Shot, b: Shot, e: Option<Bytes>)
    requires Went(a, b, true, e)
    ensures e.Some?
  {
  }

  lemma {:induction false} NoElements(f: Field)
    ensures EncElements(f, Prefix(f), []) == Some([])
  {
  }

  lemma PrependNothing(e: Option<Bytes>)
    ensures Cat(Some([]), e) == e
  {
    if e.Some? {
      assert [] + e.value == e.value;
    }
  }

  lemma CatAssoc(a: Bytes, b: Bytes, c: Option<Bytes>)
    ensures Cat(Some(a), Cat(Some(b), c)) == Cat(Some(a + b), c)
  {
    if c.Some? {
      assert a + (b + c.value) == a + b + c.value;
    }
  }

  lemma {:induction false} PackedLength(f: Field, vs: seq<Value>)
    requires f.ltype.Packable() && forall i :: 0 <= i < |vs| ==> Typed(f, vs[i])
    ensures EncElements(f, [], vs).Some?
    ensures f.ltype.Fixed32? ==> |EncElements(f, [], vs).value| == 4 * |vs|
    ensures f.ltype.Fixed64? ==> |EncElements(f, [], vs).value| == 8 * |vs|
    decreases |vs|
  {
    if vs != [] {
      PackedLength(f, vs[1..]);
    }
  }

  /** The size of a packed array: computed for fixed-width types, counted for varints. */
  method PackedSize(f: Field, vs: seq<Value>) returns (size: nat)
    requires f.ltype.Packable() && EncodableField(f)
    requires forall i :: 0 <= i < |vs| ==> Typed(f, vs[i]) && CountableValue(f, vs[i])
    ensures EncElements(f, [], vs).Some? && size == |EncElements(f, [], vs).value|
    decreases f, 5
  {
    hide EncElements;
    hide Typed;
    hide CountableValue;
    PackedLength(f, vs);
    if f.ltype.Fixed32? {
      size := 4 * |vs|;
    } else if f.ltype.Fixed64? {
      size := 8 * |vs|;
    } else {
      var counter := new OStream.Sizing();
      var ok := EncodeElements(counter, f, vs);
      size := counter.bytesWritten;
    }
  }

  /** encode_array */
  method EncodeArray(s: OStream, f: Field, vs: seq<Value>) returns (ok: bool)
    requires s.Valid() && EncodableField(f)
    requires forall i :: 0 <= i < |vs| ==> Typed(f, vs[i]) && CountableValue(f, vs[i])
    requires Countable(EncElements(f, [], vs))
    modifies s, s.Memory()
    ensures s.Wrote(ok, EncArray(f, vs))
    decreases f, 7
  {
    hide EncElements;
    hide Typed;
    hide CountableValue;
    if |vs| == 0 {
      assert s.out + [] == s.out;
      return true;
    }
    if |vs| > f.arraySize {
      return false;
    }
    if f.ltype.Packable() {
      ok := EncodePacked(s, f, vs);
    } else {
      ok := EncodeElements(s, f, vs);
    }
  }

  method EncodePacked(s: OStream, f: Field, vs: seq<Value>) returns (ok: bool)
    requires s.Valid() && EncodableField(f) && f.ltype.Packable()
    requires forall i :: 0 <= i < |vs| ==> Typed(f, vs[i]) && CountableValue(f, vs[i])
    requires Countable(EncElements(f, [], vs))
    modifies s, s.Memory()
    ensures EncElements(f, [], vs).Some?
    ensures s.Wrote(ok, Some(EncTag(WT_STRING, f.tag) + EncString(EncElements(f, [], vs).value)))
    decreases f, 6
  {
    hide EncElements;
    hide EncTag;
    hide Typed;
    hide CountableValue;
    var size := PackedSize(f, vs);
    ok := EncodeTag(s, WT_STRING, f.tag);
    if !ok {
      return;
    }
    ok := EncodeSized(s, f, vs, size);
  }

  method EncodeSized(s: OStream, f: Field, vs: seq<Value>, size: nat) returns (ok: bool)
    requires s.Valid() && EncodableField(f) && f.ltype.Packable() && size < U64
    requires forall i :: 0 <= i < |vs| ==> Typed(f, vs[i]) && CountableValue(f, vs[i])
    requires EncElements(f, [], vs).Some? && size == |EncElements(f, [], vs).value|
    modifies s, s.Memory()
    ensures s.Wrote(ok, Some(EncString(EncElements(f, [], vs).value)))
    decreases f, 5
  {
    hide EncElements;
    hide EncVarint;
    hide Typed;
    hide CountableValue;
    ok := EncodeVarint(s, size);
    if !ok {
      return;
    }
    if s.buf == null {
      ok := s.Write([], size, EncElements(f, [], vs).value);
    } else {
      ok := EncodeElements(s, f, vs);
    }
  }

  // ---------------------------------------------------------------- messages

  /** pb_check_proto3_default_value, for a singular submessage a walk over its fields. */
  method CheckZero(f: Field, v: Value) returns (zero: bool)
    requires Typed(f, v) && EncodableField(f)
    ensures zero == IsZero(f, v)
    decreases f, 1
  {
    if f.ltype.LSubmessage? {
      zero := CheckAllAbsent(f.sub, v.m);
    } else if f.ltype.FixedLengthBytes? {
      zero := f.dataSize == 0;
    } else if f.ltype.LBytes? {
      zero := |v.b| == 0;
    } else if f.ltype.LString? {
      zero := |v.b| == 0 || v.b[0] == 0;
    } else {
      zero := v.n == 0;
    }
  }

  method CheckAbsent(f: Field, s: Slot) returns (absent: bool)
    requires TypedSlot(f, s) && EncodableField(f)
    ensures absent == Absent(f, s)
    decreases f, 2
  {
    if f.htype.Required? {
      absent := false;
    } else if f.htype.Repeated? {
      absent := |s.vs| == 0;
    } else if f.htype.Oneof? || f.sizeOffset != 0 {
      absent := !s.has;
    } else {
      absent := CheckZero(f, s.v);
    }
  }

  lemma {:induction false} EncodableAt(fs: seq<Field>, i: nat)
    requires Encodable(fs) && i < |fs|
    ensures EncodableField(fs[i])
  {
  }

  method CheckAllAbsent(fs: seq<Field>, m: Message) returns (absent: bool)
    requires TypedMessage(fs, m) && Encodable(fs)
    ensures absent == AllAbsent(fs, m)
    decreases fs, 3
  {
    hide FieldIter.Valid;
    hide Encodable;
    hide TypedSlot;
    hide Absent;
    EncodableHasLayout(fs);
    var iter := new FieldIter(fs, 0, LayoutOf(fs));
    var more := iter.Begin();
    ghost var i := 0;
    while more
      invariant iter.Valid() && iter.fields == fs && 0 <= i <= |fs|
      invariant more <==> i < |fs|
      invariant more ==> iter.pos == i
      invariant forall k :: 0 <= k < i ==> Absent(fs[k], m[k])
      decreases |fs| - i
    {
      EncodableAt(fs, i);
      var absentHere := CheckAbsent(iter.fields[iter.pos], m[iter.pos]);
      if !absentHere {
        return false;
      }
      more := iter.Next();
      i := i + 1;
    }
    return true;
  }

  /** encode_basic_field */
  method EncodeField(s: OStream, f: Field, slot: Slot) returns (ok: bool)
    requires s.Valid() && TypedSlot(f, slot) && EncodableField(f) && CountableSlot(f, slot)
    modifies s, s.Memory()
    ensures s.Wrote(ok, EncSlot(f, slot))
    decreases f, 8
  {
    hide EncArray;
    hide EncValue;
    hide EncTag;
    hide Absent;
    if f.htype.Repeated? {
      ok := EncodeArray(s, f, slot.vs);
      return;
    }
    var absent := CheckAbsent(f, slot);
    if absent {
      assert s.out + [] == s.out;
      return true;
    }
    ok := EncodeTag(s, WireType(f.ltype), f.tag);
    if !ok {
      return;
    }
    ok := EncodeValue(s, f, slot.v);
  }

  lemma {:induction false} MessageCons(fs: seq<Field>, m: Message, i: nat)
    requires i < |fs| == |m| && TypedMessage(fs, m) && CountableMessage(fs, m) && Encodable(fs)
    ensures TypedMessage(fs[i..], m[i..]) && TypedMessage(fs[i + 1..], m[i + 1..])
    ensures TypedSlot(fs[i], m[i]) && CountableSlot(fs[i], m[i]) && EncodableField(fs[i])
    ensures EncMessage(fs[i..], m[i..]) == Cat(EncSlot(fs[i], m[i]), EncMessage(fs[i + 1..], m[i + 1..]))
  {
    hide EncSlot;
    hide TypedSlot;
    hide CountableSlot;
    hide EncodableField;
    assert fs[i..][1..] == fs[i + 1..] && m[i..][1..] == m[i + 1..];
  }

  lemma {:induction false} SameLength(fs: seq<Field>, m: Message)
    requires TypedMessage(fs, m)
    ensures |fs| == |m|
  {
  }

  /** `done` is what the fields before `i` encode to. */
  ghost predicate EncodedUpTo(fs: seq<Field>, m: Message, i: nat, done: Bytes)
    requires TypedMessage(fs, m)
  {
    i <= |fs| && TypedMessage(fs[i..], m[i..])
    && EncMessage(fs, m) == Cat(Some(done), EncMessage(fs[i..], m[i..]))
  }

  lemma {:induction false} EncodedNothing(fs: seq<Field>, m: Message)
    requires TypedMessage(fs, m)
    ensures EncodedUpTo(fs, m, 0, [])
  {
    assert fs[0..] == fs && m[0..] == m;
    PrependNothing(EncMessage(fs, m));
  }

  lemma {:induction false} EncodedNext(fs: seq<Field>, m: Message, i: nat, done: Bytes)
    requires TypedMessage(fs, m) && CountableMessage(fs, m) && Encodable(fs)
    requires i < |fs| == |m| && EncodedUpTo(fs, m, i, done)
    ensures TypedSlot(fs[i], m[i]) && CountableSlot(fs[i], m[i]) && EncodableField(fs[i])
    ensures var e := EncSlot(fs[i], m[i]);
            if e.None? then EncMessage(fs, m).None?
            else
              && EncodedUpTo(fs, m, i + 1, done + e.value)
              && (EncMessage(fs, m).Some? ==> |EncMessage(fs, m).value| >= |done| + |e.value|)
  {
    hide EncMessage;
    hide EncSlot;
    hide TypedMessage;
    MessageCons(fs, m, i);
    if EncSlot(fs[i], m[i]).Some? {
      CatAssoc(done, EncSlot(fs[i], m[i]).value, EncMessage(fs[i + 1..], m[i + 1..]));
    }
  }

  lemma {:induction false} EncodedAll(fs: seq<Field>, m: Message, done: Bytes)
    requires TypedMessage(fs, m) && EncodedUpTo(fs, m, |fs|, done)
    ensures EncMessage(fs, m) == Some(done)
  {
    assert fs[|fs|..] == [] && m[|fs|..] == [];
    assert done + [] == done;
  }

  /** A field behind those already written. */
  method EncodeNextField(s: OStream, f: Field, slot: Slot, ghost start: Shot, ghost done: Bytes) returns (ok: bool)
    requires s.Valid() && TypedSlot(f, slot) && EncodableField(f) && CountableSlot(f, slot)
    requires Went(start, Now(s), true, Some(done))
    modifies s, s.Memory()
    ensures s.Valid() && Went(start, Now(s), ok, Cat(Some(done), EncSlot(f, slot)))
    decreases f, 9
  {
    hide EncSlot;
    hide TypedSlot;
    hide CountableSlot;
    hide EncodableField;
    ghost var before := Now(s);
    ok := EncodeField(s, f, slot);
    WroteIsWent(s, ok, EncSlot(f, slot));
    WentThen(start, before, Now(s), done, ok, EncSlot(f, slot));
  }

  /** pb_encode */
  method Encode(s: OStream, fs: seq<Field>, m: Message) returns (ok: bool)
    requires s.Valid() && TypedMessage(fs, m) && Encodable(fs) && CountableMessage(fs, m)
    modifies s, s.Memory()
    ensures s.Wrote(ok, EncMessage(fs, m))
    decreases fs, 2
  {
    hide EncMessage;
    hide EncSlot;
    hide TypedSlot;
    hide CountableSlot;
    hide EncodableField;
    hide FieldIter.Valid;
    hide TypedMessage;
    hide CountableMessage;
    hide Encodable;
    hide EncodedUpTo;
    hide OStream.Wrote;
    hide OStream.Valid;
    hide Went;
    SameLength(fs, m);
    EncodableHasLayout(fs);
    var iter := new FieldIter(fs, 0, LayoutOf(fs));
    var more := iter.Begin();
    ghost var i, done: Bytes, start := 0, [], Now(s);
    EncodedNothing(fs, m);
    WentNowhere(s);
    while more
      invariant iter.Valid() && iter.fields == fs && 0 <= i <= |fs| && s.Valid()
      invariant more <==> i < |fs|
      invariant more ==> iter.pos == i
      invariant EncodedUpTo(fs, m, i, done) && Went(start, Now(s), true, Some(done))
      decreases |fs| - i
    {
      EncodedNext(fs, m, i, done);
      ghost var e := EncSlot(fs[i], m[i]);
      ok := EncodeNextField(s, iter.fields[iter.pos], m[iter.pos], start, done);
      if !ok {
        EncodedFailed(fs, m, i, done, start, Now(s));
        WroteIsWent(s, false, EncMessage(fs, m));
        return;
      }
      WentSome(start, Now(s), Cat(Some(done), e));
      done := done + e.value;
      more := iter.Next();
      i := i + 1;
    }
    EncodedAll(fs, m, done);
    WroteIsWent(s, true, EncMessage(fs, m));
    return true;
  }

  lemma {:induction false} EncodedFailed(fs: seq<Field>, m: Message, i: nat, done: Bytes, a: Shot, b: Shot)
    requires TypedMessage(fs, m) && CountableMessage(fs, m) && Encodable(fs)
    requires i < |fs| == |m| && TypedSlot(fs[i], m[i]) && EncodedUpTo(fs, m, i, done)
    requires Went(a, b, false, Cat(Some(done), EncSlot(fs[i], m[i])))
    ensures Went(a, b, false, EncMessage(fs, m))
  {
    hide EncMessage;
    hide EncSlot;
    hide TypedSlot;
    hide TypedMessage;
    hide CountableMessage;
    hide Encodable;
    hide Went;
    MessageCons(fs, m, i);
    CatRegroups(done, EncSlot(fs[i], m[i]), EncMessage(fs[i + 1..], m[i + 1..]));
    WentFailed(a, b, Cat(Some(done), EncSlot(fs[i], m[i])), EncMessage(fs[i + 1..], m[i + 1..]));
  }
}
