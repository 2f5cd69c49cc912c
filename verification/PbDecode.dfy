/** The decoder as it runs (pb_decode.c): input streams and substreams over one memory. */
module PbDecode {
  import opened Octets
  import opened PbVarint
  import opened PbModel
  import opened PbParse
  import opened PbCommon

  /** pb_istream_t: a position in memory and the bytes left from there. */
  class IStream {
    const memory: Bytes
    var state: nat
    var bytesLeft: nat

    constructor (m: Bytes, start: nat, size: nat)
      requires start + size <= |m|
      ensures memory == m && state == start && bytesLeft == size && Valid()
    {
      memory, state, bytesLeft := m, start, size;
    }

    ghost predicate Valid()
      reads this
    {
      state + bytesLeft <= |memory|
    }

    /** The bytes still to be read. */
    ghost function Rest(): Bytes
      requires Valid()
      reads this
    {
      memory[state..state + bytesLeft]
    }

    /** What every reader promises: it succeeds iff the parse does, it leaves the parse's rest, and the
        end of the stream stays where it was. */
    twostate predicate Left<T>(ok: bool, new p: Parse<T>)
      reads this
    {
      Valid() && (ok <==> p.Ok?) && (ok ==> Rest() == p.rest && state + bytesLeft == old(state + bytesLeft))
    }

    /** pb_readbyte */
    method ReadByte() returns (ok: bool, byte: Byte)
      requires Valid()
      modifies this
      ensures Valid() && ok == (old(bytesLeft) > 0)
      ensures ok ==> byte == old(Rest())[0] && Rest() == old(Rest())[1..] && state + bytesLeft == old(state + bytesLeft)
      ensures !ok ==> unchanged(this)
    {
      if bytesLeft == 0 {
        return false, 0;
      }
      ok, byte := true, memory[state];
      state, bytesLeft := state + 1, bytesLeft - 1;
    }

    /** pb_read */
    method Read(count: nat) returns (ok: bool, data: Bytes)
      requires Valid()
      modifies this
      ensures Left(ok, Take(old(Rest()), count))
      ensures ok ==> data == old(Rest())[..count]
    {
      if bytesLeft < count {
        return false, [];
      }
      ok, data := true, memory[state..state + count];
      state, bytesLeft := state + count, bytesLeft - count;
    }
  }

  // ---------------------------------------------------------------- varints

  lemma GroupsGrow(bs: Bytes, i: nat)
    requires i < |bs|
    ensures Groups(bs[..i + 1]) == Groups(bs[..i]) + bs[i] % 128 * Pow128(i)
  {
    assert bs[..i + 1] == bs[..i] + [bs[i]];
    GroupsSnoc(bs[..i], bs[i]);
  }

  /** `result |= group << bitpos` on a 64-bit result below that bit. */
  function Merge64(result: nat, group: nat, bitpos: nat): nat
  {
    Or(result, group * Pow2(bitpos) % U64)
  }

  lemma MergeNext(bs: Bytes, i: nat)
    requires i < |bs| && i < 10
    ensures Merge64(Groups(bs[..i]) % U64, bs[i] % 128, 7 * i) == Groups(bs[..i + 1]) % U64
  {
    hide Or;
    hide Groups;
    var r, p := Groups(bs[..i]), Pow128(i);
    var g: nat := bs[i] % 128;
    GroupsGrow(bs, i);
    GroupsBelow(bs[..i]);
    Pow2Is128(i);
    Power9();
    PowMono(i, 9);
    ModSmall(r);
    if i < 9 {
      PowMono(i + 1, 9);
      MulMono(g, 127, p);
      ModSmall(g * p);
      OrAbove(r, g, 7 * i);
      ModSmall(r + g * p);
    } else {
      TopGroup(r, g);
      OrAbove(r, g % 2, 63);
    }
  }

  lemma ModSmall(x: nat)
    requires x < U64
    ensures x % U64 == x
  {
  }

  lemma Power9()
    ensures Pow128(9) == 0x8000_0000_0000_0000
  {
  }

  lemma {:induction false} PowMono(i: nat, j: nat)
    requires i <= j
    ensures Pow128(i) <= Pow128(j)
  {
    if i < j {
      PowMono(i, j - 1);
    }
  }

  /** At bit 63 one bit of the group is left. */
  lemma TopGroup(r: nat, g: nat)
    requires r < 0x8000_0000_0000_0000 && g < 128
    ensures g * 0x8000_0000_0000_0000 % U64 == g % 2 * 0x8000_0000_0000_0000
    ensures (r + g * 0x8000_0000_0000_0000) % U64 == r + g % 2 * 0x8000_0000_0000_0000
  {
    assert g == 2 * (g / 2) + g % 2;
  }

  /** pb_decode_varint */
  method DecodeVarint64(s: IStream) returns (ok: bool, dest: nat)
    requires s.Valid()
    modifies s
    ensures s.Left(ok, DecodeVarint(old(s.Rest())))
    ensures ok ==> dest == DecodeVarint(old(s.Rest())).val
  {
    hide Groups;
    hide Scan;
    hide Merge64;
    ghost var bs := s.Rest();
    var bitpos, result := 0, 0;
    ghost var i := 0;
    assert Groups(bs[..0]) == 0 by { NoGroups(); }
    while true
      invariant s.Valid() && 0 <= i <= 10 && i <= |bs| && bitpos == 7 * i
      invariant s.Rest() == bs[i..] && s.state + s.bytesLeft == old(s.state + s.bytesLeft)
      invariant forall j :: 0 <= j < i ==> bs[j] >= 128
      invariant result == Groups(bs[..i]) % U64
      decreases 10 - i
    {
      ScanPrefix(bs, i);
      if bitpos >= 64 {
        return false, 0;
      }
      var byte;
      ok, byte := s.ReadByte();
      if !ok {
        NoEnd(bs, i);
        return false, 0;
      }
      MergeNext(bs, i);
      result := Merge64(result, byte % 128, bitpos);
      bitpos := bitpos + 7;
      i := i + 1;
      if byte < 128 {
        ScanWithin(bs, i);
        return true, result;
      }
    }
  }

  lemma NoGroups()
    ensures Groups([]) == 0
  {
  }

  lemma {:induction false} NoEnd(bs: Bytes, n: nat)
    requires n == |bs| && forall j :: 0 <= j < n ==> bs[j] >= 128
    ensures Scan(bs) == 0
  {
    ScanPrefix(bs, n);
  }

  /** pb_decode_varint32_eof; `eof` is only raised when not even a first byte could be read. */
  method DecodeVarint32Eof(s: IStream) returns (ok: bool, dest: nat, eof: bool)
    requires s.Valid()
    modifies s
    ensures s.Left(ok, DecodeVarint32(old(s.Rest())))
    ensures ok ==> dest == DecodeVarint32(old(s.Rest())).val
    ensures eof == (old(s.bytesLeft) == 0)
  {
    hide Dec32From;
    hide Merge;
    hide Overflows;
    var byte;
    ok, byte := s.ReadByte();
    if !ok {
      return false, 0, true;
    }
    eof := false;
    if byte < 128 {
      dest := byte;
      return;
    }
    ok, dest := Varint32Tail(s, byte % 128);
  }

  /** The multibyte loop of pb_decode_varint32_eof. */
  method Varint32Tail(s: IStream, first: nat) returns (ok: bool, result: nat)
    requires s.Valid()
    modifies s
    ensures s.Left(ok, Dec32From(old(s.Rest()), first, 7))
    ensures ok ==> result == Dec32From(old(s.Rest()), first, 7).val
  {
    hide Merge;
    hide Overflows;
    ghost var all := Dec32From(s.Rest(), first, 7);
    var bitpos := 7;
    result := first;
    while true
      invariant s.Valid() && 0 <= bitpos < 256
      invariant s.state + s.bytesLeft == old(s.state + s.bytesLeft)
      invariant all == Dec32From(s.Rest(), result, bitpos)
      decreases s.bytesLeft
    {
      var byte;
      ok, byte := s.ReadByte();
      if !ok {
        return;
      }
      if Overflows(result, byte, bitpos) {
        return false, 0;
      }
      if bitpos < 32 {
        result := Merge(result, byte % 128, bitpos);
      }
      bitpos := (bitpos + 7) % 256;
      if byte < 128 {
        if bitpos == 35 && (byte / 16) % 8 != 0 {
          return false, 0;
        }
        return true, result;
      }
    }
  }

  // ---------------------------------------------------------------- skipping

  /** pb_skip_varint */
  method SkipVarint(s: IStream) returns (ok: bool)
    requires s.Valid()
    modifies s
    ensures s.Left(ok, SkipField(WT_VARINT, old(s.Rest())))
  {
    hide Scan;
    ghost var bs := s.Rest();
    ghost var i := 0;
    while true
      invariant s.Valid() && 0 <= i <= |bs|
      invariant s.Rest() == bs[i..] && s.state + s.bytesLeft == old(s.state + s.bytesLeft)
      invariant forall j :: 0 <= j < i ==> bs[j] >= 128
      decreases |bs| - i
    {
      var data;
      ok, data := s.Read(1);
      if !ok {
        NoEnd(bs, i);
        return;
      }
      assert data[0] == bs[i];
      i := i + 1;
      if data[0] < 128 {
        ScanWithin(bs, i);
        return;
      }
    }
  }

  /** pb_skip_string */
  method SkipString(s: IStream) returns (ok: bool)
    requires s.Valid()
    modifies s
    ensures s.Left(ok, SkipField(WT_STRING, old(s.Rest())))
  {
    hide DecodeVarint32;
    var length, eof, data;
    ok, length, eof := DecodeVarint32Eof(s);
    if ok {
      ok, data := s.Read(length);
    }
  }

  /** pb_skip_field */
  method Skip(s: IStream, wireType: nat) returns (ok: bool)
    requires s.Valid()
    modifies s
    ensures s.Left(ok, SkipField(wireType, old(s.Rest())))
  {
    hide Scan;
    hide TakeString;
    var data;
    if wireType == WT_VARINT {
      ok := SkipVarint(s);
    } else if wireType == WT_64BIT {
      ok, data := s.Read(8);
    } else if wireType == WT_STRING {
      ok := SkipString(s);
    } else if wireType == WT_32BIT {
      ok, data := s.Read(4);
    } else {
      ok := false;
    }
  }

  // ---------------------------------------------------------------- substreams

  /** pb_make_string_substream: the substream covers the payload, and the parent no longer counts it. */
  method MakeSubstream(s: IStream) returns (ok: bool, sub: IStream)
    requires s.Valid()
    modifies s
    ensures fresh(sub) && s.Valid()
    ensures ok <==> TakeString(old(s.Rest())).Ok?
    ensures ok ==>
      && sub.Valid() && sub.memory == s.memory && sub.state == s.state
      && sub.Rest() == TakeString(old(s.Rest())).val
      && sub.state + sub.bytesLeft + s.bytesLeft == old(s.state + s.bytesLeft)
      && s.memory[sub.state + sub.bytesLeft..][..s.bytesLeft] == TakeString(old(s.Rest())).rest
  {
    hide DecodeVarint32;
    sub := new IStream(s.memory, s.state, s.bytesLeft);
    var size, eof;
    ok, size, eof := DecodeVarint32Eof(s);
    if !ok {
      return;
    }
    sub.state, sub.bytesLeft := s.state, s.bytesLeft;
    if sub.bytesLeft < size {
      return false, sub;
    }
    sub.bytesLeft := size;
    s.bytesLeft := s.bytesLeft - size;
    ghost var r := s.memory[s.state..s.state + sub.bytesLeft + s.bytesLeft];
    assert r[..size] == sub.Rest();
    assert r[size..] == s.memory[sub.state + sub.bytesLeft..][..s.bytesLeft];
  }

  /** pb_close_string_substream: whatever was left of the payload is skipped, so the parent continues
      exactly one prefix and one payload further on. */
  method CloseSubstream(s: IStream, sub: IStream)
    requires s != sub && sub.Valid() && sub.memory == s.memory
    requires sub.state + sub.bytesLeft + s.bytesLeft <= |s.memory|
    modifies s, sub
    ensures s.Valid() && s.state == old(sub.state + sub.bytesLeft) && s.bytesLeft == old(s.bytesLeft)
  {
    if sub.bytesLeft > 0 {
      var ok, data := sub.Read(sub.bytesLeft);
    }
    s.state := sub.state;
  }

  // ---------------------------------------------------------------- field decoders

  /** pb_decode_fixed32, pb_decode_fixed64 */
  method DecodeFixed(s: IStream, size: nat) returns (ok: bool, n: nat)
    requires s.Valid()
    modifies s
    ensures s.Left(ok, Take(old(s.Rest()), size))
    ensures ok ==> n == FromLittleEndian(old(s.Rest())[..size])
  {
    var data;
    ok, data := s.Read(size);
    n := if ok then FromLittleEndian(data) else 0;
  }

  /** pb_dec_varint, pb_dec_uvarint, pb_dec_svarint: the value is cast to the field's width and must
      survive the cast. */
  method DecodeScalar(s: IStream, f: Field) returns (ok: bool, v: Value)
    requires s.Valid() && f.ltype.Packable()
    modifies s
    ensures s.Left(ok, DecScalar(f.ltype, f.dataSize, old(s.Rest())))
    ensures ok ==> v == DecScalar(f.ltype, f.dataSize, old(s.Rest())).val
  {
    hide DecodeVarint;
    hide FromLittleEndian;
    hide FitsSigned;
    hide FitsUnsigned;
    v := Num(0);
    var u;
    if f.ltype.Fixed32? {
      ok, u := DecodeFixed(s, 4);
      v := Num(u);
      return;
    }
    if f.ltype.Fixed64? {
      ok, u := DecodeFixed(s, 8);
      v := Num(u);
      return;
    }
    ok, u := DecodeVarint64(s);
    if !ok {
      return;
    }
    if f.ltype.UVarint? {
      v := Num(u);
      ok := FitsUnsigned(u, f.dataSize);
    } else {
      var n := if f.ltype.SVarint? then UnZigZag(u) else if f.dataSize == 8 then ToS64(u) else ToS32(u);
      v := Num(n);
      ok := FitsSigned(n, f.dataSize);
    }
  }

  /** pb_dec_bytes, pb_dec_string, pb_dec_fixed_length_bytes */
  method DecodeText(s: IStream, f: Field) returns (ok: bool, v: Value)
    requires s.Valid()
    modifies s
    ensures s.Left(ok, DecString(f.ltype, f.dataSize, old(s.Rest())))
    ensures ok ==> v == DecString(f.ltype, f.dataSize, old(s.Rest())).val
  {
    hide DecodeVarint32;
    v := Str([]);
    var size, eof, data;
    ok, size, eof := DecodeVarint32Eof(s);
    if !ok {
      return;
    }
    if f.ltype.FixedLengthBytes? && size == 0 {
      return true, Str(Zeros(f.dataSize));
    }
    if || (f.ltype.FixedLengthBytes? && size != f.dataSize)
       || (f.ltype.LBytes? && size + BYTES_OFFSET > f.dataSize)
       || (f.ltype.LString? && size + 1 > f.dataSize)
    {
      return false, v;
    }
    ok, data := s.Read(size);
    v := Str(data);
  }

  /** The field decoders (PB_DECODERS). */
  method DecodeValue(s: IStream, f: Field, cur: Value) returns (ok: bool, v: Value)
    requires s.Valid() && FromStruct(f.sub)
    modifies s
    ensures s.Left(ok, DecValue(f, cur, old(s.Rest())))
    ensures ok ==> v == DecValue(f, cur, old(s.Rest())).val
    decreases f, 0
  {
    hide DecScalar;
    hide DecString;
    hide DecMessage;
    hide TakeString;
    if f.ltype.Packable() {
      ok, v := DecodeScalar(s, f);
    } else if !f.ltype.LSubmessage? {
      ok, v := DecodeText(s, f);
    } else {
      ok, v := DecodeSubmessage(s, f, cur);
    }
  }


  /** pb_dec_submessage */
  method DecodeSubmessage(s: IStream, f: Field, cur: Value) returns (ok: bool, v: Value)
    requires s.Valid() && FromStruct(f.sub) && f.ltype.LSubmessage?
    modifies s
    ensures s.Left(ok, DecValue(f, cur, old(s.Rest())))
    ensures ok ==> v == DecValue(f, cur, old(s.Rest())).val
    decreases f.sub, 9
  {
    hide DecMessage;
    hide TakeString;
    v := cur;
    var sub, m;
    ok, sub := MakeSubstream(s);
    if !ok {
      return;
    }
    ghost var end, left := sub.state + sub.bytesLeft, s.bytesLeft;
    ok, m := DecodeNoinit(sub, f.sub, BaseMessage(f, cur));
    if !ok {
      return;
    }
    CloseSubstream(s, sub);
    assert s.Rest() == s.memory[end..][..left];
    v := Sub(m);
  }

  /** The loop over a packed array. */
  method DecodePacked(sub: IStream, f: Field, vs0: seq<Value>) returns (ok: bool, vs: seq<Value>)
    requires sub.Valid() && f.ltype.Packable()
    modifies sub
    ensures sub.Valid()
    ensures ok <==> DecPacked(f, vs0, old(sub.Rest())).Some?
    ensures ok ==> vs == DecPacked(f, vs0, old(sub.Rest())).value && sub.bytesLeft == 0
    ensures ok ==> sub.state + sub.bytesLeft == old(sub.state + sub.bytesLeft)
    ensures |vs| == PackedCount(f, |vs0|, old(sub.Rest()))
  {
    hide DecScalar;
    ok, vs := true, vs0;
    ghost var all := DecPacked(f, vs0, sub.Rest());
    while ok && sub.bytesLeft > 0 && |vs| < f.arraySize
      invariant sub.Valid()
      invariant ok ==> all == DecPacked(f, vs, sub.Rest())
      invariant PackedCount(f, |vs0|, old(sub.Rest())) == if ok then PackedCount(f, |vs|, sub.Rest()) else |vs|
      invariant ok ==> sub.state + sub.bytesLeft == old(sub.state + sub.bytesLeft)
      invariant !ok ==> all.None?
      decreases ok, sub.bytesLeft
    {
      var v;
      ok, v := DecodeScalar(sub, f);
      if ok {
        vs := vs + [v];
      }
    }
    ok := ok && sub.bytesLeft == 0;
  }

  /** decode_static_field; `size` is what it leaves in the count of an array field, also when it fails. */
  method DecodeField(s: IStream, f: Field, slot: Slot, wireType: nat) returns (ok: bool, slot': Slot, size: nat)
    requires s.Valid() && FromStruct(f.sub)
    modifies s
    ensures s.Left(ok, DecSlot(f, slot, wireType, old(s.Rest())))
    ensures ok ==> slot' == DecSlot(f, slot, wireType, old(s.Rest())).val
    ensures f.htype.Repeated? ==> size == CountLeft(f, |slot.vs|, wireType, old(s.Rest()))
    decreases f, 1
  {
    hide DecValue;
    hide DecPacked;
    hide TakeString;
    slot', size := slot, |slot.vs|;
    var v;
    if !f.htype.Repeated? {
      ok, v := DecodeValue(s, f, slot.v);
      slot' := slot.(has := true, v := v);
    } else if wireType == WT_STRING && f.ltype.Packable() {
      ok, slot', size := DecodeChunk(s, f, slot);
    } else if |slot.vs| >= f.arraySize {
      ok, size := false, size + 1;
    } else {
      size := size + 1;
      ok, v := DecodeValue(s, f, Num(0));
      slot' := slot.(vs := slot.vs + [v]);
    }
  }

  /** The packed branch of decode_static_field. */
  method DecodeChunk(s: IStream, f: Field, slot: Slot) returns (ok: bool, slot': Slot, size: nat)
    requires s.Valid() && f.htype.Repeated? && f.ltype.Packable()
    modifies s
    ensures s.Left(ok, DecSlot(f, slot, WT_STRING, old(s.Rest())))
    ensures ok ==> slot' == DecSlot(f, slot, WT_STRING, old(s.Rest())).val
    ensures size == CountLeft(f, |slot.vs|, WT_STRING, old(s.Rest()))
  {
    hide DecValue;
    hide DecPacked;
    hide TakeString;
    slot', size := slot, |slot.vs|;
    var sub, vs;
    ok, sub := MakeSubstream(s);
    if !ok {
      return;
    }
    ghost var end, left := sub.state + sub.bytesLeft, s.bytesLeft;
    ok, vs := DecodePacked(sub, f, slot.vs);
    size := |vs|;
    if !ok {
      return;
    }
    CloseSubstream(s, sub);
    assert s.Rest() == s.memory[end..][..left];
    slot' := slot.(vs := vs);
  }

  // ---------------------------------------------------------------- messages

  datatype Round = Again | Stop | Error

  lemma {:induction false} KnownField(fs: seq<Field>, i: nat)
    requires FromStruct(fs) && i < |fs|
    ensures FromStruct(fs[i].sub) && fs[i].tag > 0
  {
  }

  /** The iterator's search finds the field the table search gives. */
  method FindTag(iter: FieldIter, tag: nat) returns (ok: bool)
    requires iter.Valid() && FromStruct(iter.fields)
    modifies iter
    ensures iter.Valid()
    ensures ok == (MatchesTerminator(iter.fields, tag) || FindField(iter.fields, tag) < |iter.fields|)
    ensures ok && iter.fields != [] ==> iter.pos == FindField(iter.fields, tag) < |iter.fields|
  {
    hide FieldIter.Valid;
    hide FromStruct;
    hide FindField;
    ok := iter.Find(tag);
    FoundIs(iter.fields, iter.pos, tag, ok);
  }

  lemma {:induction false} FoundIs(fs: seq<Field>, pos: nat, tag: nat, ok: bool)
    requires FromStruct(fs)
    requires ok && fs != [] ==> pos < |fs| && fs[pos].tag == tag
    requires ok <==> MatchesTerminator(fs, tag) || exists i :: 0 <= i < |fs| && fs[i].tag == tag
    ensures ok <==> MatchesTerminator(fs, tag) || FindField(fs, tag) < |fs|
    ensures ok && fs != [] ==> FindField(fs, tag) == pos
  {
    hide FindField;
    if ok && fs != [] {
      assert FindField(fs, tag) <= pos;
    }
  }

  /** The part of a round after the tag was read. */
  method DecodeTagged(s: IStream, iter: FieldIter, bitmap: RequiredBitmap, m: Message, t: nat)
    returns (ok: bool, m': Message)
    requires s.Valid() && iter.Valid() && bitmap.Valid() && FromStruct(iter.fields) && |m| == |iter.fields|
    modifies s, iter, bitmap, bitmap.words
    ensures s.Valid() && iter.Valid() && bitmap.Valid() && |m'| == |m|
    ensures ok ==> s.bytesLeft <= old(s.bytesLeft) && s.state + s.bytesLeft == old(s.state + s.bytesLeft)
    ensures ok ==> Bounded(iter.fields, old(bitmap.seen), bitmap.seen)
    ensures Continue(iter.fields, Progress(m, old(bitmap.seen)), t, old(s.Rest()))
         == if ok then DecFields(iter.fields, Progress(m', bitmap.seen), s.Rest()) else Fail
    decreases iter.fields, 6
  {
    hide DecFields;
    hide SkipField;
    hide DecSlot;
    hide Put;
    hide FromStruct;
    hide FieldIter.Valid;
    hide RequiredBitmap.Valid;
    hide FindField;
    m' := m;
    var found := FindTag(iter, t / 8);
    if !found {
      ok := Skip(s, t % 8);
    } else if iter.fields == [] {
      ok := false;
    } else {
      ok, m' := DecodeKnown(s, iter, bitmap, m, t % 8);
    }
  }

  /** Marking adds nothing but indices of required fields. */
  ghost predicate Bounded(fs: seq<Field>, before: set<nat>, after: set<nat>)
  {
    forall x :: x in after ==> x in before || x < RequiredBefore(fs, |fs|)
  }

  lemma {:induction false} RequiredMonotone(fs: seq<Field>, i: nat, j: nat)
    requires i <= j <= |fs|
    ensures RequiredBefore(fs, i) <= RequiredBefore(fs, j)
    decreases j
  {
    if i < j {
      RequiredMonotone(fs, i, j - 1);
    }
  }

  lemma NoteBounded(fs: seq<Field>, seen: set<nat>, i: nat)
    requires i < |fs|
    ensures Bounded(fs, seen, Note(fs, seen, i))
  {
    RequiredMonotone(fs, i + 1, |fs|);
  }

  method DecodeKnown(s: IStream, iter: FieldIter, bitmap: RequiredBitmap, m: Message, wireType: nat)
    returns (ok: bool, m': Message)
    requires s.Valid() && iter.Valid() && bitmap.Valid() && FromStruct(iter.fields) && |m| == |iter.fields|
    requires iter.fields != []
    modifies s, bitmap, bitmap.words
    ensures s.Valid() && bitmap.Valid() && |m'| == |m|
    ensures Bounded(iter.fields, old(bitmap.seen), bitmap.seen)
    ensures s.Left(ok, DecSlot(iter.fields[iter.pos], m[iter.pos], wireType, old(s.Rest())))
    ensures ok ==> m' == Put(iter.fields, m, iter.pos,
                           DecSlot(iter.fields[iter.pos], m[iter.pos], wireType, old(s.Rest())).val)
    ensures bitmap.seen == Note(iter.fields, old(bitmap.seen), iter.pos)
    decreases iter.fields, 5
  {
    hide DecSlot;
    hide Put;
    hide FromStruct;
    hide RequiredBitmap.Valid;
    hide DescribesLayout;
    m' := m;
    var f := iter.fields[iter.pos];
    KnownField(iter.fields, iter.pos);
    NoteBounded(iter.fields, bitmap.seen, iter.pos);
    if f.htype.Required? {
      bitmap.Mark(iter.requiredFieldIndex);
    }
    var slot, size;
    ok, slot, size := DecodeField(s, f, m[iter.pos], wireType);
    if ok {
      m' := Put(iter.fields, m, iter.pos, slot);
    }
  }

  /** One round of the field loop. */
  method DecodeOne(s: IStream, iter: FieldIter, bitmap: RequiredBitmap, m: Message) returns (next: Round, m': Message)
    requires s.Valid() && iter.Valid() && bitmap.Valid() && FromStruct(iter.fields) && |m| == |iter.fields|
    requires s.bytesLeft > 0
    modifies s, iter, bitmap, bitmap.words
    ensures s.Valid() && iter.Valid() && bitmap.Valid() && |m'| == |m|
    ensures next.Again? ==> s.bytesLeft < old(s.bytesLeft)
    ensures !next.Error? ==> s.state + s.bytesLeft == old(s.state + s.bytesLeft)
    ensures !next.Error? ==> Bounded(iter.fields, old(bitmap.seen), bitmap.seen)
    ensures var all := DecFields(iter.fields, Progress(m, old(bitmap.seen)), old(s.Rest()));
            match next
            case Error => all == Fail
            case Stop => m' == m && bitmap.seen == old(bitmap.seen) && all == Ok(Progress(m, bitmap.seen), s.Rest())
            case Again => all == DecFields(iter.fields, Progress(m', bitmap.seen), s.Rest())
    decreases iter.fields, 7
  {
    hide DecodeVarint32;
    hide Continue;
    hide FromStruct;
    hide FieldIter.Valid;
    hide RequiredBitmap.Valid;
    m' := m;
    ReadsTagFirst(iter.fields, Progress(m, bitmap.seen), s.Rest());
    var ok, t, eof := DecodeVarint32Eof(s);
    if !ok {
      return Error, m;
    }
    if t == 0 {
      return Stop, m;
    }
    hide DecFields;
    ok, m' := DecodeTagged(s, iter, bitmap, m, t);
    next := if ok then Again else Error;
  }

  lemma {:induction false} ReadsTagFirst(fs: seq<Field>, p: Progress, bs: Bytes)
    requires |p.m| == |fs| && bs != []
    ensures DecFields(fs, p, bs)
         == match DecodeVarint32(bs)
            case Fail => Fail
            case Ok(t, rest) => if t == 0 then Ok(p, rest) else Continue(fs, p, t, rest)
    ensures DecodeVarint32(bs).Ok? ==> |DecodeVarint32(bs).rest| < |bs|
  {
    Decode32Shorter(bs);
  }

  /** Walking the iterator to the end counts the required fields. */
  method CountRequired(iter: FieldIter) returns (count: nat)
    requires iter.Valid()
    modifies iter
    ensures iter.Valid() && count == RequiredBefore(iter.fields, |iter.fields|)
  {
    hide DescribesLayout;
    hide InsideUnion;
    if iter.fields == [] {
      return 0;
    }
    count := iter.requiredFieldIndex;
    var last := iter.fields[iter.pos].htype;
    ghost var i := iter.pos;
    var more := iter.Next();
    while more
      invariant iter.Valid() && i < |iter.fields|
      invariant count == RequiredBefore(iter.fields, i) && last == iter.fields[i].htype
      invariant more <==> i + 1 < |iter.fields|
      invariant more ==> iter.pos == i + 1
      decreases |iter.fields| - i
    {
      count := iter.requiredFieldIndex;
      last := iter.fields[iter.pos].htype;
      i := iter.pos;
      more := iter.Next();
    }
    if last.Required? {
      count := count + 1;
    }
  }

  /** pb_decode_noinit */
  method DecodeNoinit(s: IStream, fs: seq<Field>, m0: Message) returns (ok: bool, m: Message)
    requires s.Valid() && FromStruct(fs) && |m0| == |fs|
    modifies s
    ensures s.Left(ok, DecMessage(fs, m0, old(s.Rest())))
    ensures ok ==> m == DecMessage(fs, m0, old(s.Rest())).val
    decreases fs, 8
  {
    hide DecFields;
    hide FromStruct;
    hide FieldIter.Valid;
    hide RequiredBitmap.Valid;
    StructHasLayout(fs);
    var iter := new FieldIter(fs, 0, LayoutOf(fs));
    var bitmap := new RequiredBitmap();
    m := m0;
    ghost var all := DecFields(fs, Progress(m0, {}), s.Rest());
    var next := Again;
    while s.bytesLeft > 0 && next.Again?
      invariant s.Valid() && iter.Valid() && bitmap.Valid() && iter.fields == fs && |m| == |fs|
      invariant next.Error? ==> all == Fail
      invariant !next.Error? ==> s.state + s.bytesLeft == old(s.state + s.bytesLeft)
      invariant !next.Error? ==> Bounded(fs, {}, bitmap.seen)
      invariant next.Again? ==> all == DecFields(fs, Progress(m, bitmap.seen), s.Rest())
      invariant next.Stop? ==> all == Ok(Progress(m, bitmap.seen), s.Rest())
      decreases next.Again?, s.bytesLeft
    {
      next, m := DecodeOne(s, iter, bitmap, m);
    }
    if next.Error? {
      return false, m;
    }
    if next.Again? {
      EndOfFields(fs, Progress(m, bitmap.seen), s.Rest());
    }
    var count := CountRequired(iter);
    ok := bitmap.Complete(count);
  }

  lemma {:induction false} EndOfFields(fs: seq<Field>, p: Progress, bs: Bytes)
    requires |p.m| == |fs| && bs == []
    ensures DecFields(fs, p, bs) == Ok(p, [])
  {
  }

  /** pb_decode */
  method Decode(s: IStream, fs: seq<Field>) returns (ok: bool, m: Message)
    requires s.Valid() && FromStruct(fs)
    modifies s
    ensures s.Left(ok, PbParse.Decode(fs, old(s.Rest())))
    ensures ok ==> m == PbParse.Decode(fs, old(s.Rest())).val
  {
    m := DefaultMessage(fs);
    ok, m := DecodeNoinit(s, fs, m);
  }
}
