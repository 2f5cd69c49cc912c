/** What decoding a byte sequence into a message tree means (pb_decode.c). */
module PbParse {
  import opened Octets
  import opened PbVarint
  import opened PbModel

  /** pb_read: the next `count` bytes. */
  function Take(bs: Bytes, count: nat): (p: Parse<Bytes>)
    ensures p.Ok? ==> |p.rest| + count == |bs|
  {
    if |bs| < count then Fail else Ok(bs[..count], bs[count..])
  }

  /** A length prefix and that many bytes. */
  function TakeString(bs: Bytes): (p: Parse<Bytes>)
    ensures p.Ok? ==> |p.rest| < |bs|
  {
    match DecodeVarint32(bs)
    case Fail => Fail
    case Ok(size, rest) => Decode32Shorter(bs); Take(rest, size)
  }

  /** pb_skip_field */
  function SkipField(wt: nat, bs: Bytes): (p: Parse<()>)
    ensures p.Ok? ==> |p.rest| <= |bs|
  {
    if wt == WT_VARINT then
      var n := Scan(bs);
      if n == 0 then Fail else Ok((), bs[n..])
    else if wt == WT_64BIT then
      match Take(bs, 8) case Fail => Fail case Ok(_, rest) => Ok((), rest)
    else if wt == WT_STRING then
      match TakeString(bs) case Fail => Fail case Ok(_, rest) => Ok((), rest)
    else if wt == WT_32BIT then
      match Take(bs, 4) case Fail => Fail case Ok(_, rest) => Ok((), rest)
    else Fail
  }

  /** The field decoders of the scalar and string types; `size` is the field's data_size. */
  function ParseInt(n: int, fits: bool, rest: Bytes): (p: Parse<Value>)
    ensures p.Ok? ==> p.rest == rest
  {
    if fits then Ok(Num(n), rest) else Fail
  }

  /** pb_dec_varint, pb_dec_uvarint, pb_dec_svarint, pb_dec_fixed32, pb_dec_fixed64 */
  function DecScalar(t: LType, size: nat, bs: Bytes): (p: Parse<Value>)
    requires t.Packable()
    ensures p.Ok? ==> |p.rest| < |bs|
  {
    if t.Fixed32? then
      match Take(bs, 4) case Fail => Fail case Ok(b, rest) => Ok(Num(FromLittleEndian(b)), rest)
    else if t.Fixed64? then
      match Take(bs, 8) case Fail => Fail case Ok(b, rest) => Ok(Num(FromLittleEndian(b)), rest)
    else
      match DecodeVarint(bs)
      case Fail => Fail
      case Ok(u, rest) =>
        match t
        case Varint => var n := if size == 8 then ToS64(u) else ToS32(u); ParseInt(n, FitsSigned(n, size), rest)
        case UVarint => ParseInt(u, FitsUnsigned(u, size), rest)
        case _ => var n := UnZigZag(u); ParseInt(n, FitsSigned(n, size), rest)
  }

  /** pb_dec_bytes, pb_dec_string, pb_dec_fixed_length_bytes */
  function DecString(t: LType, size: nat, bs: Bytes): (p: Parse<Value>)
    ensures p.Ok? ==> |p.rest| < |bs|
  {
    match DecodeVarint32(bs)
    case Fail => Fail
    case Ok(n, rest) =>
      Decode32Shorter(bs);
      if t.FixedLengthBytes? && n == 0 then Ok(Str(Zeros(size)), rest)
      else if t.FixedLengthBytes? && n != size then Fail
      else if t.LBytes? && n + BYTES_OFFSET > size then Fail
      else if t.LString? && n + 1 > size then Fail
      else match Take(rest, n) case Fail => Fail case Ok(b, r) => Ok(Str(b), r)
  }

  /** The struct a submessage is decoded into: array entries and union members are reset to their
      defaults first, any other submessage is merged into what is there. */
  function BaseMessage(f: Field, cur: Value): (m: Message)
    ensures |m| == |f.sub|
  {
    if f.htype.Repeated? || f.htype.Oneof? || !cur.Sub? || |cur.m| != |f.sub|
    then DefaultMessage(f.sub) else cur.m
  }

  function DecValue(f: Field, cur: Value, bs: Bytes): (p: Parse<Value>)
    ensures p.Ok? ==> |p.rest| < |bs|
    decreases f, 0
  {
    if f.ltype.Packable() then DecScalar(f.ltype, f.dataSize, bs)
    else if !f.ltype.LSubmessage? then DecString(f.ltype, f.dataSize, bs)
    else
      match TakeString(bs)
      case Fail => Fail
      case Ok(inner, rest) =>
        match DecMessage(f.sub, BaseMessage(f, cur), inner)
        case Fail => Fail
        case Ok(m, _) => Ok(Sub(m), rest)
  }

  /** The loop over a packed array: it stops at the end of the chunk or when the array is full. */
  function DecPacked(f: Field, vs: seq<Value>, bs: Bytes): Option<seq<Value>>
    requires f.ltype.Packable()
    decreases |bs|
  {
    if bs == [] then Some(vs)
    else if |vs| >= f.arraySize then None
    else
      match DecScalar(f.ltype, f.dataSize, bs)
      case Fail => None
      case Ok(v, rest) => DecPacked(f, vs + [v], rest)
  }

  /** decode_static_field */
  function DecSlot(f: Field, s: Slot, wt: nat, bs: Bytes): (p: Parse<Slot>)
    ensures p.Ok? ==> |p.rest| < |bs|
    decreases f, 1
  {
    if !f.htype.Repeated? then
      match DecValue(f, s.v, bs) case Fail => Fail case Ok(v, rest) => Ok(s.(has := true, v := v), rest)
    else if wt == WT_STRING && f.ltype.Packable() then
      match TakeString(bs)
      case Fail => Fail
      case Ok(chunk, rest) =>
        match DecPacked(f, s.vs, chunk) case None => Fail case Some(vs) => Ok(s.(vs := vs), rest)
    else if |s.vs| >= f.arraySize then Fail
    else
      match DecValue(f, Num(0), bs) case Fail => Fail case Ok(v, rest) => Ok(s.(vs := s.vs + [v]), rest)
  }

  /** The count of an array of `n` elements after the loop over a packed payload, whether or not that succeeds. */
  function PackedCount(f: Field, n: nat, bs: Bytes): (c: nat)
    requires f.ltype.Packable()
    ensures n <= c && (c <= f.arraySize || c == n)
    decreases |bs|
  {
    if bs == [] || n >= f.arraySize then n
    else match DecScalar(f.ltype, f.dataSize, bs) case Fail => n case Ok(_, rest) => PackedCount(f, n + 1, rest)
  }

  /** The count of an array field as decode_static_field leaves it, whether or not that succeeds: a single element is
      counted before it is known to fit. */
  function CountLeft(f: Field, n: nat, wt: nat, bs: Bytes): nat
  {
    if wt == WT_STRING && f.ltype.Packable() then
      match TakeString(bs) case Fail => n case Ok(chunk, _) => PackedCount(f, n, chunk)
    else n + 1
  }

  lemma {:induction false} PackedCounts(f: Field, vs: seq<Value>, bs: Bytes)
    requires f.ltype.Packable() && DecPacked(f, vs, bs).Some?
    ensures PackedCount(f, |vs|, bs) == |DecPacked(f, vs, bs).value|
    decreases |bs|
  {
    hide DecScalar;
    if bs != [] && |vs| < f.arraySize && DecScalar(f.ltype, f.dataSize, bs).Ok? {
      var p := DecScalar(f.ltype, f.dataSize, bs);
      PackedCounts(f, vs + [p.val], p.rest);
    }
  }

  /** The count left behind is that of the array when decoding succeeds. When it fails it goes past the array, by one,
      exactly when a single element found the array full; a packed payload never takes it there. */
  lemma {:induction false} CountAfterDecode(f: Field, s: Slot, wt: nat, bs: Bytes)
    requires f.htype.Repeated? && |s.vs| <= f.arraySize
    ensures var p, c := DecSlot(f, s, wt, bs), CountLeft(f, |s.vs|, wt, bs);
            && (p.Ok? ==> c == |p.val.vs| <= f.arraySize)
            && |s.vs| <= c <= f.arraySize + 1
            && (c > f.arraySize <==> |s.vs| == f.arraySize && !(wt == WT_STRING && f.ltype.Packable()))
            && (c > f.arraySize ==> p.Fail?)
  {
    hide DecScalar;
    hide DecValue;
    if wt == WT_STRING && f.ltype.Packable() && TakeString(bs).Ok? && DecPacked(f, s.vs, TakeString(bs).val).Some? {
      PackedCounts(f, s.vs, TakeString(bs).val);
    }
  }

  /** Storing field `i`; setting one member of a union unsets the others. */
  function Put(fs: seq<Field>, m: Message, i: nat, s: Slot): (m': Message)
    requires i < |fs| == |m|
    ensures |m'| == |m|
  {
    seq(|m|, j requires 0 <= j < |m| =>
      if j == i then s
      else if SameUnion(fs, i, j) then DefaultSlot(fs[j])
      else m[j])
  }

  /** The index of the field with this tag, or |fs|. */
  function FindField(fs: seq<Field>, tag: nat): (i: nat)
    ensures i <= |fs|
    ensures i < |fs| ==> fs[i].tag == tag
    ensures forall j :: 0 <= j < i ==> fs[j].tag != tag
  {
    if fs == [] then 0 else if fs[0].tag == tag then 0 else 1 + FindField(fs[1..], tag)
  }

  /** How many of the first `i` fields are required. */
  function RequiredBefore(fs: seq<Field>, i: nat): (n: nat)
    requires i <= |fs|
    ensures n <= i
  {
    if i == 0 then 0 else RequiredBefore(fs, i - 1) + if fs[i - 1].htype.Required? then 1 else 0
  }

  /** The message being filled in and the indices of the required fields met so far. */
  datatype Progress = Progress(m: Message, seen: set<nat>)

  function Note(fs: seq<Field>, seen: set<nat>, i: nat): set<nat>
    requires i < |fs|
  {
    if fs[i].htype.Required? then seen + {RequiredBefore(fs, i)} else seen
  }

  /** In an empty table the iterator stands on the terminator, whose own tag is 0. A field number 0
      read from the wire matches it, and decoding "into" it always fails. */
  predicate MatchesTerminator(fs: seq<Field>, tag: nat)
  {
    fs == [] && tag == 0
  }

  /** The field loop of pb_decode_noinit: until the stream ends or a zero tag is read. */
  function DecFields(fs: seq<Field>, p: Progress, bs: Bytes): (r: Parse<Progress>)
    requires |p.m| == |fs|
    ensures r.Ok? ==> |r.val.m| == |fs| && |r.rest| <= |bs|
    decreases fs, |bs|
  {
    if bs == [] then Ok(p, [])
    else
      match DecodeVarint32(bs)
      case Fail => Fail
      case Ok(t, rest) =>
        Decode32Shorter(bs);
        if t == 0 then Ok(p, rest)
        else if MatchesTerminator(fs, t / 8) then Fail
        else
          var i := FindField(fs, t / 8);
          if i == |fs| then
            match SkipField(t % 8, rest) case Fail => Fail case Ok(_, r) => DecFields(fs, p, r)
          else
            match DecSlot(fs[i], p.m[i], t % 8, rest)
            case Fail => Fail
            case Ok(s, r) => DecFields(fs, Progress(Put(fs, p.m, i, s), Note(fs, p.seen, i)), r)
  }

  /** The field loop once a non-zero key `t` was read. */
  function Continue(fs: seq<Field>, p: Progress, t: nat, rest: Bytes): Parse<Progress>
    requires |p.m| == |fs|
  {
    var i := FindField(fs, t / 8);
    if MatchesTerminator(fs, t / 8) then Fail
    else if i == |fs| then
      match SkipField(t % 8, rest) case Fail => Fail case Ok(_, tail) => DecFields(fs, p, tail)
    else
      match DecSlot(fs[i], p.m[i], t % 8, rest)
      case Fail => Fail
      case Ok(s, tail) => DecFields(fs, Progress(Put(fs, p.m, i, s), Note(fs, p.seen, i)), tail)
  }

  /** Every tracked required field was met; only the first 64 are tracked. */
  predicate AllSeen(fs: seq<Field>, seen: set<nat>)
  {
    forall k :: 0 <= k < RequiredBefore(fs, |fs|) && k < PB_MAX_REQUIRED_FIELDS ==> k in seen
  }

  /** pb_decode_noinit */
  function DecMessage(fs: seq<Field>, m: Message, bs: Bytes): (r: Parse<Message>)
    requires |m| == |fs|
    ensures r.Ok? ==> |r.val| == |fs| && |r.rest| <= |bs|
    decreases fs, |bs| + 1
  {
    match DecFields(fs, Progress(m, {}), bs)
    case Fail => Fail
    case Ok(p, rest) => if AllSeen(fs, p.seen) then Ok(p.m, rest) else Fail
  }

  /** pb_decode */
  function Decode(fs: seq<Field>, bs: Bytes): Parse<Message>
  {
    DecMessage(fs, DefaultMessage(fs), bs)
  }
}
