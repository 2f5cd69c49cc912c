/** nanopb's descriptor tables, message structs as trees, and what encoding and decoding mean on bytes. */
module PbModel {
  import opened Octets
  import opened PbVarint

  const PB_SIZE_MAX: nat := U32 - 1
  /** offsetof(pb_bytes_array_t, bytes) when pb_size_t is 32 bits wide. */
  const BYTES_OFFSET: nat := 4
  const PB_MAX_REQUIRED_FIELDS: nat := 64

  const WT_VARINT: nat := 0
  const WT_64BIT: nat := 1
  const WT_STRING: nat := 2
  const WT_32BIT: nat := 5

  datatype LType =
    | Varint | UVarint | SVarint | Fixed32 | Fixed64
    | LBytes | LString | LSubmessage | FixedLengthBytes
  {
    /** At most PB_LTYPE_LAST_PACKABLE. */
    predicate Packable() { Varint? || UVarint? || SVarint? || Fixed32? || Fixed64? }
  }

  datatype HType = Required | Optional | Repeated | Oneof

  /** One pb_field_t of a statically allocated field. The offsets are the table's own deltas. */
  datatype Field = Field(
    tag: nat, htype: HType, ltype: LType,
    dataOffset: nat, sizeOffset: int, dataSize: nat, arraySize: nat,
    sub: seq<Field>, default: Option<Value>)

  datatype Value = Num(n: int) | Str(b: Bytes) | Sub(m: Message)

  /** The storage of one field: `has` and `v` for a single value, `vs` for an array of |vs| entries. */
  datatype Slot = Slot(has: bool, v: Value, vs: seq<Value>)

  type Message = seq<Slot>

  /** A field whose presence is not recorded anywhere: required, or proto3 singular. */
  predicate Implicit(f: Field)
  {
    f.htype.Required? || (f.htype.Optional? && f.sizeOffset == 0)
  }

  /** An array field keeps its count; one without would be a fixed-count array. */
  predicate Counted(f: Field)
  {
    f.htype.Repeated? ==> f.sizeOffset != 0
  }

  // ---------------------------------------------------------------- unions

  /** Field `i` continues the union of the field before it. */
  predicate InsideUnion(fs: seq<Field>, i: nat)
    requires i < |fs|
  {
    i > 0 && fs[i - 1].htype.Oneof? && fs[i].htype.Oneof? && fs[i].dataOffset == PB_SIZE_MAX
  }

  function UnionStart(fs: seq<Field>, i: nat): (u: nat)
    requires i < |fs|
    ensures u <= i
  {
    if InsideUnion(fs, i) then UnionStart(fs, i - 1) else i
  }

  predicate SameUnion(fs: seq<Field>, i: nat, j: nat)
    requires i < |fs| && j < |fs|
  {
    fs[i].htype.Oneof? && fs[j].htype.Oneof? && UnionStart(fs, i) == UnionStart(fs, j)
  }

  // ---------------------------------------------------------------- defaults

  function DefaultValue(f: Field): Value
    decreases f, 0
  {
    if f.ltype.LSubmessage? then Sub(DefaultMessage(f.sub))
    else if f.default.Some? then f.default.value
    else if f.ltype.FixedLengthBytes? then Str(Zeros(f.dataSize))
    else if f.ltype.LBytes? || f.ltype.LString? then Str([])
    else Num(0)
  }

  function DefaultSlot(f: Field): Slot
    decreases f, 1
  {
    if f.htype.Repeated? then Slot(false, Num(0), []) else Slot(Implicit(f), DefaultValue(f), [])
  }

  /** pb_message_set_to_defaults */
  function DefaultMessage(fs: seq<Field>): (m: Message)
    ensures |m| == |fs|
    decreases fs
  {
    if fs == [] then [] else [DefaultSlot(fs[0])] + DefaultMessage(fs[1..])
  }

  lemma {:induction false} DefaultAt(fs: seq<Field>, j: nat)
    requires j < |fs|
    ensures DefaultMessage(fs)[j] == DefaultSlot(fs[j])
  {
    if j > 0 {
      DefaultAt(fs[1..], j - 1);
    }
  }

  // ---------------------------------------------------------------- integers

  function SignedLimit(size: nat): nat
  {
    if size == 1 then 0x80
    else if size == 2 then 0x8000
    else if size == 4 then 0x8000_0000
    else if size == 8 then 0x8000_0000_0000_0000
    else 0
  }

  /** `n` fits a signed integer of `size` bytes; no integer fits a size C has no type for. */
  predicate FitsSigned(n: int, size: nat)
  {
    0 <= n + SignedLimit(size) < 2 * SignedLimit(size)
  }

  predicate FitsUnsigned(n: int, size: nat)
  {
    0 <= n < 2 * SignedLimit(size)
  }

  function ToU64(n: int): nat
    requires FitsSigned(n, 8)
  {
    if n < 0 then n + U64 else n
  }

  /** A 64-bit pattern read as int64_t. */
  function ToS64(u: nat): int
  {
    if u % U64 >= 0x8000_0000_0000_0000 then u % U64 - U64 else u % U64
  }

  /** The cast to int32_t. */
  function ToS32(u: nat): int
  {
    if u % U32 >= 0x8000_0000 then u % U32 - U32 else u % U32
  }

  function ZigZag(n: int): nat
  {
    if n < 0 then -2 * n - 1 else 2 * n
  }

  function UnZigZag(z: nat): int
  {
    if z % 2 == 1 then -(z / 2) - 1 else z / 2
  }

  function LittleEndian(n: nat, size: nat): (bs: Bytes)
    ensures |bs| == size
  {
    if size == 0 then [] else [n % 256] + LittleEndian(n / 256, size - 1)
  }

  function FromLittleEndian(bs: Bytes): nat
  {
    if bs == [] then 0 else bs[0] + 256 * FromLittleEndian(bs[1..])
  }

  /** The part of a character buffer that strnlen sees. */
  function CString(b: Bytes, size: nat): (s: Bytes)
    ensures |s| <= size && |s| <= |b| && s == b[..|s|]
  {
    if b == [] || size == 0 || b[0] == 0 then []
    else
      var t := CString(b[1..], size - 1);
      assert b[..|t| + 1] == [b[0]] + b[1..][..|t|];
      [b[0]] + t
  }

  // ---------------------------------------------------------------- what a C struct can hold

  predicate Typed(f: Field, v: Value)
    decreases f, 0
  {
    match f.ltype
    case Varint => v.Num? && FitsSigned(v.n, f.dataSize)
    case SVarint => v.Num? && FitsSigned(v.n, f.dataSize)
    case UVarint => v.Num? && FitsUnsigned(v.n, f.dataSize)
    case Fixed32 => v.Num? && 0 <= v.n < U32
    case Fixed64 => v.Num? && 0 <= v.n < U64
    case LBytes => v.Str? && |v.b| <= PB_SIZE_MAX
    case LString => v.Str?
    case FixedLengthBytes => v.Str? && |v.b| == f.dataSize
    case LSubmessage => v.Sub? && TypedMessage(f.sub, v.m)
  }

  predicate TypedSlot(f: Field, s: Slot)
    decreases f, 1
  {
    if f.htype.Repeated? then
      !s.has && s.v == Num(0) && forall i :: 0 <= i < |s.vs| ==> Typed(f, s.vs[i])
    else
      (Implicit(f) ==> s.has) && Typed(f, s.v) && s.vs == []
  }

  predicate TypedMessage(fs: seq<Field>, m: Message)
    decreases fs
  {
    |m| == |fs| && forall i :: 0 <= i < |fs| ==> TypedSlot(fs[i], m[i])
  }

  // ---------------------------------------------------------------- encoding

  function Cat(a: Option<Bytes>, b: Option<Bytes>): Option<Bytes>
  {
    if a.Some? && b.Some? then Some(a.value + b.value) else None
  }

  function WireType(t: LType): nat
  {
    match t
    case Varint => WT_VARINT
    case UVarint => WT_VARINT
    case SVarint => WT_VARINT
    case Fixed32 => WT_32BIT
    case Fixed64 => WT_64BIT
    case _ => WT_STRING
  }

  function EncTag(wt: nat, tag: nat): Bytes
  {
    EncVarint(8 * tag + wt)
  }

  function EncString(b: Bytes): Bytes
  {
    EncVarint(|b|) + b
  }

  /** pb_check_proto3_default_value on a singular field's data. */
  predicate IsZero(f: Field, v: Value)
    requires Typed(f, v)
    decreases f, 0
  {
    match f.ltype
    case LBytes => v.b == []
    case LString => v.b == [] || v.b[0] == 0
    case FixedLengthBytes => f.dataSize == 0
    case LSubmessage => AllAbsent(f.sub, v.m)
    case _ => v.n == 0
  }

  predicate Absent(f: Field, s: Slot)
    requires TypedSlot(f, s)
    decreases f, 1
  {
    match f.htype
    case Required => false
    case Repeated => s.vs == []
    case Oneof => !s.has
    case Optional => if f.sizeOffset != 0 then !s.has else IsZero(f, s.v)
  }

  predicate AllAbsent(fs: seq<Field>, m: Message)
    requires TypedMessage(fs, m)
    decreases fs
  {
    forall i :: 0 <= i < |fs| ==> Absent(fs[i], m[i])
  }

  function EncValue(f: Field, v: Value): Option<Bytes>
    requires Typed(f, v)
    decreases f, 0
  {
    match f.ltype
    case Varint => Some(EncVarint(ToU64(v.n)))
    case UVarint => Some(EncVarint(v.n))
    case SVarint => Some(EncVarint(ZigZag(v.n)))
    case Fixed32 => Some(LittleEndian(v.n, 4))
    case Fixed64 => Some(LittleEndian(v.n, 8))
    case LBytes => if |v.b| + BYTES_OFFSET > f.dataSize then None else Some(EncString(v.b))
    case LString => Some(EncString(CString(v.b, f.dataSize)))
    case FixedLengthBytes => Some(EncString(v.b))
    case LSubmessage =>
      var e := EncMessage(f.sub, v.m);
      if e.None? then None else Some(EncString(e.value))
  }

  /** The elements of an array one after the other, each after `prefix`. */
  function EncElements(f: Field, prefix: Bytes, vs: seq<Value>): Option<Bytes>
    requires forall i :: 0 <= i < |vs| ==> Typed(f, vs[i])
    decreases f, 1, |vs|
  {
    if vs == [] then Some([])
    else Cat(Cat(Some(prefix), EncValue(f, vs[0])), EncElements(f, prefix, vs[1..]))
  }

  /** encode_array: packed when the type allows it. */
  function EncArray(f: Field, vs: seq<Value>): Option<Bytes>
    requires forall i :: 0 <= i < |vs| ==> Typed(f, vs[i])
    decreases f, 2
  {
    if vs == [] then Some([])
    else if |vs| > f.arraySize then None
    else if f.ltype.Packable() then
      var e := EncElements(f, [], vs);
      if e.None? then None else Some(EncTag(WT_STRING, f.tag) + EncString(e.value))
    else EncElements(f, EncTag(WireType(f.ltype), f.tag), vs)
  }

  /** encode_basic_field */
  function EncSlot(f: Field, s: Slot): Option<Bytes>
    requires TypedSlot(f, s)
    decreases f, 3
  {
    if f.htype.Repeated? then EncArray(f, s.vs)
    else if Absent(f, s) then Some([])
    else Cat(Some(EncTag(WireType(f.ltype), f.tag)), EncValue(f, s.v))
  }

  /** pb_encode */
  function EncMessage(fs: seq<Field>, m: Message): Option<Bytes>
    requires TypedMessage(fs, m)
    decreases fs
  {
    if fs == [] then Some([]) else Cat(EncSlot(fs[0], m[0]), EncMessage(fs[1..], m[1..]))
  }
}
