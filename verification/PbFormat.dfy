/** The bytes themselves, in the numerals of the Protocol Buffers "Encoding" specification: keys, varints, fixed-width
    integers and length prefixes; and the encoding of a message as a list of records. */
module PbFormat {
  import opened Octets
  import opened PbVarint
  import opened PbModel
  import opened PbParse
  import opened PbRoundTrip
  import opened PbWire

  // ---------------------------------------------------------------- integers

  /** `e` is `u` in base 128, least significant digit first, with no digit too many and the top bit set on all bytes
      but the last. */
  predicate Digits(e: Bytes, u: nat)
  {
    && |e| > 0
    && (forall i :: 0 <= i < |e| ==> e[i] % 128 == u / Pow128(i) % 128 && (e[i] >= 128 <==> i < |e| - 1))
    && u < Pow128(|e|)
    && (|e| > 1 ==> u >= Pow128(|e| - 1))
  }

  /** Dividing by `b` and then by `p` is dividing by their product; `q` and `r` are the second quotient and remainder. */
  lemma TwoDivisions(u: nat, b: nat, p: nat, h: nat, t: nat, q: nat, r: nat)
    requires t < b && r < p && h == p * q + r && u == b * h + t
    ensures u == (b * p) * q + (b * r + t) && b * r + t < b * p
  {
    assert b * (p * q + r) == (b * p) * q + b * r;
    MulMono(r, p - 1, b);
    assert (p - 1) * b == b * p - b;
  }

  lemma DivideOnce(u: nat, b: nat, p: nat)
    requires p > 0 && b > 0
    ensures b * p > 0 && u / (b * p) == u / b / p
    ensures u / b < p <==> u < b * p
  {
    var h, t := u / b, u % b;
    var q, r := h / p, h % p;
    TwoDivisions(u, b, p, h, t, q, r);
    ProductPositive(b, p);
    DivisionIs(u, b * p, q, b * r + t);
    BelowIsZero(u, b * p);
    BelowIsZero(h, p);
  }

  lemma BelowIsZero(u: nat, d: nat)
    requires d > 0
    ensures u < d <==> u / d == 0
  {
    if u < d {
      DivisionIs(u, d, 0, u);
    }
  }

  lemma DivisionIs(u: nat, d: nat, q: nat, r: nat)
    requires r < d && u == d * q + r
    ensures u / d == q
  {
    if u / d < q {
      MulMono(u / d, q - 1, d);
    } else if u / d > q {
      MulMono(q + 1, u / d, d);
    }
  }

  lemma {:induction false} VarintDigits(u: nat)
    ensures Digits(EncVarint(u), u)
    decreases u
  {
    var e := EncVarint(u);
    if u < 128 {
      assert Pow128(1) == 128 && u / Pow128(0) == u;
    } else {
      VarintDigits(u / 128);
      var t := EncVarint(u / 128);
      forall i | 0 <= i < |e|
        ensures e[i] % 128 == u / Pow128(i) % 128 && (e[i] >= 128 <==> i < |e| - 1)
      {
        if i == 0 {
          ContinuationByte(u % 128);
          assert u / Pow128(0) == u;
        } else {
          assert e[i] == t[i - 1];
          DivideOnce(u, 128, Pow128(i - 1));
        }
      }
      DivideOnce(u, 128, Pow128(|t|));
      DivideOnce(u, 128, Pow128(|t| - 1));
    }
  }

  /** A number of fixed width, least significant byte first. */
  predicate Bytes256(e: Bytes, u: nat)
  {
    u < Pow256(|e|) && forall i :: 0 <= i < |e| ==> e[i] == u / Pow256(i) % 256
  }

  lemma {:induction false} FixedDigits(u: nat, size: nat)
    requires u < Pow256(size)
    ensures Bytes256(LittleEndian(u, size), u)
    decreases size
  {
    if size > 0 {
      var e, t := LittleEndian(u, size), LittleEndian(u / 256, size - 1);
      FixedDigits(u / 256, size - 1);
      forall i | 0 <= i < size
        ensures e[i] == u / Pow256(i) % 256
      {
        if i == 0 {
          assert u / Pow256(0) == u;
        } else {
          assert e[i] == t[i - 1];
          DivideOnce(u, 256, Pow256(i - 1));
        }
      }
    }
  }

  /** Fixed-width integers are four or eight bytes, little-endian. */
  lemma {:induction false} FixedBytes(f: Field, v: Value)
    requires (f.ltype.Fixed32? || f.ltype.Fixed64?) && Typed(f, v)
    ensures EncValue(f, v).Some?
    ensures |EncValue(f, v).value| == (if f.ltype.Fixed32? then 4 else 8) && Bytes256(EncValue(f, v).value, v.n)
  {
    assert Pow256(4) == U32 && Pow256(8) == U64;
    FixedDigits(v.n, if f.ltype.Fixed32? then 4 else 8);
  }

  /** The other integers are in base 128: a negative int32 or int64 as the 64-bit number congruent to it, a sint as
      twice its size, minus one if it is negative. */
  lemma {:induction false} VarintBytes(f: Field, v: Value)
    requires (f.ltype.Varint? || f.ltype.UVarint? || f.ltype.SVarint?) && Typed(f, v)
    ensures EncValue(f, v).Some?
    ensures v.n >= 0 && !f.ltype.SVarint? ==> Digits(EncValue(f, v).value, v.n)
    ensures v.n < 0 && !f.ltype.SVarint? ==> f.ltype.Varint? && Digits(EncValue(f, v).value, 0x1_0000_0000_0000_0000 - -v.n)
    ensures v.n >= 0 && f.ltype.SVarint? ==> Digits(EncValue(f, v).value, 2 * v.n)
    ensures v.n < 0 && f.ltype.SVarint? ==> Digits(EncValue(f, v).value, 2 * -v.n - 1)
  {
    hide EncVarint;
    hide Digits;
    if f.ltype.UVarint? {
      VarintDigits(v.n);
    } else if f.ltype.SVarint? {
      VarintDigits(ZigZag(v.n));
    } else {
      SmallerFits(v.n, f.dataSize);
      VarintDigits(ToU64(v.n));
    }
  }

  // ---------------------------------------------------------------- texts

  /** The first `n` bytes are all of a C string: no NUL among them, and a NUL, the end of the buffer or of the bytes after. */
  predicate EndsAt(b: Bytes, size: nat, n: nat)
  {
    && n <= |b| && n <= size
    && (forall i :: 0 <= i < n ==> b[i] != 0)
    && (n == |b| || n == size || b[n] == 0)
  }

  lemma {:induction false} CStringEnds(b: Bytes, size: nat)
    ensures EndsAt(b, size, |CString(b, size)|)
    decreases |b|
  {
    if b != [] && size != 0 && b[0] != 0 {
      CStringEnds(b[1..], size - 1);
      var n := |CString(b[1..], size - 1)|;
      forall i | 0 <= i < n + 1
        ensures b[i] != 0
      {
        assert i > 0 ==> b[1..][i - 1] == b[i];
      }
    }
  }

  /** Bytes are their count and themselves, a string its bytes up to the NUL. Bytes that are longer than their storage less
      the count, which takes four bytes there, are refused. */
  lemma {:induction false} TextBytes(f: Field, v: Value) returns (n: nat)
    requires (f.ltype.LString? || f.ltype.LBytes? || f.ltype.FixedLengthBytes?) && Typed(f, v)
    ensures f.ltype.LString? ==> EndsAt(v.b, f.dataSize, n)
    ensures !f.ltype.LString? ==> n == |v.b|
    ensures EncValue(f, v)
         == if f.ltype.LBytes? && n + 4 > f.dataSize then None else Some(EncVarint(n) + v.b[..n])
  {
    n := if f.ltype.LString? then |CString(v.b, f.dataSize)| else |v.b|;
    CStringEnds(v.b, f.dataSize);
    assert v.b[..|v.b|] == v.b;
  }

  // ---------------------------------------------------------------- reading values

  /** Half the numbers of `size` bytes are below zero, half are not. */
  predicate SignedFits(n: int, size: nat)
  {
    size in {1, 2, 4, 8} && -(Pow256(size) as int) <= 2 * n < Pow256(size)
  }

  predicate UnsignedFits(n: int, size: nat)
  {
    size in {1, 2, 4, 8} && 0 <= n < Pow256(size)
  }

  lemma FitsIs(n: int, size: nat)
    ensures SignedFits(n, size) <==> FitsSigned(n, size)
    ensures UnsignedFits(n, size) <==> FitsUnsigned(n, size)
  {
    assert Pow256(1) == 0x100 && Pow256(2) == 0x1_0000 && Pow256(4) == U32 && Pow256(8) == U64;
  }

  lemma Residue(u: nat, n: int, m: nat)
    requires m > 0 && (u - n) % m == 0 && -(m as int) <= n < m
    ensures u % m == if n < 0 then n + m else n
  {
    var k := (u - n) / m;
    assert u - n == m * k + (u - n) % m;
    if n < 0 {
      assert u == m * (k - 1) + (n + m);
      RemainderIs(u, m, k - 1, n + m);
    } else {
      RemainderIs(u, m, k, n);
    }
  }

  lemma RemainderIs(u: nat, m: nat, k: int, r: nat)
    requires r < m && u == m * k + r
    ensures u % m == r
  {
    DivisionIs(u, m, k, r);
  }

  /** An int64 is the signed number congruent to what was sent modulo 2^64. A shorter signed field takes the one congruent
      modulo 2^32, so that a negative number sent in 32 bits is read as well as one sent in 64, if it fits. */
  lemma {:induction false} SignedReads(size: nat, u: nat, n: int, rest: Bytes)
    requires u < U64
    requires var w := if size == 8 then U64 else U32;
             (u - n) % w == 0 && -(w as int) <= 2 * n < w
    ensures DecScalar(Varint, size, EncVarint(u) + rest) == if SignedFits(n, size) then Ok(Num(n), rest) else Fail
  {
    hide EncVarint;
    hide DecodeVarint;
    hide FitsSigned;
    hide SignedFits;
    VarintRoundTrip(u, rest);
    FitsIs(n, size);
    Residue(u, n, if size == 8 then U64 else U32);
  }

  /** Unsigned fields take what fits them; zigzag fields what fits once it is undone. */
  lemma UnsignedReads(size: nat, u: nat, rest: Bytes)
    requires u < U64
    ensures DecScalar(UVarint, size, EncVarint(u) + rest) == if UnsignedFits(u, size) then Ok(Num(u), rest) else Fail
    ensures var n := if u % 2 == 0 then u / 2 else -((u + 1) / 2);
            DecScalar(SVarint, size, EncVarint(u) + rest) == if SignedFits(n, size) then Ok(Num(n), rest) else Fail
  {
    hide EncVarint;
    hide DecodeVarint;
    hide FitsSigned;
    hide FitsUnsigned;
    hide SignedFits;
    hide UnsignedFits;
    VarintRoundTrip(u, rest);
    FitsIs(u, size);
    FitsIs(if u % 2 == 0 then u / 2 else -((u + 1) / 2), size);
  }

  /** Bytes need four bytes of storage for their count and a string one for its terminator; bytes of fixed length have that
      length, or come empty and are zeros. */
  lemma TextReads(size: nat, b: Bytes, rest: Bytes)
    requires |b| < U32
    ensures DecString(LBytes, size, EncString(b) + rest) == if |b| + 4 <= size then Ok(Str(b), rest) else Fail
    ensures DecString(LString, size, EncString(b) + rest) == if |b| + 1 <= size then Ok(Str(b), rest) else Fail
    ensures var p := DecString(FixedLengthBytes, size, EncString(b) + rest);
            if |b| == size then p == Ok(Str(b), rest)
            else if b != [] then p == Fail
            else p.Ok? && p.rest == rest && p.val.Str? && |p.val.b| == size && forall i :: 0 <= i < size ==> p.val.b[i] == 0
  {
    hide EncString;
    hide DecodeVarint32;
    TakeStringRoundTrip(b, rest);
    if b == [] {
      assert b + rest == rest;
      assert size == 0 ==> Zeros(size) == b;
    }
  }

  /** A varint has at most ten bytes. */
  lemma TenBytesAtMost(bs: Bytes)
    requires |bs| >= 10 && forall i :: 0 <= i < 10 ==> bs[i] >= 128
    ensures DecodeVarint(bs) == Fail
  {
    ScanPrefix(bs, 10);
  }

  // ---------------------------------------------------------------- skipping

  /** One item of a wire type: a varint, eight bytes, a length and as many bytes, four bytes. There are no others. */
  predicate Item(wt: nat, body: Bytes)
  {
    || (wt == 0 && |body| > 0 && body[|body| - 1] < 128 && forall i :: 0 <= i < |body| - 1 ==> body[i] >= 128)
    || (wt == 1 && |body| == 8)
    || (wt == 2 && DecodeVarint32(body).Ok? && DecodeVarint32(body).val == |DecodeVarint32(body).rest|)
    || (wt == 5 && |body| == 4)
  }

  lemma {:induction false} ScanShape(bs: Bytes)
    requires Scan(bs) > 0
    ensures bs[Scan(bs) - 1] < 128 && forall i :: 0 <= i < Scan(bs) - 1 ==> bs[i] >= 128
  {
    if bs[0] >= 128 {
      ScanShape(bs[1..]);
      forall i | 0 <= i < Scan(bs) - 1
        ensures bs[i] >= 128
      {
        if i > 0 {
          assert bs[1..][i - 1] >= 128;
        }
      }
    }
  }

  lemma {:induction false} Dec32FromPrefix(bs: Bytes, result: nat, bitpos: nat, n: nat)
    requires bitpos < 256 && n <= |bs| && Dec32From(bs, result, bitpos).Ok? && n <= |Dec32From(bs, result, bitpos).rest|
    ensures var p := Dec32From(bs, result, bitpos);
            Dec32From(bs[..|bs| - n], result, bitpos) == Ok(p.val, p.rest[..|p.rest| - n])
    decreases |bs|
  {
    hide Merge;
    hide Overflows;
    Dec32Shorter(bs, result, bitpos);
    assert bs[..|bs| - n][1..] == bs[1..][..|bs[1..]| - n];
    if bs[0] >= 128 {
      var r := if bitpos >= 32 then result else Merge(result, bs[0] % 128, bitpos);
      Dec32FromPrefix(bs[1..], r, (bitpos + 7) % 256, n);
    }
  }

  lemma Dec32Prefix(bs: Bytes, n: nat)
    requires n <= |bs| && DecodeVarint32(bs).Ok? && n <= |DecodeVarint32(bs).rest|
    ensures var p := DecodeVarint32(bs);
            DecodeVarint32(bs[..|bs| - n]) == Ok(p.val, p.rest[..|p.rest| - n])
  {
    hide Dec32From;
    Decode32Shorter(bs);
    assert bs[..|bs| - n][1..] == bs[1..][..|bs[1..]| - n];
    if bs[0] >= 128 {
      Dec32FromPrefix(bs[1..], bs[0] % 128, 7, n);
    }
  }

  lemma SkipVarints(bs: Bytes, n: nat)
    requires n <= |bs|
    ensures SkipField(0, bs) == Ok((), bs[n..]) <==> Item(0, bs[..n])
  {
    if Item(0, bs[..n]) {
      assert forall j :: 0 <= j < n - 1 ==> bs[j] == bs[..n][j];
      ScanWithin(bs, n);
    }
    if SkipField(0, bs) == Ok((), bs[n..]) {
      ScanShape(bs);
      assert |bs[Scan(bs)..]| == |bs[n..]|;
      assert forall j :: 0 <= j < n ==> bs[j] == bs[..n][j];
    }
  }

  lemma SkipStrings(bs: Bytes, n: nat)
    requires n <= |bs|
    ensures SkipField(2, bs) == Ok((), bs[n..]) <==> Item(2, bs[..n])
  {
    hide DecodeVarint32;
    if Item(2, bs[..n]) {
      assert bs == bs[..n] + bs[n..];
      var p := DecodeVarint32(bs[..n]);
      Dec32Local(bs[..n], bs[n..]);
      assert (p.rest + bs[n..])[p.val..] == bs[n..];
    }
    if SkipField(2, bs) == Ok((), bs[n..]) {
      var p := DecodeVarint32(bs);
      assert |p.rest[p.val..]| == |bs| - n;
      Dec32Prefix(bs, |bs| - n);
    }
  }

  /** Skipping a field leaves exactly what follows the item of its wire type; what is no wire type fails. */
  lemma SkipExactly(wt: nat, bs: Bytes, n: nat)
    requires n <= |bs|
    ensures SkipField(wt, bs) == Ok((), bs[n..]) <==> Item(wt, bs[..n])
    ensures wt == 3 || wt == 4 || wt >= 6 ==> SkipField(wt, bs).Fail?
  {
    hide TakeString;
    if wt == 0 {
      SkipVarints(bs, n);
    } else if wt == 2 {
      SkipStrings(bs, n);
    } else if SkipField(wt, bs).Ok? {
      assert |SkipField(wt, bs).rest| == |bs| - if wt == 1 then 8 else 4;
    }
  }

  /** It fails exactly when no item of the wire type stands there. */
  lemma SkipFails(wt: nat, bs: Bytes)
    ensures SkipField(wt, bs).Fail? <==> forall n :: 0 <= n <= |bs| ==> !Item(wt, bs[..n])
  {
    hide SkipField;
    hide Item;
    forall n | 0 <= n <= |bs|
      ensures SkipField(wt, bs) == Ok((), bs[n..]) <==> Item(wt, bs[..n])
    {
      SkipExactly(wt, bs, n);
    }
    SkipLeaves(wt, bs);
    var p := SkipField(wt, bs);
    if p.Ok? {
      assert p.val == () && p == Ok(p.val, p.rest);
      assert Item(wt, bs[..|bs| - |p.rest|]);
    }
  }

  lemma SkipLeaves(wt: nat, bs: Bytes)
    ensures var p := SkipField(wt, bs); p.Ok? ==> |p.rest| <= |bs| && p.rest == bs[|bs| - |p.rest|..]
  {
    hide DecodeVarint32;
    Decode32Shorter(bs);
  }

  // ---------------------------------------------------------------- the records of a message

  /** The wire type of a single value. */
  function WireNumber(t: LType): (wt: nat)
    ensures wt < 8
  {
    match t
    case Varint | UVarint | SVarint => 0
    case Fixed64 => 1
    case Fixed32 => 5
    case LBytes | LString | LSubmessage | FixedLengthBytes => 2
  }

  /** The wire type a field's records carry; scalars of a repeated field travel packed. */
  function FieldWire(f: Field): (wt: nat)
    ensures wt < 8
  {
    if f.htype.Repeated? && f.ltype.Packable() then 2 else WireNumber(f.ltype)
  }

  /** A record of field `f`: its key is the tag above three bits of wire type, and its payload one item. */
  predicate Carries(f: Field, r: Record)
  {
    r.head == EncVarint(8 * f.tag + FieldWire(f)) && Item(FieldWire(f), r.body)
  }

  lemma {:induction false} VarintItem(u: nat)
    ensures Item(0, EncVarint(u))
  {
    VarintDigits(u);
  }

  lemma StringItem(b: Bytes)
    requires |b| < U32
    ensures Item(2, EncString(b))
  {
    hide EncString;
    hide DecodeVarint32;
    TakeStringRoundTrip(b, []);
    assert EncString(b) + [] == EncString(b) && b + [] == b;
  }

  /** A value is one item of its field's wire type. */
  lemma {:induction false} ValueItem(f: Field, v: Value)
    requires WellFormedField(f) && Typed(f, v) && Storable(f, v)
    ensures EncValue(f, v).Some?
    ensures Item(WireNumber(f.ltype), EncValue(f, v).value)
  {
    hide EncVarint;
    hide EncString;
    hide Item;
    if f.ltype.Varint? || f.ltype.UVarint? || f.ltype.SVarint? {
      if f.ltype.Varint? {
        SmallerFits(v.n, f.dataSize);
      }
      VarintItem(if f.ltype.Varint? then ToU64(v.n) else if f.ltype.UVarint? then v.n else ZigZag(v.n));
    } else if f.ltype.Fixed32? || f.ltype.Fixed64? {
      FixedItem(f, v);
    } else if !f.ltype.LSubmessage? {
      StringRoundTrip(f, v, []);
      StringItem(NormValue(f, v).b);
    } else {
      StringItem(EncMessage(f.sub, v.m).value);
    }
  }

  lemma {:induction false} FixedItem(f: Field, v: Value)
    requires (f.ltype.Fixed32? || f.ltype.Fixed64?) && Typed(f, v)
    ensures EncValue(f, v).Some? && Item(if f.ltype.Fixed32? then 5 else 1, EncValue(f, v).value)
  {
    FixedBytes(f, v);
  }

  lemma {:induction false} ElementRecords(f: Field, vs: seq<Value>) returns (rs: seq<Record>)
    requires WellFormedField(f) && f.htype.Repeated? && !f.ltype.Packable()
    requires forall i :: 0 <= i < |vs| ==> Typed(f, vs[i]) && Storable(f, vs[i])
    ensures EncElements(f, EncTag(WireType(f.ltype), f.tag), vs) == Some(Flatten(rs))
    ensures |rs| == |vs| && forall i :: 0 <= i < |rs| ==> Carries(f, rs[i])
    decreases |vs|
  {
    hide EncValue;
    hide EncVarint;
    hide Item;
    hide Storable;
    hide WellFormedField;
    if vs == [] {
      rs := [];
    } else {
      var tail := ElementRecords(f, vs[1..]);
      ValueItem(f, vs[0]);
      var r := Record(EncTag(WireType(f.ltype), f.tag), EncValue(f, vs[0]).value);
      rs := [r] + tail;
      assert rs[1..] == tail;
    }
  }

  /** The encoding of one field is a list of its records: none if it is absent, one for each element of an array that
      cannot be packed, otherwise one. */
  lemma SlotRecords(f: Field, s: Slot) returns (rs: seq<Record>)
    requires WellFormedField(f) && TypedSlot(f, s) && StorableSlot(f, s)
    ensures EncSlot(f, s) == Some(Flatten(rs))
    ensures forall i :: 0 <= i < |rs| ==> Carries(f, rs[i])
    ensures |rs| == if Absent(f, s) then 0 else if f.htype.Repeated? && !f.ltype.Packable() then |s.vs| else 1
  {
    hide EncValue;
    hide EncVarint;
    hide EncString;
    hide Item;
    hide Storable;
    hide Typed;
    hide WellFormedField;
    if Absent(f, s) {
      rs := [];
    } else if f.htype.Repeated? {
      if f.ltype.Packable() {
        var e := EncElements(f, [], s.vs).value;
        StringItem(e);
        rs := [Record(EncTag(WT_STRING, f.tag), EncString(e))];
        OneRecord(rs[0]);
      } else {
        rs := ElementRecords(f, s.vs);
      }
    } else {
      ValueItem(f, s.v);
      rs := [Record(EncTag(WireType(f.ltype), f.tag), EncValue(f, s.v).value)];
      OneRecord(rs[0]);
    }
  }

  lemma OneRecord(r: Record)
    ensures Flatten([r]) == r.head + r.body
  {
    assert [r][1..] == [];
    assert r.head + r.body + [] == r.head + r.body;
  }

  /** The encoding of a message is a list of records of its fields. */
  lemma {:induction false} MessageRecords(fs: seq<Field>, m: Message) returns (rs: seq<Record>)
    requires TypedMessage(fs, m)
    requires forall i :: 0 <= i < |fs| ==> WellFormedField(fs[i]) && StorableSlot(fs[i], m[i])
    ensures EncMessage(fs, m) == Some(Flatten(rs))
    ensures forall i :: 0 <= i < |rs| ==> exists k :: 0 <= k < |fs| && Carries(fs[k], rs[i])
    decreases |fs|
  {
    hide Carries;
    hide EncSlot;
    hide WellFormedField;
    hide StorableSlot;
    if fs == [] {
      rs := [];
    } else {
      var head := SlotRecords(fs[0], m[0]);
      var tail := MessageRecords(fs[1..], m[1..]);
      rs := head + tail;
      FlattenJoin(head, tail);
      forall i | 0 <= i < |rs|
        ensures exists k :: 0 <= k < |fs| && Carries(fs[k], rs[i])
      {
        if i < |head| {
          assert Carries(fs[0], rs[i]);
        } else {
          assert rs[i] == tail[i - |head|];
          var k :| 0 <= k < |fs[1..]| && Carries(fs[1..][k], rs[i]);
          assert Carries(fs[k + 1], rs[i]);
        }
      }
    }
  }

  lemma KeyIs(f: Field, r: Record)
    requires Carries(f, r) && 0 < f.tag < 0x2000_0000
    ensures Key(r) == 8 * f.tag + FieldWire(f) && Key(r) / 8 == f.tag && Key(r) % 8 == FieldWire(f)
    ensures DecodeVarint32(r.head) == Ok(Key(r), [])
  {
    hide EncVarint;
    hide DecodeVarint32;
    hide Item;
    var t := 8 * f.tag + FieldWire(f);
    Varint32RoundTrip(t, []);
    assert EncVarint(t) + [] == EncVarint(t);
    SplitKey(f.tag, FieldWire(f));
  }

  lemma ItemWhole(wt: nat, body: Bytes)
    requires Item(wt, body)
    ensures WholePayload(wt, body)
  {
    hide DecodeVarint32;
    if wt == 0 {
      ScanWithin(body, |body|);
    }
  }

  /** A record written for field `g` is whole for any table that has `g` in it, or has nothing under its tag. */
  lemma RecordWhole(fs: seq<Field>, g: Field, r: Record)
    requires Carries(g, r) && 0 < g.tag < 0x2000_0000 && DistinctTags(fs)
    requires g in fs || forall j :: 0 <= j < |fs| ==> fs[j].tag != g.tag
    ensures WholeRecord(fs, r) && (Known(fs, r) <==> g in fs)
  {
    hide WholePayload;
    hide Item;
    hide EncVarint;
    hide DecodeVarint32;
    KeyIs(g, r);
    ItemWhole(FieldWire(g), r.body);
    if g in fs {
      var k :| 0 <= k < |fs| && fs[k] == g;
      FindItself(fs, k);
    }
  }
}
