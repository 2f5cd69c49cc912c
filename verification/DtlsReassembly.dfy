/** Reassembling one DTLS handshake message from fragments (d1_both.cc; section 4.2.3 of RFC 6347). */
module DtlsReassembly {
  import opened DtlsWire
  import opened Octets

  // ---------------------------------------------------------------- bits of a byte

  predicate Bit(b: bv8, i: nat)
    requires i < 8
  {
    (b >> i) & 1 == 1
  }

  /** bit_range: bits `start` to `end`, `end` excluded. */
  function BitRange(start: nat, end: nat): bv8
    requires start <= 8 && end <= 8
  {
    (!(((1 as bv32) << start) - 1) & (((1 as bv32) << end) - 1) & 0xff) as bv8
  }

  /** The `k` low bits of a byte. */
  function Low(k: nat): bv8
    requires k <= 8
  {
    if k == 0 then 0x00 else if k == 1 then 0x01 else if k == 2 then 0x03 else if k == 3 then 0x07
    else if k == 4 then 0x0f else if k == 5 then 0x1f else if k == 6 then 0x3f else if k == 7 then 0x7f
    else 0xff
  }

  lemma BitRangeIsLow(start: nat, end: nat)
    requires start <= 8 && end <= 8
    ensures BitRange(start, end) == !Low(start) & Low(end)
  {
  }

  lemma LowBit(k: nat, i: nat)
    requires k <= 8 && i < 8
    ensures Bit(Low(k), i) <==> i < k
  {
  }

  lemma OrBit(a: bv8, b: bv8, i: nat)
    requires i < 8
    ensures Bit(a | b, i) <==> Bit(a, i) || Bit(b, i)
  {
  }

  lemma AndNotBit(a: bv8, b: bv8, i: nat)
    requires i < 8
    ensures Bit(!a & b, i) <==> !Bit(a, i) && Bit(b, i)
  {
  }

  lemma BitRangeBit(start: nat, end: nat, i: nat)
    requires start <= 8 && end <= 8 && i < 8
    ensures Bit(BitRange(start, end), i) <==> start <= i < end
  {
    hide Bit;
    hide BitRange;
    hide Low;
    BitRangeIsLow(start, end);
    AndNotBit(Low(start), Low(end), i);
    LowBit(start, i);
    LowBit(end, i);
  }

  lemma AllBits(b: bv8)
    ensures b == 0xff <==> forall i :: 0 <= i < 8 ==> Bit(b, i)
  {
    if forall i :: 0 <= i < 8 ==> Bit(b, i) {
      assert Bit(b, 0) && Bit(b, 1) && Bit(b, 2) && Bit(b, 3) && Bit(b, 4) && Bit(b, 5) && Bit(b, 6) && Bit(b, 7);
    }
  }

  /** Two bytes with the same bits are the same. */
  lemma SameBits(a: bv8, b: bv8)
    requires forall i :: 0 <= i < 8 ==> (Bit(a, i) <==> Bit(b, i))
    ensures a == b
  {
    assert Bit(a, 0) == Bit(b, 0) && Bit(a, 1) == Bit(b, 1) && Bit(a, 2) == Bit(b, 2) && Bit(a, 3) == Bit(b, 3);
    assert Bit(a, 4) == Bit(b, 4) && Bit(a, 5) == Bit(b, 5) && Bit(a, 6) == Bit(b, 6) && Bit(a, 7) == Bit(b, 7);
  }

  // ---------------------------------------------------------------- the coverage map

  /** The positions from `start` to `end`, `end` excluded. */
  function Range(start: nat, end: nat): (r: set<nat>)
    ensures forall x :: x in r <==> start <= x < end
    decreases end
  {
    if start >= end then {} else Range(start, end - 1) + {end - 1}
  }

  /** Bit i of byte k says whether `8 * k + i` is covered. */
  ghost predicate Marks(bits: seq<bv8>, covered: set<nat>)
  {
    && (forall k, i :: 0 <= k < |bits| && 0 <= i < 8 ==> (Bit(bits[k], i) <==> 8 * k + i in covered))
    && forall x :: x in covered ==> x < 8 * |bits|
  }

  /** Or-ing a bit range into a byte covers that range. */
  lemma {:induction false} OrMarks(bits: seq<bv8>, covered: set<nat>, k: nat, start: nat, end: nat)
    requires Marks(bits, covered) && k < |bits| && start <= 8 && end <= 8
    ensures Marks(bits[k := bits[k] | BitRange(start, end)], covered + Range(8 * k + start, 8 * k + end))
  {
    hide Bit;
    hide BitRange;
    var b := bits[k := bits[k] | BitRange(start, end)];
    var c := covered + Range(8 * k + start, 8 * k + end);
    forall j, i | 0 <= j < |b| && 0 <= i < 8
      ensures Bit(b[j], i) <==> 8 * j + i in c
    {
      assert Bit(bits[j], i) <==> 8 * j + i in covered;
      if j == k {
        OrBit(bits[k], BitRange(start, end), i);
        BitRangeBit(start, end, i);
      }
    }
  }

  /** Setting a whole byte covers its eight positions. */
  lemma {:induction false} FillMarks(bits: seq<bv8>, covered: set<nat>, k: nat)
    requires Marks(bits, covered) && k < |bits|
    ensures Marks(bits[k := 0xff], covered + Range(8 * k, 8 * k + 8))
  {
    assert BitRange(0, 8) == 0xff && bits[k] | 0xff == 0xff;
    OrMarks(bits, covered, k, 0, 8);
  }

  lemma NoneMarked(bits: seq<bv8>)
    requires forall k :: 0 <= k < |bits| ==> bits[k] == 0
    ensures Marks(bits, {})
  {
    forall k, i | 0 <= k < |bits| && 0 <= i < 8
      ensures !Bit(bits[k], i)
    {
      assert bits[k] == 0;
    }
  }

  /** Whether the map shows all of the `n` positions, byte by byte. */
  predicate AllSet(bits: seq<bv8>, n: nat)
    requires |bits| == (n + 7) / 8
  {
    && (forall k :: 0 <= k < n / 8 ==> bits[k] == 0xff)
    && (n % 8 != 0 ==> bits[n / 8] == BitRange(0, n % 8))
  }

  lemma {:induction false} AllSetIsFull(bits: seq<bv8>, covered: set<nat>, n: nat)
    requires |bits| == (n + 7) / 8 && Marks(bits, covered) && covered <= Range(0, n)
    ensures AllSet(bits, n) <==> covered == Range(0, n)
  {
    hide Bit;
    hide BitRange;
    if AllSet(bits, n) {
      forall x | 0 <= x < n
        ensures x in covered
      {
        assert x == 8 * (x / 8) + x % 8;
        if x / 8 < n / 8 {
          AllBits(bits[x / 8]);
        } else {
          BitRangeBit(0, n % 8, x % 8);
        }
        assert Bit(bits[x / 8], x % 8);
      }
    }
    if covered == Range(0, n) {
      FullIsAllSet(bits, n);
    }
  }

  lemma {:induction false} FullIsAllSet(bits: seq<bv8>, n: nat)
    requires |bits| == (n + 7) / 8 && Marks(bits, Range(0, n))
    ensures AllSet(bits, n)
  {
    hide Bit;
    hide BitRange;
    forall k | 0 <= k < n / 8
      ensures bits[k] == 0xff
    {
      forall i | 0 <= i < 8
        ensures Bit(bits[k], i)
      {
        assert 8 * k + i in Range(0, n);
      }
      AllBits(bits[k]);
    }
    if n % 8 != 0 {
      var k := n / 8;
      forall i | 0 <= i < 8
        ensures Bit(bits[k], i) <==> Bit(BitRange(0, n % 8), i)
      {
        BitRangeBit(0, n % 8, i);
        assert Bit(bits[k], i) <==> 8 * k + i in Range(0, n);
      }
      SameBits(bits[k], BitRange(0, n % 8));
    }
  }

  // ---------------------------------------------------------------- a partly received message

  /** SSLMessage: the raw bytes are the message written as one fragment. */
  datatype Message = Message(ty: Byte, body: Bytes, raw: Bytes)

  /** A handshake message of which the bytes in `got` have arrived. */
  datatype Partial = Partial(ty: Byte, seqNo: nat, msgLen: nat, got: map<nat, Byte>)
  {
    ghost predicate Valid() { got.Keys <= Range(0, msgLen) && seqNo < U16 && msgLen < U24 }

    ghost predicate Complete() { got.Keys == Range(0, msgLen) }

    /** The message's body, once complete. */
    ghost function Body(): (bs: Bytes)
      requires Complete()
      ensures |bs| == msgLen
    {
      seq(msgLen, i requires 0 <= i < msgLen => assert i in Range(0, msgLen); got[i])
    }

    ghost function Whole(): Message
      requires Complete() && seqNo < U16 && msgLen < U24
    {
      Message(ty, Body(), EncodeFragment(Fragment(Header(ty, msgLen, seqNo, 0, msgLen), Body())))
    }

    /** The copy of a fragment's body to its place; a complete message is left alone. */
    ghost function Place(off: nat, body: Bytes): Partial
    {
      if Complete() then this else this.(got := got + At(off, body))
    }
  }

  /** Bytes at the positions from `off`. */
  function At(off: nat, body: Bytes): (m: map<nat, Byte>)
    ensures m.Keys == Range(off, off + |body|)
    ensures forall i :: i in m ==> m[i] == body[i - off]
    decreases |body|
  {
    if body == [] then map[]
    else
      var n := |body| - 1;
      At(off, body[..n])[off + n := body[n]]
  }

  /** hm_fragment */
  class HmFragment {
    const ty: Byte
    const seqNo: nat
    const msgLen: nat
    const data: array<Byte>
    var reassembly: array?<bv8>
    /** The positions marked so far, and the bytes received there. */
    ghost var covered: set<nat>
    ghost var got: map<nat, Byte>

    /** The memory of the message. */
    ghost function Parts(): set<object>
      reads this
    {
      {this, data} + if reassembly == null then {} else {reassembly}
    }

    ghost function Model(): Partial
      reads this
    {
      Partial(ty, seqNo, msgLen, got)
    }

    /** The map shows exactly what is covered, and is gone exactly when everything is. */
    ghost predicate MapValid()
      reads this, reassembly
    {
      && covered <= Range(0, msgLen)
      && (reassembly == null <==> covered == Range(0, msgLen))
      && (reassembly != null ==> reassembly.Length == (msgLen + 7) / 8 && Marks(reassembly[..], covered))
    }

    ghost predicate DataValid()
      reads this, data
    {
      && data.Length == HM_HEADER_LENGTH + msgLen
      && seqNo < U16 && msgLen < U24
      && data[..HM_HEADER_LENGTH] == EncodeHeader(Header(ty, msgLen, seqNo, 0, msgLen))
      && forall i :: i in got ==> i < msgLen && data[HM_HEADER_LENGTH + i] == got[i]
    }

    ghost predicate Valid()
      reads this, data, reassembly
    {
      MapValid() && DataValid() && covered == got.Keys
    }

    /** dtls1_hm_fragment_new */
    constructor (ty: Byte, seqNo: nat, msgLen: nat)
      requires seqNo < U16 && msgLen < U24
      ensures Valid() && fresh(Parts())
      ensures Model() == Partial(ty, seqNo, msgLen, map[])
    {
      hide BitRange;
      hide Bit;
      hide Put24;
      hide Put16;
      this.ty, this.seqNo, this.msgLen := ty, seqNo, msgLen;
      data := new Byte[HM_HEADER_LENGTH + msgLen];
      reassembly := null;
      covered, got := {}, map[];
      new;
      var header := EncodeHeader(Header(ty, msgLen, seqNo, 0, msgLen));
      forall k | 0 <= k < HM_HEADER_LENGTH {
        data[k] := header[k];
      }
      assert data[..HM_HEADER_LENGTH] == header;
      if msgLen > 0 {
        reassembly := new bv8[(msgLen + 7) / 8](_ => 0);
        NoneMarked(reassembly[..]);
        assert 0 in Range(0, msgLen);
      }
    }

    /** dtls1_hm_fragment_mark */
    method Mark(start: nat, end: nat)
      requires MapValid() && reassembly != null && start <= end <= msgLen
      modifies this`reassembly, this`covered, reassembly
      ensures MapValid() && covered == old(covered) + Range(start, end)
      ensures reassembly == null || reassembly == old(reassembly)
    {
      hide Bit;
      hide BitRange;
      hide Marks;
      if start == end {
        assert covered == covered + Range(start, end);
        return;
      }
      SetBits(start, end);
      covered := covered + Range(start, end);
      var full := CheckAll();
      AllSetIsFull(reassembly[..], covered, msgLen);
      if full {
        reassembly := null;
      }
    }

    /** The part of dtls1_hm_fragment_mark that sets bits. */
    method SetBits(start: nat, end: nat)
      requires MapValid() && reassembly != null && start < end <= msgLen
      modifies reassembly
      ensures Marks(reassembly[..], covered + Range(start, end))
    {
      hide Bit;
      hide BitRange;
      hide Marks;
      hide Range;
      var first, last := start / 8, end / 8;
      if first == last {
        OrMarks(reassembly[..], covered, first, start % 8, end % 8);
        reassembly[first] := reassembly[first] | BitRange(start % 8, end % 8);
      } else {
        OrMarks(reassembly[..], covered, first, start % 8, 8);
        reassembly[first] := reassembly[first] | BitRange(start % 8, 8);
        var i := first + 1;
        while i < last
          invariant first < i <= last
          invariant Marks(reassembly[..], covered + Range(start, 8 * i))
        {
          FillMarks(reassembly[..], covered + Range(start, 8 * i), i);
          assert covered + Range(start, 8 * i) + Range(8 * i, 8 * i + 8) == covered + Range(start, 8 * (i + 1));
          reassembly[i] := 0xff;
          i := i + 1;
        }
        if end % 8 != 0 {
          OrMarks(reassembly[..], covered + Range(start, 8 * i), last, 0, end % 8);
          assert covered + Range(start, 8 * i) + Range(8 * last, end) == covered + Range(start, end);
          reassembly[last] := reassembly[last] | BitRange(0, end % 8);
        }
      }
    }

    /** The part of dtls1_hm_fragment_mark that looks for a byte not yet full. */
    method CheckAll() returns (full: bool)
      requires reassembly != null && reassembly.Length == (msgLen + 7) / 8
      ensures full == AllSet(reassembly[..], msgLen)
    {
      hide BitRange;
      var i := 0;
      while i < msgLen / 8
        invariant 0 <= i <= msgLen / 8
        invariant forall k :: 0 <= k < i ==> reassembly[k] == 0xff
      {
        if reassembly[i] != 0xff {
          return false;
        }
        i := i + 1;
      }
      return msgLen % 8 == 0 || reassembly[msgLen / 8] == BitRange(0, msgLen % 8);
    }

    /** What dtls1_open_handshake does with a fragment of this message: nothing if it is complete,
        else copy the body to its place and mark it. */
    method Place(off: nat, body: Bytes)
      requires Valid() && off + |body| <= msgLen
      modifies this`reassembly, this`covered, this`got, reassembly, data
      ensures Valid() && Model() == old(Model()).Place(off, body)
      ensures Parts() <= old(Parts())
    {
      hide Marks;
      hide EncodeHeader;
      hide Range;
      hide At;
      if reassembly == null {
        return;
      }
      forall k | 0 <= k < |body| {
        data[HM_HEADER_LENGTH + off + k] := body[k];
      }
      assert data[..HM_HEADER_LENGTH] == old(data[..HM_HEADER_LENGTH]);
      Mark(off, off + |body|);
      got := got + At(off, body);
    }
  }
}
