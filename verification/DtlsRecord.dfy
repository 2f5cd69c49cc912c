/** DTLS records as bytes: what dtls_seal_record writes and what dtls_open_record makes of any input
    (dtls_record.cc; section 4.1 of RFC 6347). */
module DtlsRecord {
  import opened DtlsNumbers
  import opened DtlsReplay
  import opened DtlsWire
  import opened Octets
  import opened RecordTypes

  const RT_HEADER_LENGTH: nat := 13
  const MAX_ENCRYPTED_LENGTH: nat := 16384 + 320
  const VERSION_MAJOR: nat := 0xfe

  /** The read cipher: `open` stands for the AEAD, given the record's type, version, sequence bytes and body. */
  datatype Aead = Aead(nullCipher: bool, version: nat, open: (Byte, nat, Bytes, Bytes) -> Option<Bytes>)
  {
    predicate VersionOk(v: nat)
    {
      if nullCipher then v / 0x100 == VERSION_MAJOR else v == version
    }
  }

  datatype RecordVerdict = NoInput | Dropped | TooLong | Alerted | Opened

  datatype OpenResult = OpenResult(verdict: RecordVerdict, consumed: nat, ty: Byte, body: Bytes)

  /** What dtls_seal_record leaves in the packet. */
  function SealedBytes(ty: Byte, version: nat, p: (nat, nat), ciphertext: Bytes): (bs: Bytes)
    requires version < U16 && |ciphertext| < U16
    ensures |bs| == RT_HEADER_LENGTH + |ciphertext|
  {
    [ty] + Put16(version) + SequenceBytes(p) + Put16(|ciphertext|) + ciphertext
  }

  /** The length of the first record's body, if the header and the body are all there. */
  function BodyLength(input: Bytes): (n: Option<nat>)
    ensures n.Some? ==> RT_HEADER_LENGTH + n.value <= |input|
  {
    if |input| < RT_HEADER_LENGTH then None
    else
      var n := Get16(input[11], input[12]);
      if RT_HEADER_LENGTH + n > |input| || n > MAX_ENCRYPTED_LENGTH then None else Some(n)
  }

  /** dtls_open_record on a packet, and the replay filter afterwards. */
  ghost function OpenRecord(f: Filter, epoch: nat, aead: Aead, input: Bytes): (OpenResult, Filter)
  {
    var n := BodyLength(input);
    if input == [] then (OpenResult(NoInput, 0, 0, []), f)
    else if n.None? || !aead.VersionOk(Get16(input[1], input[2])) then (OpenResult(Dropped, |input|, 0, []), f)
    else
      var end := RT_HEADER_LENGTH + n.value;
      var number := BigEndian(input[3..11]);
      if Get16(input[3], input[4]) != epoch || Stale(f.seen, f.max, number) then
        (OpenResult(Dropped, end, 0, []), f)
      else
        match aead.open(input[0], Get16(input[1], input[2]), input[3..11], input[RT_HEADER_LENGTH..end])
        case None => (OpenResult(Dropped, end, 0, []), f)
        case Some(body) =>
          if |body| > MAX_PLAIN_LENGTH then (OpenResult(TooLong, end, 0, []), f)
          else if input[0] == RT_ALERT then (OpenResult(Alerted, end, RT_ALERT, body), f.Accept(number))
          else (OpenResult(Opened, end, input[0], body), f.Accept(number))
  }

  /** The number the replay window works with: the epoch above the 48-bit number. */
  function FullNumber(p: (nat, nat)): nat
  {
    BigEndian(SequenceBytes(p))
  }

  lemma {:induction false} BigEndianSplit(a: Bytes, b: Bytes)
    ensures BigEndian(a + b) == BigEndian(a) * Pow256(|b|) + BigEndian(b)
    decreases |b|
  {
    if b == [] {
      assert a + b == a;
    } else {
      var n := |b| - 1;
      BigEndianSplit(a, b[..n]);
      assert (a + b)[..|a + b| - 1] == a + b[..n];
      assert 256 * (BigEndian(a) * Pow256(n)) == BigEndian(a) * (256 * Pow256(n));
    }
  }

  lemma FullNumberIs(p: (nat, nat))
    requires p.0 < U16 && p.1 < U48
    ensures FullNumber(p) == p.0 * U48 + p.1
  {
    hide ToBytes;
    hide BigEndian;
    hide Pow256;
    Powers();
    BigEndianSplit(ToBytes(p.0, 2), ToBytes(p.1, 6));
    BigEndianToBytes(p.0, 2);
    BigEndianToBytes(p.1, 6);
  }

  lemma {:induction false} EpochBytes(e: nat)
    requires e < U16
    ensures Get16(ToBytes(e, 2)[0], ToBytes(e, 2)[1]) == e
  {
    assert ToBytes(e, 1) == [e % 256];
    assert ToBytes(e / 256, 1) == ToBytes(e / 256 / 256, 0) + [e / 256 % 256];
  }

  lemma SealedHeader(ty: Byte, version: nat, p: (nat, nat), ciphertext: Bytes, rest: Bytes)
    requires version < U16 && p.0 < U16 && |ciphertext| < U16
    ensures var bs := SealedBytes(ty, version, p, ciphertext) + rest;
            && bs[0] == ty && Get16(bs[1], bs[2]) == version && bs[3..11] == SequenceBytes(p)
            && Get16(bs[3], bs[4]) == p.0 && Get16(bs[11], bs[12]) == |ciphertext|
            && bs[RT_HEADER_LENGTH..RT_HEADER_LENGTH + |ciphertext|] == ciphertext
  {
    hide Get16;
    hide Put16;
    hide ToBytes;
    Get16Put16(version);
    Get16Put16(|ciphertext|);
    EpochBytes(p.0);
    var bs := SealedBytes(ty, version, p, ciphertext) + rest;
    assert bs[3..11] == SequenceBytes(p);
    assert bs[3] == SequenceBytes(p)[0] && bs[4] == SequenceBytes(p)[1];
  }

  /** A sealed record, wherever it stands in a packet, opens to its type and plaintext exactly once: it is
      consumed to its end and its number recorded, if the epoch is the reader's and the number not stale;
      otherwise it is dropped and nothing changes. */
  lemma SealedOpens(f: Filter, epoch: nat, aead: Aead, ty: Byte, version: nat, p: (nat, nat), ciphertext: Bytes,
                    plaintext: Bytes, rest: Bytes)
    requires version < U16 && p.0 < U16 && |ciphertext| <= MAX_ENCRYPTED_LENGTH && ty != RT_ALERT
    requires aead.VersionOk(version) && |plaintext| <= MAX_PLAIN_LENGTH
    requires aead.open(ty, version, SequenceBytes(p), ciphertext) == Some(plaintext)
    ensures var bs := SealedBytes(ty, version, p, ciphertext);
            OpenRecord(f, epoch, aead, bs + rest)
            == if p.0 == epoch && !Stale(f.seen, f.max, FullNumber(p))
            then (OpenResult(Opened, |bs|, ty, plaintext), f.Accept(FullNumber(p)))
            else (OpenResult(Dropped, |bs|, 0, []), f)
  {
    hide SealedBytes;
    hide Get16;
    hide BigEndian;
    hide SequenceBytes;
    hide Stale;
    SealedHeader(ty, version, p, ciphertext, rest);
  }

  /** dtls_open_record */
  method Open(bitmap: Bitmap, epoch: nat, aead: Aead, input: Bytes) returns (r: OpenResult)
    requires bitmap.Valid()
    modifies bitmap
    ensures bitmap.Valid()
    ensures (r, Filter(bitmap.seen, bitmap.maxSeqNum))
         == OpenRecord(Filter(old(bitmap.seen), old(bitmap.maxSeqNum)), epoch, aead, input)
  {
    hide Bitmap.Valid;
    hide Get16;
    hide BigEndian;
    hide Stale;
    if input == [] {
      return OpenResult(NoInput, 0, 0, []);
    }
    var n := BodyLength(input);
    if n.None? {
      return OpenResult(Dropped, |input|, 0, []);
    }
    var end := RT_HEADER_LENGTH + n.value;
    var version := Get16(input[1], input[2]);
    if !aead.VersionOk(version) {
      return OpenResult(Dropped, |input|, 0, []);
    }
    var sequence := new Byte[8](i requires 0 <= i < 8 => input[3 + i]);
    assert sequence[..] == input[3..11];
    var stale := bitmap.ShouldDiscard(sequence);
    if Get16(input[3], input[4]) != epoch || stale {
      return OpenResult(Dropped, end, 0, []);
    }
    var out := aead.open(input[0], version, input[3..11], input[RT_HEADER_LENGTH..end]);
    if out.None? {
      return OpenResult(Dropped, end, 0, []);
    }
    if |out.value| > MAX_PLAIN_LENGTH {
      return OpenResult(TooLong, end, 0, []);
    }
    bitmap.Record(sequence);
    return OpenResult(if input[0] == RT_ALERT then Alerted else Opened, end, input[0], out.value);
  }
}
