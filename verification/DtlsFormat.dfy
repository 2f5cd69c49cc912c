/** The bytes of DTLS records and handshake fragments, in numerals (sections 4.1 and 4.2.2 of RFC 6347). */
module DtlsFormat {
  import opened DtlsNumbers
  import opened DtlsRecord
  import opened DtlsReplay
  import opened DtlsWire
  import opened Octets
  import opened RecordTypes

  /** A fragment is the type, the length of the message in three bytes, its number in two, the offset and the length of the
      fragment in three each, and the body; all of them most significant byte first. */
  lemma FragmentLayout(f: Fragment)
    requires f.Fits()
    ensures var h := f.hdr;
            EncodeFragment(f)
            == [h.ty, h.msgLen / 0x1_0000, h.msgLen / 0x100 % 0x100, h.msgLen % 0x100, h.seqNo / 0x100, h.seqNo % 0x100,
                h.fragOff / 0x1_0000, h.fragOff / 0x100 % 0x100, h.fragOff % 0x100,
                |f.body| / 0x1_0000, |f.body| / 0x100 % 0x100, |f.body| % 0x100] + f.body
  {
  }

  /** A fragment is read exactly if twelve bytes are there and as many more as the last three of them say. */
  lemma FragmentReads(bs: Bytes)
    ensures ParseFragment(bs).Some? <==>
      |bs| >= 12 && 12 + 0x1_0000 * (bs[9] as int) + 0x100 * (bs[10] as int) + bs[11] as int <= |bs|
    ensures ParseFragment(bs).Some? ==>
      var (f, rest) := ParseFragment(bs).value;
      && f.hdr.ty == bs[0] && f.hdr.msgLen == 0x1_0000 * (bs[1] as int) + 0x100 * (bs[2] as int) + bs[3] as int
      && f.hdr.seqNo == 0x100 * (bs[4] as int) + bs[5] as int
      && f.hdr.fragOff == 0x1_0000 * (bs[6] as int) + 0x100 * (bs[7] as int) + bs[8] as int
      && f.hdr.fragLen == |f.body| && bs == bs[..12] + f.body + rest
  {
  }

  /** The number that eight bytes are, most significant first. */
  lemma {:induction false} EightBytes(b: Bytes)
    requires |b| == 8
    ensures BigEndian(b)
         == 0x100_0000_0000_0000 * (b[0] as int) + 0x1_0000_0000_0000 * (b[1] as int) + 0x100_0000_0000 * (b[2] as int)
            + 0x1_0000_0000 * (b[3] as int) + 0x100_0000 * (b[4] as int) + 0x1_0000 * (b[5] as int) + 0x100 * (b[6] as int)
            + b[7] as int
  {
    assert BigEndian(b[..0]) == 0;
    hide BigEndian;
    FourMore(b, 0);
    FourMore(b, 4);
    assert b[..8] == b;
  }

  lemma {:induction false} Shifted(b: Bytes, k: nat)
    requires k < |b|
    ensures BigEndian(b[..k + 1]) == 0x100 * BigEndian(b[..k]) + b[k]
  {
    assert b[..k + 1][..k] == b[..k];
  }

  lemma {:induction false} TwoMore(b: Bytes, k: nat)
    requires k + 2 <= |b|
    ensures BigEndian(b[..k + 2]) == 0x1_0000 * BigEndian(b[..k]) + 0x100 * (b[k] as int) + b[k + 1] as int
  {
    hide BigEndian;
    Shifted(b, k);
    Shifted(b, k + 1);
  }

  lemma {:induction false} FourMore(b: Bytes, k: nat)
    requires k + 4 <= |b|
    ensures BigEndian(b[..k + 4])
         == 0x1_0000_0000 * BigEndian(b[..k]) + 0x100_0000 * (b[k] as int) + 0x1_0000 * (b[k + 1] as int)
            + 0x100 * (b[k + 2] as int) + b[k + 3] as int
  {
    hide BigEndian;
    TwoMore(b, k);
    TwoMore(b, k + 2);
  }

  /** A sealed record is the type, the version in two bytes, the epoch in two and the number in six, the length in two, and
      what was sealed; all of them most significant byte first. */
  lemma RecordLayout(ty: Byte, version: nat, p: (nat, nat), ciphertext: Bytes)
    requires version < U16 && p.0 < U16 && p.1 < U48 && |ciphertext| < U16
    ensures var bs := SealedBytes(ty, version, p, ciphertext);
            && |bs| == 13 + |ciphertext| && bs[0] == ty && 0x100 * (bs[1] as int) + bs[2] as int == version
            && 0x100_0000_0000_0000 * (bs[3] as int) + 0x1_0000_0000_0000 * (bs[4] as int) + 0x100_0000_0000 * (bs[5] as int)
               + 0x1_0000_0000 * (bs[6] as int) + 0x100_0000 * (bs[7] as int) + 0x1_0000 * (bs[8] as int)
               + 0x100 * (bs[9] as int) + bs[10] as int == 0x1_0000_0000_0000 * p.0 + p.1
            && 0x100 * (bs[11] as int) + bs[12] as int == |ciphertext| && bs[13..] == ciphertext
  {
    hide BigEndian;
    hide SequenceBytes;
    EightBytes(SequenceBytes(p));
    FullNumberIs(p);
    var bs, b := SealedBytes(ty, version, p, ciphertext), SequenceBytes(p);
    assert forall i :: 0 <= i < 8 ==> bs[3 + i] == b[i];
    assert bs[3] == b[0] && bs[4] == b[1] && bs[5] == b[2] && bs[6] == b[3];
    assert bs[7] == b[4] && bs[8] == b[5] && bs[9] == b[6] && bs[10] == b[7];
  }
}
