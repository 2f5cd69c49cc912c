/** DTLS handshake fragments as bytes (dtls1_parse_fragment, dtls1_init_message; section 4.2.2 of RFC 6347). */
module DtlsWire {
  import opened Octets

  const HM_HEADER_LENGTH: nat := 12
  const U24: nat := 0x100_0000

  /** hm_header_st */
  datatype Header = Header(ty: Byte, msgLen: nat, seqNo: nat, fragOff: nat, fragLen: nat)
  {
    predicate Fits() { msgLen < U24 && seqNo < U16 && fragOff < U24 && fragLen < U24 }
  }

  /** One handshake fragment: a header and fragLen bytes. */
  datatype Fragment = Fragment(hdr: Header, body: Bytes)
  {
    predicate Fits() { hdr.Fits() && |body| == hdr.fragLen }
  }

  function Put16(n: nat): (bs: Bytes)
    requires n < U16
    ensures |bs| == 2
  {
    [n / 0x100, n % 0x100]
  }

  function Put24(n: nat): (bs: Bytes)
    requires n < U24
    ensures |bs| == 3
  {
    [n / 0x1_0000, n / 0x100 % 0x100, n % 0x100]
  }

  function Get16(a: Byte, b: Byte): (n: nat)
    ensures n < U16
  {
    0x100 * a + b
  }

  function Get24(a: Byte, b: Byte, c: Byte): (n: nat)
    ensures n < U24
  {
    0x1_0000 * a + 0x100 * b + c
  }

  lemma Get16Put16(n: nat)
    requires n < U16
    ensures Get16(Put16(n)[0], Put16(n)[1]) == n
  {
  }

  lemma Get24Put24(n: nat)
    requires n < U24
    ensures Get24(Put24(n)[0], Put24(n)[1], Put24(n)[2]) == n
  {
  }

  function EncodeHeader(h: Header): (bs: Bytes)
    requires h.Fits()
    ensures |bs| == HM_HEADER_LENGTH
  {
    [h.ty] + Put24(h.msgLen) + Put16(h.seqNo) + Put24(h.fragOff) + Put24(h.fragLen)
  }

  function EncodeFragment(f: Fragment): (bs: Bytes)
    requires f.Fits()
    ensures |bs| == HM_HEADER_LENGTH + |f.body|
  {
    EncodeHeader(f.hdr) + f.body
  }

  /** dtls1_parse_fragment: a fragment and what follows it. */
  function ParseFragment(bs: Bytes): (r: Option<(Fragment, Bytes)>)
    ensures r.Some? ==> r.value.0.Fits() && |r.value.1| < |bs|
  {
    if |bs| < HM_HEADER_LENGTH then None
    else
      var h := Header(bs[0], Get24(bs[1], bs[2], bs[3]), Get16(bs[4], bs[5]),
                      Get24(bs[6], bs[7], bs[8]), Get24(bs[9], bs[10], bs[11]));
      if |bs| < HM_HEADER_LENGTH + h.fragLen then None
      else Some((Fragment(h, bs[HM_HEADER_LENGTH..HM_HEADER_LENGTH + h.fragLen]), bs[HM_HEADER_LENGTH + h.fragLen..]))
  }

  lemma HeaderBytes(h: Header, rest: Bytes)
    requires h.Fits()
    ensures var bs := EncodeHeader(h) + rest;
            && bs[0] == h.ty && Get24(bs[1], bs[2], bs[3]) == h.msgLen && Get16(bs[4], bs[5]) == h.seqNo
            && Get24(bs[6], bs[7], bs[8]) == h.fragOff && Get24(bs[9], bs[10], bs[11]) == h.fragLen
  {
    hide Get24;
    hide Get16;
    hide Put24;
    hide Put16;
    Get24Put24(h.msgLen);
    Get16Put16(h.seqNo);
    Get24Put24(h.fragOff);
    Get24Put24(h.fragLen);
  }

  /** Parsing gives back the fragment that was written and leaves what follows. */
  lemma ParseEncoded(f: Fragment, rest: Bytes)
    requires f.Fits()
    ensures ParseFragment(EncodeFragment(f) + rest) == Some((f, rest))
  {
    hide EncodeHeader;
    hide Get24;
    hide Get16;
    var bs := EncodeFragment(f) + rest;
    assert bs == EncodeHeader(f.hdr) + (f.body + rest);
    HeaderBytes(f.hdr, f.body + rest);
    assert bs[HM_HEADER_LENGTH..HM_HEADER_LENGTH + f.hdr.fragLen] == f.body;
    assert bs[HM_HEADER_LENGTH + f.hdr.fragLen..] == rest;
  }

  /** dtls1_init_message leaves the message length zero; dtls1_finish_message copies the length prefix
      of the body over it. */
  function InitMessage(ty: Byte, seqNo: nat, body: Bytes): Bytes
    requires seqNo < U16 && |body| < U24
  {
    EncodeFragment(Fragment(Header(ty, 0, seqNo, 0, |body|), body))
  }

  function FinishMessage(data: Bytes): Bytes
    requires |data| >= HM_HEADER_LENGTH
  {
    data[..1] + data[HM_HEADER_LENGTH - 3..HM_HEADER_LENGTH] + data[4..]
  }

  /** A finished message is one fragment that covers its whole body. */
  lemma FinishedIsWhole(ty: Byte, seqNo: nat, body: Bytes)
    requires seqNo < U16 && |body| < U24
    ensures FinishMessage(InitMessage(ty, seqNo, body))
         == EncodeFragment(Fragment(Header(ty, |body|, seqNo, 0, |body|), body))
  {
    var data := InitMessage(ty, seqNo, body);
    assert data[HM_HEADER_LENGTH - 3..HM_HEADER_LENGTH] == Put24(|body|);
  }
}
