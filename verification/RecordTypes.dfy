/** Record types and limits that TLS and DTLS share (sections 6.2.1 and 7.1 of RFC 5246). */
module RecordTypes {
  import opened Octets

  const RT_CCS: Byte := 20
  const RT_ALERT: Byte := 21
  const RT_HANDSHAKE: Byte := 22
  const RT_APPLICATION: Byte := 23
  /** SSL3_MT_CCS, the whole body of a ChangeCipherSpec. */
  const CCS_BODY: Bytes := [1]
  const MAX_PLAIN_LENGTH: nat := 16384
}
