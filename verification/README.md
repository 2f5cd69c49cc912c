# Verification of the vendored network core

The application in this repository talks to its servers through two vendored libraries: BoringSSL, for TLS and
DTLS, and nanopb, a table-driven Protocol Buffers codec. This project models the parts of both in which state,
arithmetic and protocol meet, and proves what they promise. `dafny verify dfyconfig.toml` checks it.

**nanopb** (`Pb*.dfy`). A descriptor table is a datatype with the table's own delta-coded offsets, a message a tree
of slots. `PbModel` and `PbParse` say what encoding and decoding mean on byte sequences; `PbEncode` and `PbDecode`
are the stream classes and loops of the library, proved to do exactly that, including failure; `PbCommon` is the
wrap-around iterator and the bitmap of required fields. The main results: decoding undoes encoding at every nesting
depth; the counting pass and the writing pass of submessages and packed arrays agree byte for byte; unknown records,
the interleaving of fields and the packing of arrays do not matter; the 32-bit varint reader agrees with the 64-bit
one, and accepts exactly the values stated; no input takes a decoded value out of its storage. `PbFormat` states the
bytes themselves, in numerals and without the model's own constants; `PbMerge` what repeating, leaving out or ending
records does; `PbUnions` that one member of a union at most is set; `PbObserve` what a program sees and when encoding
fails; `PbEvolution` that tables may grow at the end; `PbTruncation` that a message cut short is refused.

**DTLS handshake transport** (`Dtls*.dfy`). `DtlsReassembly` is the fragment buffer with its bit map, `DtlsReceive`
the ring of seven partly received messages, `DtlsReplay` the 64-bit window, `DtlsRecord` and `DtlsNumbers` the record
header, the counters and the nonces, `DtlsSend` and `DtlsSender` the flight with its two-part cursor. `DtlsSystem`
joins a sender and a receiver by a network that loses, duplicates and reorders records, and proves that the whole is
a first-in first-out queue; `DtlsAvailability` says exactly when a message can be taken, `DtlsProgress` when a flight
goes out, `DtlsFresh` that every record has a number of its own, `DtlsFailure` what a failure to seal leaves behind,
and `DtlsRecovery` that a retransmission over a good transport always makes the next message available. `DtlsOpen`,
`DtlsVerdicts` and `DtlsFlights` say for every state and every input what becomes of a record, a fragment and an item
added to a flight: which ends the connection and with what alert, which is passed over, which the replay window notes.
`DtlsFormat` states the bytes of records and fragments in numerals.

**TLS output** (`TlsBuffer`, `TlsOutput`, `TlsSending`, `TlsWrite`, `TlsMessages`). Sealed records wait in a write
buffer and a pending flight; however writes block, what the transport took, the buffer and the flight stay all sealed
bytes in order, exactly as long as the write buffer keeps within reach of its 16-bit offset, and application bytes
are sealed once. `TlsSending` is the writing of application data as a function, to which `TlsWrite` is proved equal:
it says when a write succeeds and every reason for which it does not.

**TLS 1.0 to 1.2 handshakes** (`TlsClient`, `TlsServer`, their `...Machine`, `...Verdicts` and `...Transcript`,
`Tls...Script`, `TlsHandshake`, `TlsRefusal`, `TlsCipher`). Cryptography is symbolic: a Finished or a signature is
the list of messages it covers. Each machine is safe against any peer, and one that is done has read, hashed and sent
exactly the messages its flags call for, in their order; the two together, with agreed flags, never meet an
unexpected message, never get stuck, and end with the same transcript. What a side composes waits in its pending
flight until the driver has flushed it, and a flush may block or send a part.

Each class is proved against a specification on values (its `Model()`), and the theorems are about that
specification and about runs of it. The handlers of the two machine classes, one for each state, are proved to update
their fields as the functions of the same names in `TlsClient` and `TlsServer` update a value; what the states
guarantee is in `StepSound`, `RunIsSafe`, `ClientFollows` and `ServerFollows`.

## What was found

- `dtls1_open_handshake` lets the message number seven ahead of the next one through its own check
  (`d1_both.cc:380-382`), and `dtls1_get_incoming_message` then makes it an error (lines 267-268). `BeyondWindow`
  states it as an if-and-only-if; flights of at most seven messages, which the sender enforces, never meet it.
- When sealing fails in the middle of a packet, the cursor keeps the messages already sealed in that packet as if
  they had been sent (`d1_both.cc:739-780`). `ConservedAlwaysIff` says for which lengths, MTU and cursor that can
  happen, `FailureSkips` gives a case.
- `w_epoch` is a 16-bit counter nobody checks: from 65536 cipher changes on a record number can come again.
  `NumbersNeverRepeat` is the exact bound of the counter; no handshake of this code makes that many changes.
- `SSLBuffer::Consume` adds to a 16-bit offset (`ssl_buffer.cc:90-97`): contents that end past 2^16 behind the start
  of the block can lose sight of their rest (`KeepsRestIff`). `do_ssl3_write` comes there when the pending flight and
  the record with its overhead are between 65530 and 65535 bytes and the block begins at an unlucky address; more is
  refused by `EnsureCap`, and nothing is lost. `WriteConservedIff` is the exact condition, `LosesBytes` a case.
- `ssl3_choose_cipher` misses a cipher when the last group flag is set. `ScanIsChoiceIff` is the exact condition.
- The nanopb encoder writes a string that fills its storage, which the decoder then refuses for want of a
  terminator. `StringNeedsTerminator` is the exact condition.
- nanopb merges a submessage that comes in two records, but checks the required fields of each record by itself
  (`pb_decode.c:1002-1044`), so that two parts of a message that has required fields are refused where their
  concatenation is taken. `SubmessagesMerge` is the exact condition.
- `pb_field_iter_find` on an empty table finds the terminator's tag 0; the decoder asks for it when a key has
  field number 0, and then fails (`FieldNumberZero`).
- `decode_static_field` counts a single array element before it knows that it fits: after the failure the count stands
  one past the array (`pb_decode.c:458-459`). `CountAfterDecode` says exactly when.

## Model

| member | source | states |
|---|---|---|
| PbVarint.VarintRoundTrip | UIAdvanced/Pods/nanopb/pb_encode.c:574-594 | for every 64-bit v and whatever follows it, the 64-bit decoder reads the encoded v back and leaves exactly what follows |
| PbVarint.Varint32RoundTrip | UIAdvanced/Pods/nanopb/pb_decode.c:182-242 | the same for the 32-bit decoder and every v below 2^32 |
| PbVarint.Varint32Agrees | UIAdvanced/Pods/nanopb/pb_decode.c:182-271 | on every stream both decoders accept, they consume the same bytes and the 32-bit result is the 64-bit result mod 2^32 |
| PbVarint.Varint32Accepts | UIAdvanced/Pods/nanopb/pb_decode.c:205-237 | the 32-bit decoder accepts the encoding of a 64-bit v iff v < 2^32 or v has bits 31 and 63 set and each seven-bit group at 35, 42, 49, 56 all zeros or all ones |
| PbVarint.TailIsSignExtended | UIAdvanced/Pods/nanopb/pb_decode.c:216-226 | the byte-by-byte test of the high groups is that condition on the value, both ways |
| PbRoundTrip.MessageRoundTrip | UIAdvanced/Pods/nanopb/pb_encode.c:494-516 | for every well-formed table and storable message tree, encoding succeeds and decoding its bytes returns the same message, up to the contents of absent fields, with every byte consumed and every required field seen |
| PbRoundTrip.FieldRoundTrip | UIAdvanced/Pods/nanopb/pb_encode.c:307-392 | after the encoding of field k the decoder stands where it would after the first k+1 fields, whatever follows: required, optional, proto3 singular, repeated, oneof or nested |
| PbRoundTrip.ArrayRoundTrip | UIAdvanced/Pods/nanopb/pb_encode.c:126-211 | the same for a repeated field, packed or not |
| PbRoundTrip.ElementsRoundTrip | UIAdvanced/Pods/nanopb/pb_encode.c:183-206 | elements under their own tags are appended to the array one by one, in order |
| PbRoundTrip.PackedRoundTrip | UIAdvanced/Pods/nanopb/pb_decode.c:425-450 | the packed loop appends exactly the encoded elements to those already there |
| PbRoundTrip.ValueRoundTrip | UIAdvanced/Pods/nanopb/pb_decode.c:1463-1485 | one value of any type, a submessage included, reads back as it was written and leaves what follows it |
| PbRoundTrip.ScalarRoundTrip | UIAdvanced/Pods/nanopb/pb_encode.c:734-808 | integers of every declared size, signed, unsigned, zigzag and fixed, read back |
| PbRoundTrip.StringRoundTrip | UIAdvanced/Pods/nanopb/pb_decode.c:1391-1461 | bytes, strings and fixed-length bytes that fit their storage read back |
| PbRoundTrip.StringNeedsTerminator | UIAdvanced/Pods/nanopb/pb_decode.c:1428-1461 | an encoded string can be decoded into the same field iff it is shorter than the storage; the encoder also takes one that fills it |
| PbRoundTrip.ZeroIsDefault | UIAdvanced/Pods/nanopb/pb_encode.c:215-303 | a value the encoder leaves out as zero is the value the decoder presets |
| PbRoundTrip.AllAbsentIsDefault | UIAdvanced/Pods/nanopb/pb_encode.c:254-268 | a submessage whose every field is left out is the default message |
| PbRoundTrip.ZigZagInverse | UIAdvanced/Pods/nanopb/pb_decode.c:1240-1252 | zigzag of every signed 64-bit number fits 64 bits and is undone |
| PbRoundTrip.FindItself | UIAdvanced/Pods/nanopb/pb_common.c:78-95 | with distinct tags the search for a tag ends at the field that carries it |
| PbWire.DecodeRecords | UIAdvanced/Pods/nanopb/pb_decode.c:919-1049 | decoding a stream of whole records is applying them one by one to the default message, then the check for required fields |
| PbWire.UnknownFieldsIgnored | UIAdvanced/Pods/nanopb/pb_decode.c:931-958 | records with unlisted tags, anywhere and of any wire type, change neither the message nor whether decoding succeeds |
| PbWire.SkipWhole | UIAdvanced/Pods/nanopb/pb_decode.c:316-326 | skipping a whole payload of any of the four wire types leaves exactly what follows it |
| PbWire.ApplyCommutes | UIAdvanced/Pods/nanopb/pb_decode.c:401-475 | two records of different fields (of different unions) may be swapped |
| PbWire.OrderIrrelevant | UIAdvanced/Pods/nanopb/pb_decode.c:919-997 | two lists of records that agree field by field lead to the same message and the same set of required fields, or both fail |
| PbWire.InterleavingIrrelevant | UIAdvanced/Pods/nanopb/pb_decode.c:919-1049 | streams that interleave the same per-field lists differently decode to the same result |
| PbWire.StreamsAgree | UIAdvanced/Pods/nanopb/pb_decode.c:919-1049 | streams whose listed records agree field by field decode to the same result, however those are interleaved and whatever unlisted records stand among them |
| PbWire.UnionOrderMatters | UIAdvanced/Pods/nanopb/pb_decode.c:461-468 | members of one union are where order matters: any two set in either order give different messages |
| PbWire.ChunkAppends | UIAdvanced/Pods/nanopb/pb_decode.c:419-459 | a packed chunk or a single element appends its values iff they still fit the array |
| PbWire.PackedOverflows | UIAdvanced/Pods/nanopb/pb_decode.c:425-450 | a chunk with more elements than are left in the array fails |
| PbWire.PackingEquivalence | UIAdvanced/Pods/nanopb/pb_decode.c:419-459 | any mix of packed chunks and single elements gives the array of all their values in order, and succeeds iff they fit |
| PbMerge.SubmessagesMerge | UIAdvanced/Pods/nanopb/pb_decode.c:1463-1485 | two records for one required or optional submessage do what one record with both payloads does, for all whole payloads and from any message, except that each has to bring the required fields: the second is read into what the first left |
| PbMerge.EntryStartsAfresh | UIAdvanced/Pods/nanopb/pb_decode.c:1475-1480 | an array entry or a union member that is a submessage is what pb_decode makes of its own payload, whatever was there |
| PbMerge.LastValueWins | UIAdvanced/Pods/nanopb/pb_decode.c:401-475 | any other single value replaces the one before it: neither the result nor success depends on what the slot held |
| PbMerge.RequiredMustBeSent | UIAdvanced/Pods/nanopb/pb_decode.c:1002-1044 | a stream of whole records decodes iff each can be applied and each of the first 64 required fields has a record |
| PbMerge.UnsentStaysUntouched | UIAdvanced/Pods/nanopb/pb_decode.c:812-895 | a field for which, and for whose union, no record came is empty, unset, or at the default of the table, at every depth |
| PbMerge.ZeroEndsMessage | UIAdvanced/Pods/nanopb/pb_decode.c:293-314 | a zero byte where a key should be ends the message, with the same result as the end of the stream, and leaves what follows it |
| PbUnions.DecodedOneEach | UIAdvanced/Pods/nanopb/pb_decode.c:461-468 | whatever bytes are accepted, at most one member of each union is set, in the message and in every message inside it |
| PbUnions.RecordSets | UIAdvanced/Pods/nanopb/pb_decode.c:401-475 | a record for a listed field sets it, unsets the other members of its union, and leaves every other field as it was, in any table and any message |
| PbUnions.FieldNumberZero | UIAdvanced/Pods/nanopb/pb_decode.c:932-958 | a key with field number 0 and a wire type fails in an empty table, whose terminator it matches, and is skipped like any unlisted one elsewhere |
| PbFormat.VarintDigits | UIAdvanced/Pods/nanopb/pb_encode.c:574-594 | an encoded number is its base-128 digits, least significant first, none too many, with the top bit on all but the last |
| PbFormat.FixedBytes | UIAdvanced/Pods/nanopb/pb_encode.c:607-632 | fixed-width integers take exactly four or eight bytes, least significant first |
| PbFormat.VarintBytes | UIAdvanced/Pods/nanopb/pb_encode.c:734-783 | a negative int32 or int64 is written as the 64-bit number congruent to it, a sint as twice its size, less one if it is negative |
| PbFormat.TextBytes | UIAdvanced/Pods/nanopb/pb_encode.c:810-868 | bytes are written as their count and themselves, refused iff they and a four-byte count are over their storage; a string as the bytes before its first NUL, or as many as fill the buffer |
| PbFormat.SignedReads | UIAdvanced/Pods/nanopb/pb_decode.c:1289-1324 | an int64 is the signed number congruent modulo 2^64 to what was sent, a shorter signed field the one modulo 2^32, and it fails iff that does not fit the field |
| PbFormat.UnsignedReads | UIAdvanced/Pods/nanopb/pb_decode.c:1326-1372 | unsigned and zigzag fields take exactly what fits them |
| PbFormat.TextReads | UIAdvanced/Pods/nanopb/pb_decode.c:1391-1508 | bytes need four bytes of storage more, a string one; bytes of fixed length have that length, or come empty and are zeros |
| PbFormat.TenBytesAtMost | UIAdvanced/Pods/nanopb/pb_decode.c:250-270 | a varint of more than ten bytes fails |
| PbFormat.SkipExactly | UIAdvanced/Pods/nanopb/pb_decode.c:316-326 | skipping at wire type 0, 1, 2 and 5 leaves exactly what follows a varint, 8 bytes, a length and as many bytes, and 4 bytes; every other wire type fails |
| PbFormat.SkipFails | UIAdvanced/Pods/nanopb/pb_decode.c:316-326 | skipping fails iff no item of the wire type stands there |
| PbFormat.SlotRecords | UIAdvanced/Pods/nanopb/pb_encode.c:126-211 | a field is encoded as records whose key is 8 * tag + 0, 1, 2 or 5 by its type, each followed by one item of that wire type: none if it is absent, one for each element of an array that cannot be packed, else one |
| PbFormat.MessageRecords | UIAdvanced/Pods/nanopb/pb_encode.c:637-672 | the encoding of a message is a list of such records, each of a field of the table |
| PbEvolution.EncodeJoin | UIAdvanced/Pods/nanopb/pb_encode.c:494-516 | fields are written in the order of the table: the encoding of a message is that of its first fields and then that of the others, wherever it is divided |
| PbObserve.RoundTripIsSame | UIAdvanced/Pods/nanopb/pb_encode.c:494-516 | a program that decodes what another encoded sees the same message: the same flags, array elements, strings up to their NUL, and values wherever they count |
| PbObserve.EncodesIff | UIAdvanced/Pods/nanopb/pb_encode.c:126-133 | encoding without a limit fails iff, in something that is not left out, an array has more elements than entries or bytes are longer than their storage |
| PbObserve.SingularLeftOut | UIAdvanced/Pods/nanopb/pb_encode.c:215-303 | a proto3 singular integer, byte string or string takes no bytes iff a program sees zero or nothing in it |
| PbObserve.DefaultTakesNothing | UIAdvanced/Pods/nanopb/pb_encode.c:215-303 | a message at its defaults takes no bytes if nothing in it is required or has a default of its own |
| PbEvolution.OldReader | UIAdvanced/Pods/nanopb/pb_decode.c:931-958 | a reader whose table is the first part of the writer's reads the message as if the other fields had never been there |
| PbEvolution.NewReader | UIAdvanced/Pods/nanopb/pb_decode.c:812-895 | a reader whose table goes on after the writer's finds the other fields at their defaults |
| PbTruncation.CutShortFails | UIAdvanced/Pods/nanopb/pb_decode.c:901-1049 | a stream of whole records that breaks off inside the last one fails, whatever the table and wherever it breaks off |
| PbSafety.MessageHeld | UIAdvanced/Pods/nanopb/pb_decode.c:901-1049 | whatever bytes arrive, a decoded message stays within its storage: strings with their terminator, byte arrays, array counts, integer widths, at every depth |
| PbSafety.SlotHeld | UIAdvanced/Pods/nanopb/pb_decode.c:401-475 | the same for one field |
| PbSafety.ValueHeld | UIAdvanced/Pods/nanopb/pb_decode.c:1289-1508 | the same for one value |
| PbSafety.ScalarHeld | UIAdvanced/Pods/nanopb/pb_decode.c:1289-1389 | an integer the decoder accepts fits the declared size |
| PbSafety.DefaultHeld | UIAdvanced/Pods/nanopb/pb_decode.c:812-895 | the message set to defaults stays within its storage |
| PbCommon.FieldIter.Begin | UIAdvanced/Pods/nanopb/pb_common.c:8-18 | the iterator stands at the first field; fails iff the table is empty |
| PbCommon.FieldIter.Next | UIAdvanced/Pods/nanopb/pb_common.c:20-76 | goes to the next field and wraps at the end, keeping the invariant that pData is the field's absolute offset and required_field_index the number of required fields before it |
| PbCommon.FieldIter.Advance | UIAdvanced/Pods/nanopb/pb_common.c:28-75 | the delta arithmetic, union members included, lands on the absolute offsets |
| PbCommon.FieldIter.Find | UIAdvanced/Pods/nanopb/pb_common.c:78-95 | from any position, succeeds iff some field (or the terminator of an empty table) carries the tag, and then stands on such a field; otherwise it comes back to where it was |
| PbCommon.WordFull | UIAdvanced/Pods/nanopb/pb_decode.c:1025-1042 | a word of the bitmap equals the mask of its first k bits iff those k fields were seen |
| PbCommon.RequiredBitmap.Mark | UIAdvanced/Pods/nanopb/pb_decode.c:988-993 | setting the bit makes the two words stand for the seen set with the field added, of which they hold the first 64 |
| PbCommon.RequiredBitmap.Complete | UIAdvanced/Pods/nanopb/pb_decode.c:1020-1044 | the word and remainder checks pass iff each of the first min(n, 64) required fields was seen |
| PbEncode.OStream.Write | UIAdvanced/Pods/nanopb/pb_encode.c:101-119 | writes all or nothing: succeeds iff it fits, appends exactly the bytes, leaves earlier memory alone; a counting stream always succeeds |
| PbEncode.OStream.BufWrite | UIAdvanced/Pods/nanopb/pb_encode.c:72-82 | copies the bytes to the position and moves past them |
| PbEncode.EncodeVarint | UIAdvanced/Pods/nanopb/pb_encode.c:574-594 | on a stream of either kind, succeeds iff the varint fits and appends exactly it |
| PbEncode.EncodeSvarint | UIAdvanced/Pods/nanopb/pb_encode.c:596-605 | the same for the zigzag varint of a signed number |
| PbEncode.EncodeFixed32 | UIAdvanced/Pods/nanopb/pb_encode.c:607-616 | the same for four little-endian bytes |
| PbEncode.EncodeFixed64 | UIAdvanced/Pods/nanopb/pb_encode.c:619-632 | the same for eight little-endian bytes |
| PbEncode.EncodeTag | UIAdvanced/Pods/nanopb/pb_encode.c:635-639 | the same for the key of a field |
| PbEncode.EncodeString | UIAdvanced/Pods/nanopb/pb_encode.c:674-680 | the same for a length and the bytes behind it |
| PbEncode.EncodeScalar | UIAdvanced/Pods/nanopb/pb_encode.c:734-808 | the same for one integer of the field's type |
| PbEncode.EncodeText | UIAdvanced/Pods/nanopb/pb_encode.c:810-868 | the same for bytes, strings and fixed-length bytes; bytes longer than their storage fail |
| PbEncode.EncodeSubmessage | UIAdvanced/Pods/nanopb/pb_encode.c:682-730 | the counting pass, the length and the writing pass together append exactly the length-delimited message, and succeed iff it encodes and fits |
| PbEncode.WriteThrough | UIAdvanced/Pods/nanopb/pb_encode.c:704-730 | the writing pass through a substream of the counted size never fails: it writes exactly what was counted, so the two failures about a changed size cannot happen |
| PbEncode.PackedSize | UIAdvanced/Pods/nanopb/pb_encode.c:146-171 | the counted size of a packed array is the length of its elements |
| PbEncode.EncodePacked | UIAdvanced/Pods/nanopb/pb_encode.c:140-181 | tag, length and elements of a packed array, all or a failure iff they do not fit |
| PbEncode.EncodeElements | UIAdvanced/Pods/nanopb/pb_encode.c:183-206 | every element under its own tag, in order; fails iff an element does not encode or fit |
| PbEncode.EncodeArray | UIAdvanced/Pods/nanopb/pb_encode.c:126-211 | nothing for an empty array, a failure for one too long, else one of the two forms |
| PbEncode.CheckZero | UIAdvanced/Pods/nanopb/pb_encode.c:242-302 | decides exactly whether a value is the zero of its type: an empty text, a number zero, a submessage with every field left out |
| PbEncode.CheckAbsent | UIAdvanced/Pods/nanopb/pb_encode.c:215-303 | the check decides exactly whether the field is left out |
| PbEncode.CheckAllAbsent | UIAdvanced/Pods/nanopb/pb_encode.c:254-268 | the loop over a submessage decides whether all of its fields are left out |
| PbEncode.EncodeField | UIAdvanced/Pods/nanopb/pb_encode.c:307-392 | appends exactly the field's encoding, by its presence rule |
| PbEncode.Encode | UIAdvanced/Pods/nanopb/pb_encode.c:494-516 | with either kind of stream: succeeds iff the message encodes and fits, and appends exactly the concatenation of its fields, so that counting and writing agree at every depth; what that is byte for byte is `PbFormat.MessageRecords` |
| PbDecode.IStream.Read | UIAdvanced/Pods/nanopb/pb_decode.c:100-132 | takes exactly count bytes iff there are that many |
| PbDecode.IStream.ReadByte | UIAdvanced/Pods/nanopb/pb_decode.c:136-152 | takes one byte iff there is one |
| PbDecode.DecodeVarint64 | UIAdvanced/Pods/nanopb/pb_decode.c:250-270 | the loop of shifts and ORs decodes the varint and leaves what follows; fails iff there is none |
| PbDecode.DecodeVarint32Eof | UIAdvanced/Pods/nanopb/pb_decode.c:182-242 | the loop with its eight-bit shift counter computes the 32-bit reading; end of stream is reported only before the first byte |
| PbDecode.SkipVarint | UIAdvanced/Pods/nanopb/pb_decode.c:273-282 | skips to behind the first byte without a continuation bit |
| PbDecode.SkipString | UIAdvanced/Pods/nanopb/pb_decode.c:284-291 | skips a length and as many bytes |
| PbDecode.Skip | UIAdvanced/Pods/nanopb/pb_decode.c:316-326 | skips one payload of the given wire type, fails on others; in numerals that is `PbFormat.SkipExactly` |
| PbDecode.MakeSubstream | UIAdvanced/Pods/nanopb/pb_decode.c:367-380 | the substream sees exactly the payload and the parent keeps exactly what follows; fails iff the length is bad or too large |
| PbDecode.CloseSubstream | UIAdvanced/Pods/nanopb/pb_decode.c:382-395 | closing puts the parent behind prefix and payload whatever was read of it |
| PbDecode.DecodeFixed | UIAdvanced/Pods/nanopb/pb_decode.c:1254-1286 | little-endian bytes to a number |
| PbDecode.DecodeScalar | UIAdvanced/Pods/nanopb/pb_decode.c:1289-1389 | one integer by its type and size; an integer that does not fit fails |
| PbDecode.DecodeText | UIAdvanced/Pods/nanopb/pb_decode.c:1391-1461 | bytes, strings and fixed-length bytes; too long for the storage fails |
| PbDecode.DecodeSubmessage | UIAdvanced/Pods/nanopb/pb_decode.c:1463-1485 | the nested message is read within its own bytes and those are consumed to the end; an array entry or a union member starts from its defaults, any other goes on from what is there |
| PbDecode.DecodePacked | UIAdvanced/Pods/nanopb/pb_decode.c:425-450 | elements until the substream ends or the array is full; fails iff bytes are left over |
| PbDecode.DecodeChunk | UIAdvanced/Pods/nanopb/pb_decode.c:419-451 | a packed payload, with its substream opened and closed, extends the array as the specification says |
| PbDecode.DecodeField | UIAdvanced/Pods/nanopb/pb_decode.c:401-475 | one field of any kind, with its presence or count or union set as the specification says; on failure too, what is left in the count of an array |
| PbParse.CountAfterDecode | UIAdvanced/Pods/nanopb/pb_decode.c:419-459 | the count a decoding leaves behind is that of the array on success; it passes the array size, by one and with a failure, iff a single element finds the array full, and never in a packed payload |
| PbDecode.FindTag | UIAdvanced/Pods/nanopb/pb_common.c:78-95 | the wrap-around search finds the field the specification names, from any position |
| PbDecode.DecodeOne | UIAdvanced/Pods/nanopb/pb_decode.c:919-997 | one turn of the loop takes one record and leaves the rest of the stream to mean the same |
| PbDecode.DecodeKnown | UIAdvanced/Pods/nanopb/pb_decode.c:988-996 | a listed field is marked as seen and decoded into its place |
| PbDecode.CountRequired | UIAdvanced/Pods/nanopb/pb_decode.c:1006-1018 | going on to the end of the table and fixing up the last field gives the number of required fields |
| PbDecode.DecodeNoinit | UIAdvanced/Pods/nanopb/pb_decode.c:901-1049 | the whole loop and the check at its end compute the specified message, consume the stream, and fail iff the specification does |
| PbDecode.Decode | UIAdvanced/Pods/nanopb/pb_decode.c:1051-1063 | the same from the default message |
| DtlsAvailability.EveryRun | UIAdvanced/Pods/BoringSSL-GRPC/ssl/d1_both.cc:297-438 | from the beginning, in every run of sends, flushes, retransmissions, losses, duplicates and reorderings: what was taken is a byte-exact prefix of what was sent, the receiver never ends the connection, and the next message is available iff the fragments that arrived cover it |
| DtlsSystem.RunDeliversPrefix | UIAdvanced/Pods/BoringSSL-GRPC/ssl/d1_both.cc:297-438 | the prefix property and the absence of failures, kept by every run from any state the invariant allows |
| DtlsSystem.StepInv | UIAdvanced/Pods/BoringSSL-GRPC/ssl/d1_both.cc:297-438 | every action keeps the invariant that ties the sender's flight, the records in the network, the ring and the messages taken to the log of messages sent |
| DtlsSystem.StepIsQueueStep | UIAdvanced/Pods/BoringSSL-GRPC/ssl/d1_both.cc:408-438 | every action is an enqueue, a dequeue of the front, or no change of one first-in first-out queue of messages |
| DtlsSystem.TakenIsSent | UIAdvanced/Pods/BoringSSL-GRPC/ssl/d1_both.cc:408-424 | a complete current message is, in type, body and raw bytes, the message sent under that number |
| DtlsSystem.ReceiveInv | UIAdvanced/Pods/BoringSSL-GRPC/ssl/d1_both.cc:297-406 | receiving any record ever sent, again or late, keeps the invariant |
| DtlsSystem.OpenHonest | UIAdvanced/Pods/BoringSSL-GRPC/ssl/d1_both.cc:345-402 | a fragment of a sent message is never an error and puts only bytes of that message into the ring |
| DtlsSystem.TransmitInv | UIAdvanced/Pods/BoringSSL-GRPC/ssl/d1_both.cc:782-827 | sending, however it ends, puts only fragments of logged messages on the network |
| DtlsSystem.AddInv | UIAdvanced/Pods/BoringSSL-GRPC/ssl/d1_both.cc:555-594 | adding a message to the flight extends the log by it |
| DtlsSystem.ChangeInv | UIAdvanced/Pods/BoringSSL-GRPC/ssl/dtls_method.cc:97-107 | changing the write cipher keeps the invariant |
| DtlsSystem.SwitchInv | UIAdvanced/Pods/BoringSSL-GRPC/ssl/dtls_method.cc:81-95 | at the place of the ChangeCipherSpec the read cipher change never meets leftover data |
| DtlsSystem.DataInv | UIAdvanced/Pods/BoringSSL-GRPC/ssl/d1_both.cc:308-318 | application data sent after the cipher change, which may overtake the message before it, keeps the invariant |
| DtlsAvailability.AvailableIffCovered | UIAdvanced/Pods/BoringSSL-GRPC/ssl/d1_both.cc:255-259 | the current message is complete iff the arrived fragments of it cover [0, length) |
| DtlsAvailability.StepShows | UIAdvanced/Pods/BoringSSL-GRPC/ssl/d1_both.cc:297-438 | every action keeps the ring equal to the union of the arrived fragments, slot by slot |
| DtlsAvailability.TransmissionSuffices | UIAdvanced/Pods/BoringSSL-GRPC/ssl/d1_both.cc:782-845 | once every fragment of one whole transmission has arrived, in any order and among anything else, the message can be taken |
| DtlsAvailability.TransmissionCovers | UIAdvanced/Pods/BoringSSL-GRPC/ssl/d1_both.cc:644-734 | the fragments of one whole transmission, whatever the MTUs, cover each message of the flight |
| DtlsReceive.OpenFragmentKeepsRing | UIAdvanced/Pods/BoringSSL-GRPC/ssl/d1_both.cc:353-402 | any fragment keeps the ring invariant: slot i holds a number congruent to i mod 7 within the next seven |
| DtlsReceive.OpenFragmentsKeepsRing | UIAdvanced/Pods/BoringSSL-GRPC/ssl/d1_both.cc:345-403 | so does any record payload, well-formed or not |
| DtlsReceive.OpenKeepsRing | UIAdvanced/Pods/BoringSSL-GRPC/ssl/d1_both.cc:297-406 | so does any record of any type |
| DtlsReceive.NextKeepsRing | UIAdvanced/Pods/BoringSSL-GRPC/ssl/d1_both.cc:426-438 | so does going to the next message, and when the 16-bit counter wraps the ring is empty, though 7 does not divide 65536 |
| DtlsReceive.SlotIsOwn | UIAdvanced/Pods/BoringSSL-GRPC/ssl/d1_both.cc:272-276 | a slot in use for a number within the window holds that number: the assertion cannot fail |
| DtlsReceive.BeyondWindow | UIAdvanced/Pods/BoringSSL-GRPC/ssl/d1_both.cc:380-385 | past the window exactly the number seven ahead is an error, since it passes the first check and fails the second; later numbers are ignored |
| DtlsReceive.WholeData | UIAdvanced/Pods/BoringSSL-GRPC/ssl/d1_both.cc:408-424 | a fragment buffer without a map holds the whole message, header and body |
| DtlsVerdicts.RecordVerdict | UIAdvanced/Pods/BoringSSL-GRPC/ssl/d1_both.cc:297-343 | for every record: application data ends the connection without a cipher and is passed over under one; a ChangeCipherSpec is noted iff there is no cipher and it is the one byte 1, else it ends the connection with the alert stated; any other type than handshake does too |
| DtlsVerdicts.FragmentVerdict | UIAdvanced/Pods/BoringSSL-GRPC/ssl/d1_both.cc:353-402 | for every state and fragment: bad bounds, another message than the next in epoch 1, one behind or beyond the window, the number seven ahead, another type or length than before, each with its alert; otherwise the body goes into the one slot of its message unless that is complete, and nothing else changes |
| DtlsVerdicts.FragmentsInTurn | UIAdvanced/Pods/BoringSSL-GRPC/ssl/d1_both.cc:345-403 | the fragments of a record are taken one after the other until one ends the connection |
| DtlsVerdicts.PartOfFragment | UIAdvanced/Pods/BoringSSL-GRPC/ssl/d1_both.cc:353-361 | less than a whole fragment ends the connection with decode_error |
| DtlsVerdicts.ChangeCipherSpecVerdict | UIAdvanced/Pods/BoringSSL-GRPC/ssl/d1_both.cc:475-490 | a waiting ChangeCipherSpec is taken once without a record; else success iff the record is one without a cipher |
| DtlsVerdicts.NothingCarriedOver | UIAdvanced/Pods/BoringSSL-GRPC/ssl/d1_both.cc:440-457 | the epoch may change iff no ChangeCipherSpec waits and no slot but that of a message handed out is in use, so that after it the ring is empty |
| DtlsVerdicts.HandingOut | UIAdvanced/Pods/BoringSSL-GRPC/ssl/d1_both.cc:408-438 | a message is handed out iff all its bytes are there, again and again until it is gone past; that frees its slot and no other, and the next message is then still to be handed out |
| DtlsReceive.Receiver.GetIncomingMessage | UIAdvanced/Pods/BoringSSL-GRPC/ssl/d1_both.cc:265-295 | finds or makes the slot of a message; a number out of the window, another type or another length is an error |
| DtlsReceive.Receiver.TakeFragment | UIAdvanced/Pods/BoringSSL-GRPC/ssl/d1_both.cc:353-402 | one turn of the loop does to ring and buffers what the specification does to its values |
| DtlsReceive.Receiver.TakeRecord | UIAdvanced/Pods/BoringSSL-GRPC/ssl/d1_both.cc:297-406 | an opened record of any type: new ring, ChangeCipherSpec flag and verdict |
| DtlsReceive.Receiver.TakeChangeCipherSpec | UIAdvanced/Pods/BoringSSL-GRPC/ssl/d1_both.cc:475-490 | takes a waiting ChangeCipherSpec, or reads a record and then takes it if it was one |
| DtlsReceive.Receiver.IsCurrentMessageComplete | UIAdvanced/Pods/BoringSSL-GRPC/ssl/d1_both.cc:255-259 | a missing map of the current slot means exactly that its marked ranges make up [0, length) |
| DtlsReceive.Receiver.GetMessage | UIAdvanced/Pods/BoringSSL-GRPC/ssl/d1_both.cc:408-424 | hands out the current message iff it is complete, without taking it |
| DtlsReceive.Receiver.NextMessage | UIAdvanced/Pods/BoringSSL-GRPC/ssl/d1_both.cc:426-438 | frees the slot, moves the 16-bit counter on, and keeps the ring |
| DtlsReceive.Receiver.HasUnprocessed | UIAdvanced/Pods/BoringSSL-GRPC/ssl/d1_both.cc:440-457 | a ChangeCipherSpec or any slot but the handed-out one counts as leftover |
| DtlsReceive.Receiver.SetReadState | UIAdvanced/Pods/BoringSSL-GRPC/ssl/dtls_method.cc:81-95 | refused iff data is left over; otherwise a new epoch with an empty replay window |
| DtlsReassembly.BitRangeBit | UIAdvanced/Pods/BoringSSL-GRPC/ssl/d1_both.cc:203-205 | bit i of the mask is set iff start <= i < end |
| DtlsReassembly.OrMarks | UIAdvanced/Pods/BoringSSL-GRPC/ssl/d1_both.cc:217-233 | ORing a mask into a byte marks exactly the range it stands for |
| DtlsReassembly.AllSetIsFull | UIAdvanced/Pods/BoringSSL-GRPC/ssl/d1_both.cc:236-250 | the byte loop and the test of the last byte pass iff the marked set is [0, length), also when the length is a multiple of eight |
| DtlsReassembly.HmFragment.constructor | UIAdvanced/Pods/BoringSSL-GRPC/ssl/d1_both.cc:152-199 | a new fragment buffer holds the header of the whole message, no body, and a clear map, or none for an empty message |
| DtlsReassembly.HmFragment.Mark | UIAdvanced/Pods/BoringSSL-GRPC/ssl/d1_both.cc:211-251 | the set of marked positions becomes its union with [start, end), every access is in bounds, and the map goes away iff the union is [0, length) |
| DtlsReassembly.HmFragment.SetBits | UIAdvanced/Pods/BoringSSL-GRPC/ssl/d1_both.cc:217-233 | the bit-level part of it |
| DtlsReassembly.HmFragment.CheckAll | UIAdvanced/Pods/BoringSSL-GRPC/ssl/d1_both.cc:236-250 | the loop decides whether all bits are set |
| DtlsReassembly.HmFragment.Place | UIAdvanced/Pods/BoringSSL-GRPC/ssl/d1_both.cc:393-402 | copies the body to its offset and marks it; nothing else of the message changes |
| DtlsWire.ParseEncoded | UIAdvanced/Pods/BoringSSL-GRPC/ssl/d1_both.cc:459-473 | a written fragment, whatever follows it, parses to its header and body and leaves what follows |
| DtlsWire.FinishedIsWhole | UIAdvanced/Pods/BoringSSL-GRPC/ssl/d1_both.cc:511-537 | a message begun and finished is one fragment that covers it whole, with both 24-bit lengths set |
| DtlsFormat.FragmentLayout | UIAdvanced/Pods/BoringSSL-GRPC/ssl/d1_both.cc:702-716 | a fragment byte by byte: type, three bytes of message length, two of number, three of offset, three of fragment length, and the body, most significant byte first |
| DtlsFormat.FragmentReads | UIAdvanced/Pods/BoringSSL-GRPC/ssl/d1_both.cc:459-473 | a fragment is read iff twelve bytes are there and as many more as the last three of them say, with the fields those bytes spell |
| DtlsReplay.ToU64 | UIAdvanced/Pods/BoringSSL-GRPC/ssl/dtls_record.cc:128-136 | the loop reads eight bytes as a big-endian number |
| DtlsReplay.Bitmap.ShouldDiscard | UIAdvanced/Pods/BoringSSL-GRPC/ssl/dtls_record.cc:140-150 | true iff s <= max and (max - s >= 64 or s was recorded) |
| DtlsReplay.Bitmap.Record | UIAdvanced/Pods/BoringSSL-GRPC/ssl/dtls_record.cc:155-175 | the shifted and ORed 64-bit word stands for the seen set with s added |
| DtlsReplay.Bitmap.Slide | UIAdvanced/Pods/BoringSSL-GRPC/ssl/dtls_record.cc:158-166 | shifting by the distance moves the window up, and by 64 or more clears it |
| DtlsReplay.Bitmap.Reset | UIAdvanced/Pods/BoringSSL-GRPC/ssl/dtls_method.cc:90-90 | after an epoch change nothing has been seen |
| DtlsReplay.WindowBit | UIAdvanced/Pods/BoringSSL-GRPC/ssl/dtls_record.cc:140-150 | bit i of the word says whether max - i was seen |
| DtlsReplay.WindowShift | UIAdvanced/Pods/BoringSSL-GRPC/ssl/dtls_record.cc:158-166 | a shift of the word by any distance, cut to 64 bits, is the word of the moved window |
| DtlsReplay.NoReplay | UIAdvanced/Pods/BoringSSL-GRPC/ssl/dtls_record.cc:225-259 | in any run of arrivals no record number is accepted twice |
| DtlsReplay.SeenIsAccepted | UIAdvanced/Pods/BoringSSL-GRPC/ssl/dtls_record.cc:225-259 | after any run the seen set is exactly the numbers accepted, with max their largest |
| DtlsReplay.FreshIsAccepted | UIAdvanced/Pods/BoringSSL-GRPC/ssl/dtls_record.cc:225-259 | after any run from an empty window an authentic record is accepted iff its number is new and above max - 64 |
| DtlsRecord.SealedOpens | UIAdvanced/Pods/BoringSSL-GRPC/ssl/dtls_record.cc:177-272 | a sealed record anywhere in a packet opens to its type and plaintext and is consumed to its end, iff its epoch is the reader's and its number not stale; else it is dropped and nothing changes |
| DtlsRecord.SealedHeader | UIAdvanced/Pods/BoringSSL-GRPC/ssl/dtls_record.cc:315-345 | the thirteen header bytes read back as type, version, epoch, sequence and length |
| DtlsFormat.RecordLayout | UIAdvanced/Pods/BoringSSL-GRPC/ssl/dtls_record.cc:315-345 | a sealed record byte by byte: type, version, two bytes of epoch and six of number, length, ciphertext, most significant byte first |
| DtlsRecord.FullNumberIs | UIAdvanced/Pods/BoringSSL-GRPC/ssl/dtls_record.cc:128-136 | the eight sequence bytes are epoch * 2^48 + number |
| DtlsOpen.OpenVerdict | UIAdvanced/Pods/BoringSSL-GRPC/ssl/dtls_record.cc:177-272 | for every input, in plain terms: a record is handed on iff its header is good, its epoch the reader's, its number not stale and it authenticates to a body that is not too long; the window takes note of exactly the numbers handed on and is left alone by everything else |
| DtlsOpen.OpensUnlessSeen | UIAdvanced/Pods/BoringSSL-GRPC/ssl/dtls_record.cc:225-259 | in every run over packets no number is handed on twice, and after it a sealed record of the reader's epoch opens iff its number was not handed on and is less than 64 below each that was |
| DtlsOpen.ForgeriesDoNothing | UIAdvanced/Pods/BoringSSL-GRPC/ssl/dtls_record.cc:237-249 | any number of records that do not authenticate, whatever their numbers, leave the window as it was |
| DtlsRecord.Open | UIAdvanced/Pods/BoringSSL-GRPC/ssl/dtls_record.cc:177-272 | the method on the reader's bitmap does what the specification says in every branch, and the bitmap stands for the new window; what that is for each input is `DtlsOpen.OpenVerdict` |
| DtlsNumbers.SequenceUpdate | UIAdvanced/Pods/BoringSSL-GRPC/ssl/tls_record.cc:154-163 | the byte loop adds one to the big-endian counter behind the prefix; fails iff it was all ones, and then it is zero |
| DtlsNumbers.SealedUnique | UIAdvanced/Pods/BoringSSL-GRPC/ssl/dtls_record.cc:294-351 | in any run of seals in the current and the previous epoch and cipher changes, until a counter wraps, no pair is used twice, as long as the epoch does not come round |
| DtlsNumbers.NumbersNeverRepeat | UIAdvanced/Pods/BoringSSL-GRPC/ssl/dtls_method.cc:97-107 | pairs never repeat in runs with k cipher changes iff k < 65536 |
| DtlsNumbers.EpochComesRound | UIAdvanced/Pods/BoringSSL-GRPC/ssl/dtls_method.cc:97-107 | with 65536 cipher changes or more there is a run that repeats a pair |
| DtlsNumbers.AssembleNonce | UIAdvanced/Pods/BoringSSL-GRPC/ssl/ssl_aead_ctx.cc:325-369 | the buffer filled and XORed in place holds the nonce of the rule, with the fixed and the variable part where `NonceParts` says |
| DtlsNumbers.OpenFindsNonce | UIAdvanced/Pods/BoringSSL-GRPC/ssl/ssl_aead_ctx.cc:254-280 | the opener rebuilds the sealer's variable part from the record or the sequence number, and the same ciphertext |
| DtlsNumbers.NonceInjective | UIAdvanced/Pods/BoringSSL-GRPC/ssl/ssl_aead_ctx.cc:325-369 | different variable parts give different nonces, XORed or appended |
| DtlsNumbers.NonceParts | UIAdvanced/Pods/BoringSSL-GRPC/ssl/ssl_aead_ctx.cc:325-369 | without XOR the nonce is the fixed part and then the variable part; with XOR, XORing it with the fixed part again gives zeros and then the variable part |
| DtlsNumbers.NoncesNeverRepeat | UIAdvanced/Pods/BoringSSL-GRPC/ssl/ssl_aead_ctx.cc:334-369 | with a cipher that does not draw random nonces, no two records of a run get the same nonce |
| DtlsNumbers.SequenceBytesInjective | UIAdvanced/Pods/BoringSSL-GRPC/ssl/dtls_record.cc:315-322 | the eight bytes determine epoch and number |
| DtlsSend.FlightConserved | UIAdvanced/Pods/BoringSSL-GRPC/ssl/d1_both.cc:782-845 | flushing or retransmitting keeps the records the transport took since the last rewind equal to the flight up to the cursor, whatever writes fail, unless sealing fails; success is at the end of the flight |
| DtlsSend.BytesConserved | UIAdvanced/Pods/BoringSSL-GRPC/ssl/d1_both.cc:644-734 | records that move the cursor to a place carry each message before it whole and the next up to the offset, each byte once, in order |
| DtlsFailure.ConservedAlwaysIff | UIAdvanced/Pods/BoringSSL-GRPC/ssl/d1_both.cc:739-827 | for given messages, lengths, MTU and cursor: the packets taken are the flight up to the cursor after a call under all outcomes of sealing and all transports, iff no message other than the last can end in a packet that still has room to attempt a record of the next |
| DtlsFailure.LastMessageConserved | UIAdvanced/Pods/BoringSSL-GRPC/ssl/d1_both.cc:739-827 | with one message left that never happens |
| DtlsFailure.FailureSkips | UIAdvanced/Pods/BoringSSL-GRPC/ssl/d1_both.cc:739-780 | a concrete flight of two messages where sealing fails in the middle of the packet: nothing was sent, and the cursor stands at the second message |
| DtlsSend.SealAdvances | UIAdvanced/Pods/BoringSSL-GRPC/ssl/d1_both.cc:644-734 | a sealed record carries exactly the part of the flight the cursor moves over |
| DtlsSend.PacketAdvances | UIAdvanced/Pods/BoringSSL-GRPC/ssl/d1_both.cc:739-780 | so do the records of a packet, whose sizes sum to at most the MTU |
| DtlsSend.SendAdvances | UIAdvanced/Pods/BoringSSL-GRPC/ssl/d1_both.cc:782-827 | so do all packets the transport took; a packet it refused moves nothing |
| DtlsSend.AdvanceAllOk | UIAdvanced/Pods/BoringSSL-GRPC/ssl/d1_both.cc:789-817 | records strictly decrease (messages left, bytes left), the measure by which sending terminates |
| DtlsSend.SendKeepsCursor | UIAdvanced/Pods/BoringSSL-GRPC/ssl/d1_both.cc:782-827 | the cursor stays in the flight, even after a sealing failure |
| DtlsSend.WholeOfEncoded | UIAdvanced/Pods/BoringSSL-GRPC/ssl/d1_both.cc:670-681 | a finished message parses as the one fragment it is |
| DtlsSend.SealVerdict | UIAdvanced/Pods/BoringSSL-GRPC/ssl/d1_both.cc:644-734 | for every state: a message is sealed in the epoch it was composed in and in no other; nothing is sealed iff there is no room for a ChangeCipherSpec, or for a header and one byte; a message is left in part only if the packet is then full to the byte |
| DtlsFlights.RecordSealed | UIAdvanced/Pods/BoringSSL-GRPC/ssl/dtls_record.cc:294-351 | for every state, in numerals: a record is sealed iff it fits with header, nonce and what the cipher adds and the cipher does not refuse, in the chosen epoch and under its next number, which alone is used up; a wrapped counter or a length over two bytes refuses it after that |
| DtlsFlights.ItemJoins | UIAdvanced/Pods/BoringSSL-GRPC/ssl/d1_both.cc:555-594 | for every state: an item joins the flight being composed or begins a new one after a sent one, is refused iff there are seven, and changes nothing else but the next message number |
| DtlsFlights.NewFlight | UIAdvanced/Pods/BoringSSL-GRPC/ssl/d1_both.cc:829-834 | whatever a flush achieved, what is added after it is a new flight: the first seven of the items, in order, each message whole, in the present epoch, and under the number that follows, to be sent from the beginning |
| DtlsFlights.TransportDecides | UIAdvanced/Pods/BoringSSL-GRPC/ssl/d1_both.cc:782-827 | sending has blocked only if the call of the transport after the packets it took was refused, and is done only if every call, the flush at the end included, went well and the flight is at its end |
| DtlsProgress.FlightGoesOut | UIAdvanced/Pods/BoringSSL-GRPC/ssl/d1_both.cc:782-827 | with room for one body byte, numbers enough and a transport that takes every packet, sending ends with the whole flight sent |
| DtlsProgress.PacketGoes | UIAdvanced/Pods/BoringSSL-GRPC/ssl/d1_both.cc:739-780 | such a packet is sealed without error and leaves the rest ready |
| DtlsProgress.MessageGoes | UIAdvanced/Pods/BoringSSL-GRPC/ssl/d1_both.cc:644-734 | such a message or part of it is sealed, or reported not to fit in what is left of a packet, and the rest stays ready |
| DtlsFresh.FlightFresh | UIAdvanced/Pods/BoringSSL-GRPC/ssl/dtls_record.cc:294-351 | the records of a whole transmission, failed or not, use numbers not used before, rising within each epoch |
| DtlsFresh.PacketFresh | UIAdvanced/Pods/BoringSSL-GRPC/ssl/d1_both.cc:739-780 | so do the records of one packet |
| DtlsRecovery.EveryRunRecovers | UIAdvanced/Pods/BoringSSL-GRPC/ssl/d1_both.cc:836-845 | after every run from the beginning in which no sealing fails: if the next message is one of the receiver's epoch, a retransmission the transport takes whole, delivered as sent, makes it available |
| DtlsRecovery.Recovers | UIAdvanced/Pods/BoringSSL-GRPC/ssl/d1_both.cc:782-845 | the same from any state the invariants allow, with the message that can then be taken |
| DtlsRecovery.DeliverAll | UIAdvanced/Pods/BoringSSL-GRPC/ssl/dtls_record.cc:225-259 | records above everything the replay window has seen are all accepted when delivered in their order, and every fragment of the receiver's epoch arrives |
| DtlsRecovery.StepSpent | UIAdvanced/Pods/BoringSSL-GRPC/ssl/dtls_record.cc:225-259 | whatever the window has seen in its epoch is a number the sender has used up and does not use again, kept by every step in which sealing does not fail |
| DtlsSender.Sender.Add | UIAdvanced/Pods/BoringSSL-GRPC/ssl/d1_both.cc:555-594 | a new message or ChangeCipherSpec joins the flight with its epoch, a finished flight is cleared first; refused past seven |
| DtlsSender.Sender.ClearOutgoing | UIAdvanced/Pods/BoringSSL-GRPC/ssl/d1_both.cc:500-509 | the flight, its cursor and its flags are reset |
| DtlsSender.Sender.UseNumber | UIAdvanced/Pods/BoringSSL-GRPC/ssl/dtls_record.cc:294-351 | the counter of the chosen epoch, kept as eight bytes, goes up by one or reports its wrap |
| DtlsSender.Sender.Seal | UIAdvanced/Pods/BoringSSL-GRPC/ssl/dtls_record.cc:294-351 | seals a record under the chosen epoch's pair, or fails for want of room, by the cipher or by a wrapped counter |
| DtlsSender.Sender.SealNext | UIAdvanced/Pods/BoringSSL-GRPC/ssl/d1_both.cc:644-734 | one message or part: done, part done, no room or error, with the offset moved as specified |
| DtlsSender.Sender.SealPacket | UIAdvanced/Pods/BoringSSL-GRPC/ssl/d1_both.cc:739-780 | the loop packs what fits, and fails iff not even one record does or sealing fails |
| DtlsSender.Sender.SendOn | UIAdvanced/Pods/BoringSSL-GRPC/ssl/d1_both.cc:782-827 | the loop over packets, with the cursor put back when a write fails |
| DtlsSender.Sender.Flush | UIAdvanced/Pods/BoringSSL-GRPC/ssl/d1_both.cc:829-834 | marks the flight complete and sends on from the cursor |
| DtlsSender.Sender.Resend | UIAdvanced/Pods/BoringSSL-GRPC/ssl/d1_both.cc:836-845 | rewinds the cursor and sends |
| DtlsSender.Sender.SetWriteState | UIAdvanced/Pods/BoringSSL-GRPC/ssl/dtls_method.cc:97-107 | next epoch at number zero; the counter and cipher before become the previous ones |
| DtlsSender.Sender.NoteReply | UIAdvanced/Pods/BoringSSL-GRPC/ssl/d1_both.cc:433-437 | a message taken while the flight is complete marks it as replied to |
| DtlsSender.Sender.OnHandshakeComplete | UIAdvanced/Pods/BoringSSL-GRPC/ssl/dtls_method.cc:71-79 | the flight is dropped iff it had a reply |
| TlsWrite.Writer.WriteAppData | UIAdvanced/Pods/BoringSSL-GRPC/ssl/s3_pkt.cc:129-200 | over any number of blocked calls with the same, not shorter buffer, what was sealed is what was reported plus the bytes in progress: a call that succeeds has sealed exactly what it returns, once and in order; the result and the new state are those of the specification on values, of which `WriteSucceeds` says when it succeeds; and output stays conserved if each record it may have to write, with the flight and the write buffer as they then are, is refused by EnsureCap or fits within reach of the offset |
| TlsWrite.Writer.WriteChunk | UIAdvanced/Pods/BoringSSL-GRPC/ssl/s3_pkt.cc:160-199 | one record's worth of it, handing the condition on to the rest |
| TlsWrite.Writer.WriteLoop | UIAdvanced/Pods/BoringSSL-GRPC/ssl/s3_pkt.cc:163-199 | the loop does what the specification says on every input: it goes on with the next record until the data is out, a write stops, or partial writes are on |
| TlsSending.WriteSucceeds | UIAdvanced/Pods/BoringSSL-GRPC/ssl/s3_pkt.cc:129-200 | with no record blocked, the write buffer empty, a willing sealer and transport and records that fit, a call returns all of the data, sealed in records of max_send_fragment bytes but the last, with all that was ever sealed handed to the transport; with partial writes, the first record's length |
| TlsSending.RetrySucceeds | UIAdvanced/Pods/BoringSSL-GRPC/ssl/s3_pkt.cc:202-218 | a call that was blocked succeeds in the same way once the transport takes bytes again |
| TlsSending.WrongRetry | UIAdvanced/Pods/BoringSSL-GRPC/ssl/s3_pkt.cc:146-157 | a retry with other data than the blocked write's, or less of it, fails and changes nothing, except that one with less than was counted already starts the count over |
| TlsSending.WhyNotWritten | UIAdvanced/Pods/BoringSSL-GRPC/ssl/s3_pkt.cc:221-289 | do_ssl3_write reports no success iff the arguments of a retry are wrong, the body is too long or empty, the write buffer holds what an earlier failure left, the record layer refuses, the flight and the record together are over 65535 bytes, or the transport has just refused |
| TlsSending.RecordGoes | UIAdvanced/Pods/BoringSSL-GRPC/ssl/s3_pkt.cc:228-288 | with nothing in the way one record goes out whole, behind the flight that was pending |
| TlsSending.FlushStops | UIAdvanced/Pods/BoringSSL-GRPC/ssl/ssl_buffer.cc:239-252 | a flush fails iff its last call of the transport does, and hands on what that returned |
| TlsWrite.Writer.DoWrite | UIAdvanced/Pods/BoringSSL-GRPC/ssl/s3_pkt.cc:221-289 | goes on with the blocked record if the arguments match, else changes nothing; a new body is written as the specification on values says, for every record layer, allocation and transport |
| TlsWrite.Writer.WriteNew | UIAdvanced/Pods/BoringSSL-GRPC/ssl/s3_pkt.cc:228-288 | a new body: nothing if it is empty or too long or a failure left bytes in the write buffer; else it is sealed once, behind the pending flight, and remembered until all is out |
| TlsOutput.WriteConservedIff | UIAdvanced/Pods/BoringSSL-GRPC/ssl/s3_pkt.cc:238-288 | writing a record of some length into some block keeps output in order for all record layers with that overhead, all bodies and all transports, iff EnsureCap refuses what it is asked for or that ends within 2^16 of the start of the block |
| TlsOutput.WriteLoses | UIAdvanced/Pods/BoringSSL-GRPC/ssl/ssl_buffer.cc:90-97 | otherwise, a transport that takes all but the last byte is then offered a byte from before the contents, and what it took is no longer what was sealed |
| TlsOutput.LosesBytes | UIAdvanced/Pods/BoringSSL-GRPC/ssl/s3_pkt.cc:244-278 | a concrete case: 49129 bytes of flight pending, a record of 16384 bytes with an overhead of 22, an aligned block |
| TlsOutput.FlushKeeps | UIAdvanced/Pods/BoringSSL-GRPC/ssl/ssl_buffer.cc:239-252 | within reach, flushing keeps output in order whatever the transport takes, and ends with an empty buffer if it succeeds |
| TlsWrite.Writer.WritePending | UIAdvanced/Pods/BoringSSL-GRPC/ssl/s3_pkt.cc:202-218 | with matching arguments the buffer is flushed on, and the remembered length reported once it is empty; else nothing changes |
| TlsWrite.Writer.SealIntoBuffer | UIAdvanced/Pods/BoringSSL-GRPC/ssl/s3_pkt.cc:244-278 | the pending flight goes in front of the new record, in the order they were sealed; EnsureCap and the sealer may refuse |
| TlsWrite.Writer.FlushFlight | UIAdvanced/Pods/BoringSSL-GRPC/ssl/s3_both.cc:231-279 | however the transport answers, bytes taken ++ write buffer ++ rest of the flight stay all sealed bytes in order; success means everything was taken |
| TlsWrite.Writer.FlushBuffer | UIAdvanced/Pods/BoringSSL-GRPC/ssl/ssl_buffer.cc:239-252 | the loop ships the buffer as the specification says on every input, also where the offset wraps; success means it is empty and freed |
| TlsWrite.Writer.AddRecordToFlight | UIAdvanced/Pods/BoringSSL-GRPC/ssl/s3_both.cc:135-165 | one sealed record joins the flight, or nothing changes |
| TlsWrite.Writer.AddMessage | UIAdvanced/Pods/BoringSSL-GRPC/ssl/s3_both.cc:184-205 | a message goes out as consecutive pieces of at most the fragment limit whose bodies join to it; an empty one as one empty record |
| TlsWrite.Writer.AddChangeCipherSpec | UIAdvanced/Pods/BoringSSL-GRPC/ssl/s3_both.cc:207-218 | one record with the one byte, in its place in the order |
| TlsSending.PiecesJoin | UIAdvanced/Pods/BoringSSL-GRPC/ssl/s3_both.cc:187-199 | the pieces join to the message, all but the last are of full length, and none is empty unless the message is |
| TlsWrite.FreshWrite | UIAdvanced/Pods/BoringSSL-GRPC/ssl/s3_pkt.cc:129-200 | a state without a pending write is the beginning of a write of any data |
| TlsWrite.GrownRetry | UIAdvanced/Pods/BoringSSL-GRPC/ssl/s3_pkt.cc:202-218 | a write in progress may be retried with more data behind the same bytes |
| TlsBuffer.KeepsRestIff | UIAdvanced/Pods/BoringSSL-GRPC/ssl/ssl_buffer.cc:90-97 | consuming keeps the rest, for all bytes and all counts, iff offset + size <= 2^16: past it the 16-bit offset wraps |
| TlsBuffer.SslBuffer.EnsureCap | UIAdvanced/Pods/BoringSSL-GRPC/ssl/ssl_buffer.cc:47-81 | fails and changes nothing iff more than 0xffff is asked for; otherwise at least that capacity with the contents kept, at the offset that aligns the record |
| TlsBuffer.BodyAligned | UIAdvanced/Pods/BoringSSL-GRPC/ssl/ssl_buffer.cc:47-81 | a block that has to grow begins its contents less than 8 bytes in, with the body behind the header at a multiple of 8; one that is large enough or may not grow stays |
| TlsBuffer.SslBuffer.Append | UIAdvanced/Pods/BoringSSL-GRPC/ssl/ssl_buffer.cc:83-88 | bytes written behind the contents become part of them |
| TlsBuffer.SslBuffer.Consume | UIAdvanced/Pods/BoringSSL-GRPC/ssl/ssl_buffer.cc:90-97 | offset, size and capacity move with the offset cut to 16 bits; the contents lose exactly their first bytes while they end within reach |
| TlsMessages.MessagesSurviveRecords | UIAdvanced/Pods/BoringSSL-GRPC/ssl/s3_both.cc:184-205 | messages cut into records of any limit and read back from their bodies are the same messages, with nothing left over |
| TlsMessages.SplitGrows | UIAdvanced/Pods/BoringSSL-GRPC/ssl/s3_both.cc:399-425 | taking messages out early, before more bytes come, gives the same messages |
| TlsMessages.SplitJoined | UIAdvanced/Pods/BoringSSL-GRPC/ssl/s3_both.cc:399-425 | messages written one after the other are found again |
| TlsMessages.FirstMessageIs | UIAdvanced/Pods/BoringSSL-GRPC/ssl/s3_both.cc:399-425 | the first message is there iff four bytes are and as many more as the last three of them say |
| TlsMessages.MessageIs | UIAdvanced/Pods/BoringSSL-GRPC/ssl/s3_both.cc:184-205 | a type, the three bytes of the length and the body make one message |
| TlsMessages.MessageBuffer.AppendRecord | UIAdvanced/Pods/BoringSSL-GRPC/ssl/s3_both.cc:553-557 | the record's body joins the stream of bytes received |
| TlsMessages.MessageBuffer.GetMessage | UIAdvanced/Pods/BoringSSL-GRPC/ssl/s3_both.cc:427-439 | hands out the next message of the whole stream received, iff it is there, without taking it |
| TlsMessages.MessageBuffer.NextMessage | UIAdvanced/Pods/BoringSSL-GRPC/ssl/s3_both.cc:562-583 | moving the rest to the front takes exactly one message of the stream |
| TlsHandshake.EveryRun | UIAdvanced/Pods/BoringSSL-GRPC/ssl/handshake.cc:491-628 | from the beginning, in every interleaving of turns of client and server, with slow callbacks and with flushes blocked or partly done anywhere, full or resumed, with or without client certificate, ticket, NPN, Channel ID and certificate status: neither side fails, a side that waits for the other has nothing left to send, both can still finish, and then they have hashed the same messages and nothing is under way |
| TlsHandshake.StepInv | UIAdvanced/Pods/BoringSSL-GRPC/ssl/handshake.cc:491-628 | no message is ever of an unexpected type: every turn, a blocked or partial flush included, keeps both on their scripts, and each channel with the pending flight behind it holding what is still to be read less what is still to be composed |
| TlsHandshake.NoDeadlock | UIAdvanced/Pods/BoringSSL-GRPC/ssl/handshake.cc:491-628 | until both are done, one of the two can take a turn, a flush among them, that decreases its measure |
| TlsHandshake.ClientHasFlushed | UIAdvanced/Pods/BoringSSL-GRPC/ssl/handshake.cc:498-504 | a client whose next step is to read has nothing pending |
| TlsHandshake.ServerHasFlushed | UIAdvanced/Pods/BoringSSL-GRPC/ssl/handshake.cc:498-504 | nor has such a server |
| TlsHandshake.CanFinish | UIAdvanced/Pods/BoringSSL-GRPC/ssl/handshake.cc:491-628 | from every reachable state there is a run that finishes both |
| TlsHandshake.RunInv | UIAdvanced/Pods/BoringSSL-GRPC/ssl/handshake.cc:491-628 | no run of agreed handshakes fails on either side, and whoever waits for input has flushed |
| TlsHandshake.SameTranscripts | UIAdvanced/Pods/BoringSSL-GRPC/ssl/handshake.cc:380-476 | at each Finished sent and checked the two hold the same list of hashed messages, and at the end the same list, with empty channels and flights |
| TlsHandshake.Begin | UIAdvanced/Pods/BoringSSL-GRPC/ssl/handshake_client.cc:385-452 | the initial states are on the scripts: what each side will write is what the other will read |
| TlsClientScript.ClientFollows | UIAdvanced/Pods/BoringSSL-GRPC/ssl/handshake_client.cc:1707-1789 | when the next item is the one due, every client state does its part of the script and either gets nearer to its end or waits |
| TlsServerScript.ServerFollows | UIAdvanced/Pods/BoringSSL-GRPC/ssl/handshake_server.cc:1539-1621 | the same for every server state |
| TlsScriptItems.ClientWrites | UIAdvanced/Pods/BoringSSL-GRPC/ssl/handshake_client.cc:1169-1512 | all a client composes from a state on, flight by flight |
| TlsScriptItems.ServerWrites | UIAdvanced/Pods/BoringSSL-GRPC/ssl/handshake_server.cc:686-947 | all a server composes from a state on, flight by flight |
| TlsScriptItems.ClientWritesServerReads | UIAdvanced/Pods/BoringSSL-GRPC/ssl/handshake_server.cc:949-1461 | the items the client writes are the ones the server reads, for all agreed flags |
| TlsScriptItems.ServerWritesClientReads | UIAdvanced/Pods/BoringSSL-GRPC/ssl/handshake_client.cc:535-1167 | the items the server writes are the ones the client reads, for all agreed flags |
| TlsClient.RunIsSafe | UIAdvanced/Pods/BoringSSL-GRPC/ssl/handshake_client.cc:1457-1705 | against any peer: a client that is done has checked exactly one server Finished and sent exactly one, each over the transcript before it, and has verified the server's certificate where the cipher calls for one; it returns early only with false start, in a full handshake, with its Finished flushed; and whenever it waits for input or is done, all it composed was flushed |
| TlsClient.StepSound | UIAdvanced/Pods/BoringSSL-GRPC/ssl/handshake_client.cc:1707-1789 | against any peer, every turn fails, waits, flushes a part, or decreases a measure that depends on resumption; it adds to the transcript only as its counts say, and leaves a flight pending only where it is being flushed or added to |
| TlsClientVerdicts.Verdict | UIAdvanced/Pods/BoringSSL-GRPC/ssl/handshake_client.cc:1707-1789 | for every state and every answer of peer and callbacks: a turn waits iff the message it needs is not there or a callback is not ready, fails iff the message is refused or what it does goes wrong, and otherwise goes on; it takes a message iff that fits, notes a verification iff the callback accepted, and returns early iff at the end of its flight in a full handshake with false start |
| TlsClientVerdicts.DriverVerdict | UIAdvanced/Pods/BoringSSL-GRPC/ssl/handshake.cc:491-628 | where a ChangeCipherSpec was asked for the driver takes that and fails on anything else; it leaves a flush iff the whole flight is out and the transport drained |
| TlsClientVerdicts.DoneWasVerified | UIAdvanced/Pods/BoringSSL-GRPC/ssl/handshake_client.cc:871-893 | in every run that completes a full handshake with a certificate cipher there was a turn at which the callback accepted the certificate |
| TlsServer.RunIsSafe | UIAdvanced/Pods/BoringSSL-GRPC/ssl/handshake_server.cc:1269-1537 | against any peer: a server that is done has checked exactly one client Finished and sent exactly one; if the client showed a certificate, its chain and its CertificateVerify were verified, and if one is required in a full handshake it did; and whenever it waits for input or is done, all it composed was flushed |
| TlsServer.StepSound | UIAdvanced/Pods/BoringSSL-GRPC/ssl/handshake_server.cc:1539-1621 | the measure, the transcript and the flight for the server |
| TlsServerVerdicts.Verdict | UIAdvanced/Pods/BoringSSL-GRPC/ssl/handshake_server.cc:1539-1621 | the same for the server: when it waits, fails and goes on, in every state, and that certificate, chain and signature are noted exactly where they were checked |
| TlsServerVerdicts.DriverVerdict | UIAdvanced/Pods/BoringSSL-GRPC/ssl/handshake.cc:491-628 | the driver of the server |
| TlsServerVerdicts.DoneWasVerified | UIAdvanced/Pods/BoringSSL-GRPC/ssl/handshake_server.cc:1042-1056 | in every run that completes a handshake in which the client showed a certificate there was a turn at which the callback accepted its chain, and one at which its signature over the transcript so far was checked |
| TlsServerTranscript.DoneInOrder | UIAdvanced/Pods/BoringSSL-GRPC/ssl/handshake_server.cc:1539-1621 | against any peer, however its items come: a server that is done has read exactly the sequence its flags call for, as a prefix of what came, and has hashed and sent exactly the sequences they call for, each MAC and signature over just what was hashed before it; if it requires a certificate it got one that is not empty, unless it resumed |
| TlsClientTranscript.DoneInOrder | UIAdvanced/Pods/BoringSSL-GRPC/ssl/handshake_client.cc:1707-1789 | the same for the client, up to what the server may choose to send or not, which has to agree with its hello; it resumed only what it had offered |
| TlsRefusal.EmptyCertificateIsRefused | UIAdvanced/Pods/BoringSSL-GRPC/ssl/handshake_server.cc:1022-1026 | a pair whose server requires a certificate and whose client has none: no run completes on the server's side, the server fails for that reason and no other, and every run can go on to where it does |
| TlsRefusal.StrictRun | UIAdvanced/Pods/BoringSSL-GRPC/ssl/handshake_server.cc:1022-1026 | a pair with a requiring server takes the same turns as one without until the server refuses |
| TlsClientMachine.ClientHandshake.RunHandshake | UIAdvanced/Pods/BoringSSL-GRPC/ssl/handshake.cc:491-628 | the driver loop ends, against any peer and any answers, in done, failure, a blocked flush, a slow callback, an early return, or for want of input with nothing left to send; done means the two matching Finished, and the run is that of the value-level machine on the same answers |
| TlsServerMachine.ServerHandshake.RunHandshake | UIAdvanced/Pods/BoringSSL-GRPC/ssl/handshake.cc:491-628 | the same for the server |
| TlsClientMachine.ClientHandshake.Turn | UIAdvanced/Pods/BoringSSL-GRPC/ssl/handshake_client.cc:1707-1789 | one turn of driver and switch moves the fields as the specification moves its values; it asks for input only when there is none, and stays in a flush only when the transport did not take the flight |
| TlsServerMachine.ServerHandshake.Turn | UIAdvanced/Pods/BoringSSL-GRPC/ssl/handshake_server.cc:1539-1621 | the same for the server |
| TlsCipher.ChooseCipher | UIAdvanced/Pods/BoringSSL-GRPC/ssl/handshake_server.cc:357-424 | the loop returns the choice whenever the last group flag is clear, and the result of the scan on every input |
| TlsCipher.ScanIsChoiceIff | UIAdvanced/Pods/BoringSSL-GRPC/ssl/handshake_server.cc:394-420 | for given group flags the scan is right on all lists iff the last flag is clear |
| TlsCipher.ScanIsChoice | UIAdvanced/Pods/BoringSSL-GRPC/ssl/handshake_server.cc:394-420 | the running minimum over a group is the choice group by group |
| TlsCipher.ChoiceIsPreferred | UIAdvanced/Pods/BoringSSL-GRPC/ssl/handshake_server.cc:357-424 | the choice is acceptable, comes from the first group with an acceptable cipher, and is the client's most preferred there |
| TlsCipher.ChoiceIffAny | UIAdvanced/Pods/BoringSSL-GRPC/ssl/handshake_server.cc:357-424 | there is no choice iff no cipher is acceptable |
| TlsCipher.ClientOrder | UIAdvanced/Pods/BoringSSL-GRPC/ssl/handshake_server.cc:376-386 | without server preference it is the first acceptable cipher of the client's list |
| TlsCipher.ClientChoice | UIAdvanced/Pods/BoringSSL-GRPC/ssl/handshake_server.cc:376-420 | without server preference, for all lists: the first cipher of the client's list that the server supports and whose version, key exchange and authentication are allowed, or none iff there is none |
| TlsCipher.ServerChoice | UIAdvanced/Pods/BoringSSL-GRPC/ssl/handshake_server.cc:376-420 | with it: an acceptable cipher such that all acceptable ones before it in the server's list are of its group, and none of its group stands before it in the client's list; none iff none is acceptable |

## Left out

What a contract says less than the code or its documentation promises:

- DtlsSystem.RunDeliversPrefix: is about records, whose bytes are `SealedOpens`, with the use the handshakes make of the transport as guards on the actions: a flight begins when the last one was taken, there is one cipher change and one message after it, after which the receiver reads no more handshake records, application data is sent only under the new cipher, and there are fewer than 65536 messages.
- DtlsAvailability.EveryRun: has the same guards as `RunDeliversPrefix`.
- DtlsSend.FlightConserved: leaves out sealing failures; `ConservedAlwaysIff` states exactly when it holds with them.
- DtlsNumbers.SealedUnique: needs fewer than 65536 cipher changes, which `NumbersNeverRepeat` shows to be exact.
- DtlsRecovery.EveryRunRecovers: leaves out runs with a sealing failure, and a receiver that has not yet changed to the epoch of the next message. It delivers the records as they were sent; other orders are `TransmissionSuffices`.
- DtlsProgress.FlightGoesOut: assumes that the MTU leaves room for a header and one body byte and that the counters do not wrap on the way; below that `seal_next_packet` fails.
- TlsWrite.Writer.WriteAppData: promises conservation one way, under the condition that each record it may write fits or is refused; that the condition is exact is stated for one record by `WriteConservedIff`, since a call may stop before a later record. The sealing of each byte once and in order has no condition. `WriteSucceeds` takes a transport that takes at least one byte per call; `WhyNotWritten` has the reasons for failure of one record.
- TlsHandshake.EveryRun: takes the flags of the hellos as agreed, every check as passing, a flush as sending whole messages (the bytes are `FlushFlight`), and leaves out a client without a certificate at a server that requires one, which is `EmptyCertificateIsRefused`.
- TlsClient.RunIsSafe: says that the callback that verifies the certificate has succeeded, not what it verifies.
- TlsCipher.ChooseCipher: begins after the client's list has been parsed and the masks computed.
- PbRoundTrip.MessageRoundTrip: assumes what the generator and the target guarantee: distinct tags in 1..2^29-1, strings, which end at their first NUL, that leave room for it, counts within the array, nested and packed lengths below 2^32, at most one member of a union set, and no default on a proto3 singular field.
- PbWire.InterleavingIrrelevant: keeps the order within a union too, since `UnionOrderMatters` shows that it counts.
- PbEncode.Encode: takes lengths to fit a 64-bit size_t.
- PbDecode.Decode: says nothing about the message after a failure, except for the counts of arrays (`CountAfterDecode`).

What is not modelled:

- nanopb callbacks, extensions, pointer fields and their allocation, fixed-count arrays, custom streams, delimited and null-terminated framing, and builds without 64-bit integers; the model has 64-bit size_t and the 32-bit field descriptors (`PB_FIELD_32BIT`) the pod is built with.
- Memory layout beyond the offsets of the iterator: a decoded message is a tree of slots, and a union's members have a slot each of which at most one is set.
- Cryptography, certificates, randomness and key derivation: sealing and opening are uninterpreted functions, MACs and signatures are symbolic.
- TLS 1.3, early data, SSL 3.0, V2ClientHello, HelloVerifyRequest, renegotiation, post-handshake messages, alerts and shutdown.
- Extension parsing, version negotiation and session lookup: their outcome is the flags of a hello; the contents of certificates, tickets and key exchanges are opaque.
- The application data path of DTLS and reading application data in TLS.
- Timers, the MTU query (the MTU is a parameter of each send), statistics, error queues, info and message callbacks, and allocation failure.
- The transport, which is a function that says for each write how many bytes it takes or that it fails.
- Sealing in place: sealed records are values. `pending_flight` and `hs_buf`, which are BUF_MEM objects, are sequences; the write buffer is an array with the library's own offset, size and capacity.
- Swift code, and `ssl_asn1.cc` and `handoff.cc`, which rest on ASN.1 routines that are not part of this model.
