/** TLS handshake messages in a stream of record bodies: the messages handed out do not depend on how the stream
    was cut into records (s3_both.cc). */
module TlsMessages {
  import opened DtlsWire
  import opened Octets
  import opened TlsSending

  const HM_HEADER: nat := 4

  /** parse_message: the length of the first message with its header, once all of it is there. */
  function FirstMessage(bs: Bytes): (n: Option<nat>)
    ensures n.Some? ==> HM_HEADER <= n.value <= |bs|
  {
    if |bs| < HM_HEADER then None
    else
      var n := HM_HEADER + Get24(bs[1], bs[2], bs[3]);
      if |bs| < n then None else Some(n)
  }

  /** The first message is there exactly if four bytes are and as many more as the last three of them say. */
  lemma FirstMessageIs(bs: Bytes)
    ensures FirstMessage(bs).Some? <==>
      |bs| >= 4 && 4 + 0x1_0000 * (bs[1] as int) + 0x100 * (bs[2] as int) + bs[3] as int <= |bs|
    ensures FirstMessage(bs).Some? ==>
      FirstMessage(bs).value == 4 + 0x1_0000 * (bs[1] as int) + 0x100 * (bs[2] as int) + bs[3] as int
  {
  }

  /** A type, the length of the body in three bytes, and the body make a message. */
  lemma MessageIs(ty: Byte, body: Bytes)
    requires |body| < U24
    ensures IsMessage([ty, |body| / 0x1_0000, |body| / 0x100 % 0x100, |body| % 0x100] + body)
  {
    var n := |body|;
    assert n == 0x1_0000 * (n / 0x1_0000) + 0x100 * (n / 0x100 % 0x100) + n % 0x100;
    FirstMessageIs([ty, n / 0x1_0000, n / 0x100 % 0x100, n % 0x100] + body);
  }

  datatype Stream = Stream(messages: seq<Bytes>, rest: Bytes)

  /** The whole messages a stream of bytes holds, and the bytes after them. */
  function Split(bs: Bytes): Stream
    decreases |bs|
  {
    match FirstMessage(bs)
    case None => Stream([], bs)
    case Some(n) =>
      var s := Split(bs[n..]);
      Stream([bs[..n]] + s.messages, s.rest)
  }

  /** More bytes at the end do not change a message that is complete. */
  lemma FirstMessageStays(a: Bytes, b: Bytes)
    requires FirstMessage(a).Some?
    ensures FirstMessage(a + b) == FirstMessage(a)
  {
  }

  /** Messages may be taken out at any time: what is left, with what comes, gives the others. */
  lemma {:induction false} SplitGrows(a: Bytes, b: Bytes)
    ensures var s := Split(a);
            var t := Split(s.rest + b);
            Split(a + b) == Stream(s.messages + t.messages, t.rest)
    decreases |a|
  {
    hide FirstMessage;
    var n := FirstMessage(a);
    if n.Some? {
      FirstMessageStays(a, b);
      assert (a + b)[n.value..] == a[n.value..] + b && (a + b)[..n.value] == a[..n.value];
      SplitGrows(a[n.value..], b);
    }
  }

  /** A message as ssl3_add_message is given it. */
  predicate IsMessage(m: Bytes)
  {
    FirstMessage(m) == Some(|m|)
  }

  /** Messages written one after the other split into themselves. */
  lemma {:induction false} SplitJoined(ms: seq<Bytes>)
    requires forall i :: 0 <= i < |ms| ==> IsMessage(ms[i])
    ensures Split(Concat(ms)) == Stream(ms, [])
  {
    hide FirstMessage;
    if ms == [] {
      NoMessage();
    } else {
      var rest := Concat(ms[1..]);
      FirstMessageStays(ms[0], rest);
      assert (ms[0] + rest)[..|ms[0]|] == ms[0] && (ms[0] + rest)[|ms[0]|..] == rest;
      SplitJoined(ms[1..]);
      assert ms == [ms[0]] + ms[1..];
    }
  }

  lemma NoMessage()
    ensures FirstMessage([]) == None
  {
  }

  lemma {:induction false} ConcatAppend(a: seq<Bytes>, b: seq<Bytes>)
    ensures Concat(a + b) == Concat(a) + Concat(b)
  {
    if a == [] {
      assert a + b == b;
    } else {
      assert (a + b)[1..] == a[1..] + b;
      ConcatAppend(a[1..], b);
    }
  }

  /** The record bodies that ssl3_add_message makes of several messages. */
  function RecordBodies(ms: seq<Bytes>, max: nat): seq<Bytes>
    requires max > 0
  {
    if ms == [] then [] else Pieces(ms[0], max) + RecordBodies(ms[1..], max)
  }

  lemma {:induction false} BodiesJoin(ms: seq<Bytes>, max: nat)
    requires max > 0
    ensures Concat(RecordBodies(ms, max)) == Concat(ms)
  {
    if ms != [] {
      PiecesJoin(ms[0], max);
      ConcatAppend(Pieces(ms[0], max), RecordBodies(ms[1..], max));
      BodiesJoin(ms[1..], max);
    }
  }

  /** Whatever the fragment limit, the messages sent are the messages the receiver finds. */
  lemma {:induction false} MessagesSurviveRecords(ms: seq<Bytes>, max: nat)
    requires max > 0 && forall i :: 0 <= i < |ms| ==> IsMessage(ms[i])
    ensures Split(Concat(RecordBodies(ms, max))) == Stream(ms, [])
  {
    BodiesJoin(ms, max);
    SplitJoined(ms);
  }

  /** hs_buf and has_message */
  class MessageBuffer {
    var data: Bytes
    var hasMessage: bool
    /** All bytes ever received and all messages taken. */
    ghost var stream: Bytes
    ghost var taken: seq<Bytes>

    /** The messages of the stream are those taken and those still in the buffer. */
    ghost predicate Valid()
      reads this
    {
      var s := Split(data);
      Split(stream) == Stream(taken + s.messages, s.rest)
    }

    constructor ()
      ensures Valid() && stream == [] && taken == [] && data == []
    {
      data, hasMessage, stream, taken := [], false, [], [];
      new;
      NoMessage();
    }

    /** The end of ssl3_open_handshake. */
    method AppendRecord(body: Bytes)
      requires Valid()
      modifies this`data, this`stream
      ensures Valid() && stream == old(stream) + body && data == old(data) + body
    {
      hide Split;
      SplitGrows(data, body);
      SplitGrows(stream, body);
      ghost var s, t := Split(data), Split(Split(data).rest + body);
      assert taken + s.messages + t.messages == taken + (s.messages + t.messages);
      data, stream := data + body, stream + body;
    }

    /** ssl3_get_message: the first message of the stream not yet taken, if it is all there. */
    method GetMessage() returns (msg: Option<Bytes>)
      requires Valid()
      modifies this`hasMessage
      ensures Valid()
      ensures var all := Split(stream).messages;
              msg == if |all| > |taken| then Some(all[|taken|]) else None
    {
      var n := FirstMessage(data);
      if n.None? {
        return None;
      }
      hasMessage := true;
      assert (taken + Split(data).messages)[|taken|] == data[..n.value];
      return Some(data[..n.value]);
    }

    /** ssl3_next_message */
    method NextMessage()
      requires Valid() && |Split(stream).messages| > |taken|
      modifies this`data, this`hasMessage, this`taken
      ensures Valid() && taken == Split(stream).messages[..|old(taken)| + 1] && taken[..|old(taken)|] == old(taken)
    {
      hide FirstMessage;
      var n := FirstMessage(data);
      ghost var s := Split(data);
      assert n.Some?;
      assert taken + s.messages == taken + [data[..n.value]] + Split(data[n.value..]).messages;
      taken := taken + [data[..n.value]];
      data := data[n.value..];
      hasMessage := false;
    }
  }
}
