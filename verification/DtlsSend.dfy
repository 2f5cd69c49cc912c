/** Sending a flight of DTLS handshake messages: fragments packed into records and packets under a limit, with
    a cursor that is put back when a packet is refused and rewound for a retransmission (d1_both.cc,
    dtls_record.cc; sections 4.2.3 and 4.2.4 of RFC 6347). */
module DtlsSend {
  import opened DtlsNumbers
  import opened DtlsReceive
  import opened DtlsRecord
  import opened DtlsReplay
  import opened DtlsWire
  import opened Octets
  import opened RecordTypes

  const MIN_MTU: nat := 228

  /** A write cipher: ExplicitNonceLen, MaxOverhead, the suffix length of a plaintext if it is not too long,
      and whether sealing a plaintext under a number goes well. */
  datatype Cipher = Cipher(prefix: nat, maxOverhead: nat, suffix: nat -> Option<nat>, seals: (Byte, nat, Bytes) -> bool)

  /** DTLS_OUTGOING_MESSAGE */
  datatype Outgoing = Outgoing(data: Bytes, epoch: nat, isCcs: bool)

  /** A sealed record: its plaintext under its epoch and number, and its length in the packet. */
  datatype Record = Record(ty: Byte, epoch: nat, number: nat, payload: Bytes, size: nat)

  /** DTLS1_STATE, the sending part, with the write numbers. */
  datatype Tx = Tx(outgoing: seq<Outgoing>, written: nat, offset: nat, complete: bool, hasReply: bool,
                   messageSeq: nat, numbers: Numbers, cipher: Cipher, lastCipher: Cipher)
  {
    ghost predicate Valid()
    {
      && |outgoing| <= FLIGHT && numbers.Fits() && messageSeq < U16
      && CursorOk(outgoing, (written, offset))
    }

    function CipherOf(previous: bool): Cipher
    {
      if previous then lastCipher else cipher
    }
  }

  /** A position in a flight: messages done, and bytes of the next one done. */
  type Cursor = (nat, nat)

  /** The fragment a message is kept as, when it is a whole message. */
  function WholeOf(data: Bytes): (w: Option<Fragment>)
    ensures w.Some? ==> w.value.Fits()
  {
    match ParseFragment(data)
    case None => None
    case Some((f, rest)) =>
      if rest == [] && f.hdr.fragOff == 0 && f.hdr.msgLen == |f.body| then Some(f) else None
  }

  lemma WholeOfEncoded(f: Fragment)
    requires f.Fits() && f.hdr.fragOff == 0 && f.hdr.msgLen == |f.body|
    ensures WholeOf(EncodeFragment(f)) == Some(f)
  {
    hide EncodeFragment;
    hide ParseFragment;
    ParseEncoded(f, []);
    assert EncodeFragment(f) + [] == EncodeFragment(f);
  }

  ghost predicate CursorOk(outgoing: seq<Outgoing>, c: Cursor)
  {
    && c.0 <= |outgoing|
    && (c.1 != 0 ==>
        && c.0 < |outgoing| && !outgoing[c.0].isCcs
        && WholeOf(outgoing[c.0].data).Some? && c.1 < |WholeOf(outgoing[c.0].data).value.body|)
  }

  // ---------------------------------------------------------------- building a flight

  /** dtls_clear_outgoing_messages */
  function Clear(tx: Tx): Tx
  {
    tx.(outgoing := [], written := 0, offset := 0, complete := false, hasReply := false)
  }

  /** add_outgoing */
  function AddOutgoing(tx: Tx, isCcs: bool, data: Bytes): (Tx, bool)
  {
    var t := if tx.complete then Clear(tx) else tx;
    if |t.outgoing| >= FLIGHT || |data| >= U32 then (t, false)
    else
      var m := Outgoing(data, t.numbers.epoch, isCcs);
      (t.(outgoing := t.outgoing + [m], messageSeq := if isCcs then t.messageSeq else (t.messageSeq + 1) % U16), true)
  }

  // ---------------------------------------------------------------- sealing

  /** dtls_seal_record */
  function SealRecord(tx: Tx, ty: Byte, payload: Bytes, previous: bool, maxOut: nat): (Tx, Option<Record>)
  {
    var c := tx.CipherOf(previous);
    var p := tx.numbers.Pair(previous);
    if maxOut < RT_HEADER_LENGTH then (tx, None)
    else
      match c.suffix(|payload|)
      case None => (tx, None)
      case Some(suffix) =>
        var length := c.prefix + |payload| + suffix;
        if RT_HEADER_LENGTH + length > maxOut || !c.seals(ty, p.1, payload) then (tx, None)
        else
          var t := tx.(numbers := tx.numbers.Used(previous));
          if tx.numbers.Wraps(previous) || length >= U16 then (t, None)
          else (t, Some(Record(ty, p.0, p.1, payload, RT_HEADER_LENGTH + length)))
  }

  datatype Sealing = SealError(tx: Tx) | NoProgress | PartDone(tx: Tx, rec: Record) | MessageDone(tx: Tx, rec: Record)

  /** seal_next_message */
  function SealNextMessage(tx: Tx, maxOut: nat): Sealing
    requires tx.written < |tx.outgoing|
  {
    var m := tx.outgoing[tx.written];
    var previous := tx.numbers.epoch >= 1 && m.epoch == tx.numbers.epoch - 1;
    if !previous && m.epoch != tx.numbers.epoch then SealError(tx)
    else
      var overhead := RT_HEADER_LENGTH + tx.CipherOf(previous).maxOverhead;
      if m.isCcs then
        if maxOut < 1 + overhead then NoProgress
        else
          var (t, r) := SealRecord(tx, RT_CCS, CCS_BODY, previous, maxOut);
          if r.None? then SealError(t) else MessageDone(t, r.value)
      else SealNextFragment(tx, m, previous, overhead, maxOut)
  }

  /** The part of seal_next_message that deals with a handshake message. */
  function SealNextFragment(tx: Tx, m: Outgoing, previous: bool, overhead: nat, maxOut: nat): Sealing
  {
    var w := WholeOf(m.data);
    if w.None? || tx.offset > |w.value.body| then SealError(tx)
    else if maxOut < HM_HEADER_LENGTH + 1 + overhead || maxOut < RT_HEADER_LENGTH + tx.CipherOf(previous).prefix then
      NoProgress
    else
      var left := |w.value.body| - tx.offset;
      var room := maxOut - HM_HEADER_LENGTH - overhead;
      var todo := if left > room then room else left;
      var f := Piece(w.value, tx.offset, todo);
      var (t, r) := SealRecord(tx, RT_HANDSHAKE, EncodeFragment(f), previous, maxOut);
      if r.None? then SealError(t)
      else if todo == left then MessageDone(t.(offset := 0), r.value)
      else PartDone(t.(offset := tx.offset + todo), r.value)
  }

  /** `n` bytes of a whole message from `off`, as a fragment. */
  function Piece(w: Fragment, off: nat, n: nat): (f: Fragment)
    requires w.Fits() && off + n <= |w.body|
    ensures f.Fits()
  {
    Fragment(w.hdr.(fragOff := off, fragLen := n), w.body[off..off + n])
  }

  /** seal_next_packet: the records of the next packet, or a failure. */
  function SealNextPacket(tx: Tx, maxOut: nat, progress: bool): (Tx, Option<seq<Record>>)
    requires tx.written <= |tx.outgoing|
    decreases |tx.outgoing| - tx.written
  {
    if tx.written == |tx.outgoing| then (tx, if progress then Some([]) else None)
    else
      match SealNextMessage(tx, maxOut)
      case SealError(t) => (t, None)
      case NoProgress => (tx, if progress then Some([]) else None)
      case PartDone(t, r) => (t, Some([r]))
      case MessageDone(t, r) =>
        SealKeeps(tx, maxOut);
        var (u, rs) := SealNextPacket(t.(written := tx.written + 1), maxOut - r.size, true);
        (u, if rs.None? then None else Some([r] + rs.value))
  }

  // ---------------------------------------------------------------- what sealing does to the state

  /** Only the numbers and the offset moved. */
  ghost predicate Kept(tx: Tx, t: Tx)
  {
    t == tx.(numbers := t.numbers, offset := t.offset) && t.numbers.epoch == tx.numbers.epoch
  }

  lemma SealRecordKeeps(tx: Tx, ty: Byte, payload: Bytes, previous: bool, maxOut: nat)
    requires previous ==> tx.numbers.epoch >= 1
    ensures var (t, r) := SealRecord(tx, ty, payload, previous, maxOut);
            && Kept(tx, t) && t.offset == tx.offset
            && (tx.numbers.Fits() ==> t.numbers.Fits())
            && (r.Some? ==>
                && r.value.size <= maxOut && r.value.ty == ty && r.value.payload == payload
                && r.value.epoch == (if previous then tx.numbers.epoch - 1 else tx.numbers.epoch))
  {
  }

  /** The record is the piece of a message that follows its first `off` bytes. */
  predicate Carries(r: Record, w: Fragment, off: nat)
    requires w.Fits()
  {
    var p := ParseFragment(r.payload);
    && r.ty == RT_HANDSHAKE && p.Some? && p.value.1 == []
    && var n := |p.value.0.body|;
       && off + n <= |w.body| && p.value.0 == Piece(w, off, n)
       && (n == 0 ==> off == |w.body|)
  }

  /** What one fragment of a message leaves in the packet: the next piece of the message. */
  lemma FragmentSealed(tx: Tx, m: Outgoing, previous: bool, overhead: nat, maxOut: nat)
    requires previous ==> tx.numbers.epoch >= 1
    ensures var s := SealNextFragment(tx, m, previous, overhead, maxOut);
            && (s.SealError? ==> Kept(tx, s.tx) && s.tx.offset == tx.offset)
            && (!s.NoProgress? && tx.numbers.Fits() ==> s.tx.numbers.Fits())
            && (s.PartDone? || s.MessageDone? ==>
                && Kept(tx, s.tx) && s.rec.size <= maxOut
                && s.rec.epoch == (if previous then tx.numbers.epoch - 1 else tx.numbers.epoch)
                && WholeOf(m.data).Some? && Carries(s.rec, WholeOf(m.data).value, tx.offset)
                && s.tx.offset == (if s.MessageDone? then 0 else tx.offset + |ParseFragment(s.rec.payload).value.0.body|)
                && (s.MessageDone? <==> tx.offset + |ParseFragment(s.rec.payload).value.0.body| == |WholeOf(m.data).value.body|))
  {
    hide SealRecord;
    hide WholeOf;
    hide ParseFragment;
    hide EncodeFragment;
    var w := WholeOf(m.data);
    if w.Some? && tx.offset <= |w.value.body| && maxOut >= HM_HEADER_LENGTH + 1 + overhead {
      var left := |w.value.body| - tx.offset;
      var room := maxOut - HM_HEADER_LENGTH - overhead;
      var todo := if left > room then room else left;
      var f := Piece(w.value, tx.offset, todo);
      SealRecordKeeps(tx, RT_HANDSHAKE, EncodeFragment(f), previous, maxOut);
      ParseEncoded(f, []);
      assert EncodeFragment(f) + [] == EncodeFragment(f);
      var s := SealNextFragment(tx, m, previous, overhead, maxOut);
      if s.PartDone? || s.MessageDone? {
        assert s.rec == SealRecord(tx, RT_HANDSHAKE, EncodeFragment(f), previous, maxOut).1.value;
        assert s.tx == SealRecord(tx, RT_HANDSHAKE, EncodeFragment(f), previous, maxOut).0.(offset := s.tx.offset);
        KeptOffset(tx, SealRecord(tx, RT_HANDSHAKE, EncodeFragment(f), previous, maxOut).0, s.tx.offset);
      }
    }
  }

  lemma KeptOffset(tx: Tx, t: Tx, offset: nat)
    requires Kept(tx, t)
    ensures Kept(tx, t.(offset := offset))
  {
  }

  lemma SealKeeps(tx: Tx, maxOut: nat)
    requires tx.written < |tx.outgoing|
    ensures var s := SealNextMessage(tx, maxOut);
            && (s.SealError? ==> Kept(tx, s.tx) && s.tx.offset == tx.offset)
            && (s.PartDone? || s.MessageDone? ==> Kept(tx, s.tx) && s.rec.size <= maxOut)
            && (tx.numbers.Fits() && !s.NoProgress? ==> s.tx.numbers.Fits())
  {
    hide SealRecord;
    hide SealNextFragment;
    hide Carries;
    var m := tx.outgoing[tx.written];
    var previous := tx.numbers.epoch >= 1 && m.epoch == tx.numbers.epoch - 1;
    SealRecordKeeps(tx, RT_CCS, CCS_BODY, previous, maxOut);
    ghost var q := SealRecord(tx, RT_CCS, CCS_BODY, previous, maxOut);
    if m.isCcs && q.1.Some? {
      assert SealNextMessage(tx, maxOut).MessageDone? ==> SealNextMessage(tx, maxOut) == MessageDone(q.0, q.1.value);
    }
    FragmentSealed(tx, m, previous, RT_HEADER_LENGTH + tx.CipherOf(previous).maxOverhead, maxOut);
  }

  // ---------------------------------------------------------------- what a record says about the flight

  /** The cursor after a record that carries the next part of the flight, from `c`; none if it does not. */
  function Advance(outgoing: seq<Outgoing>, c: Cursor, r: Record): Option<Cursor>
  {
    if c.0 >= |outgoing| || r.epoch != outgoing[c.0].epoch then None
    else if outgoing[c.0].isCcs then
      if c.1 == 0 && r.ty == RT_CCS && r.payload == CCS_BODY then Some((c.0 + 1, 0)) else None
    else
      var w := WholeOf(outgoing[c.0].data);
      if w.None? || !Carries(r, w.value, c.1) then None
      else
        var end := c.1 + |ParseFragment(r.payload).value.0.body|;
        Some(if end == |w.value.body| then (c.0 + 1, 0) else (c.0, end))
  }

  /** The cursor after a run of records. */
  function AdvanceAll(outgoing: seq<Outgoing>, c: Cursor, rs: seq<Record>): Option<Cursor>
    decreases |rs|
  {
    if rs == [] then Some(c)
    else
      var d := Advance(outgoing, c, rs[0]);
      if d.None? then None else AdvanceAll(outgoing, d.value, rs[1..])
  }

  /** A sealed record carries exactly the part of the flight the cursor moved over. */
  lemma SealAdvances(tx: Tx, maxOut: nat)
    requires tx.written < |tx.outgoing| && CursorOk(tx.outgoing, (tx.written, tx.offset))
    ensures var s := SealNextMessage(tx, maxOut);
            && (s.PartDone? ==> Advance(tx.outgoing, (tx.written, tx.offset), s.rec) == Some((tx.written, s.tx.offset)))
            && (s.MessageDone? ==>
                && s.tx.offset == 0
                && Advance(tx.outgoing, (tx.written, tx.offset), s.rec) == Some((tx.written + 1, 0)))
  {
    hide SealRecord;
    hide SealNextFragment;
    hide WholeOf;
    hide Carries;
    hide ParseFragment;
    var m := tx.outgoing[tx.written];
    var previous := tx.numbers.epoch >= 1 && m.epoch == tx.numbers.epoch - 1;
    SealRecordKeeps(tx, RT_CCS, CCS_BODY, previous, maxOut);
    ghost var q := SealRecord(tx, RT_CCS, CCS_BODY, previous, maxOut);
    if m.isCcs && q.1.Some? {
      assert SealNextMessage(tx, maxOut).MessageDone? ==> SealNextMessage(tx, maxOut) == MessageDone(q.0, q.1.value);
    }
    FragmentSealed(tx, m, previous, RT_HEADER_LENGTH + tx.CipherOf(previous).maxOverhead, maxOut);
  }

  /** For every state: a message is sealed under the epoch it was composed in and under no other; nothing is sealed exactly if
      there is no room for a ChangeCipherSpec, or for a header and one byte of a message; and a message is left in part only
      if the packet has no room for more of it. */
  lemma SealVerdict(tx: Tx, maxOut: nat)
    requires tx.written < |tx.outgoing|
    ensures var m, e, s := tx.outgoing[tx.written], tx.numbers.epoch, SealNextMessage(tx, maxOut);
            if m.epoch != e && m.epoch + 1 != e then s == SealError(tx)
            else
              var c := if m.epoch == e then tx.cipher else tx.lastCipher;
              && (m.isCcs ==> (s.NoProgress? <==> maxOut < 13 + 1 + c.maxOverhead) && !s.PartDone?)
              && (!m.isCcs && WholeOf(m.data).Some? && tx.offset <= |WholeOf(m.data).value.body| ==>
                  (s.NoProgress? <==> maxOut < 13 + 12 + 1 + c.maxOverhead || maxOut < 13 + c.prefix))
              && (s.PartDone? || s.MessageDone? ==> s.rec.epoch == m.epoch && s.rec.ty == if m.isCcs then 20 else 22)
              && (s.PartDone? ==> ParseFragment(s.rec.payload).Some?
                                  && 13 + 12 + |ParseFragment(s.rec.payload).value.0.body| + c.maxOverhead == maxOut)
  {
    hide WholeOf;
    hide ParseFragment;
    hide EncodeFragment;
    hide SealRecord;
    var m := tx.outgoing[tx.written];
    var previous := tx.numbers.epoch >= 1 && m.epoch == tx.numbers.epoch - 1;
    var overhead := RT_HEADER_LENGTH + tx.CipherOf(previous).maxOverhead;
    SealRecordKeeps(tx, RT_CCS, CCS_BODY, previous, maxOut);
    var w := WholeOf(m.data);
    if !m.isCcs && w.Some? && tx.offset <= |w.value.body| && maxOut >= HM_HEADER_LENGTH + 1 + overhead {
      var left := |w.value.body| - tx.offset;
      var room := maxOut - HM_HEADER_LENGTH - overhead;
      var f := Piece(w.value, tx.offset, if left > room then room else left);
      SealRecordKeeps(tx, RT_HANDSHAKE, EncodeFragment(f), previous, maxOut);
      ParseEncoded(f, []);
      assert EncodeFragment(f) + [] == EncodeFragment(f);
      var q, s := SealRecord(tx, RT_HANDSHAKE, EncodeFragment(f), previous, maxOut), SealNextFragment(tx, m, previous, overhead, maxOut);
      if s.PartDone? || s.MessageDone? {
        assert s.rec == q.1.value;
      }
    } else if m.isCcs {
      var q, s := SealRecord(tx, RT_CCS, CCS_BODY, previous, maxOut), SealNextMessage(tx, maxOut);
      if s.MessageDone? {
        assert s.rec == q.1.value;
      }
    }
  }

  /** The cursor stays in the flight, between messages or inside one. */
  lemma SealedCursor(tx: Tx, maxOut: nat)
    requires tx.written < |tx.outgoing| && CursorOk(tx.outgoing, (tx.written, tx.offset))
    ensures var s := SealNextMessage(tx, maxOut);
            !s.NoProgress? ==> CursorOk(s.tx.outgoing, (s.tx.written, s.tx.offset))
  {
    hide SealNextMessage;
    hide Advance;
    hide WholeOf;
    SealKeeps(tx, maxOut);
    SealAdvances(tx, maxOut);
    var s := SealNextMessage(tx, maxOut);
    if s.PartDone? {
      AdvanceOk(tx.outgoing, (tx.written, tx.offset), s.rec);
    }
  }

  function Cursor0(tx: Tx): Cursor
  {
    (tx.written, tx.offset)
  }

  /** Nothing of the flight but the cursor and the numbers moved. */
  ghost predicate SameFlight(tx: Tx, t: Tx)
  {
    t == tx.(numbers := t.numbers, written := t.written, offset := t.offset) && t.numbers.epoch == tx.numbers.epoch
  }

  function Sizes(rs: seq<Record>): nat
  {
    if rs == [] then 0 else rs[0].size + Sizes(rs[1..])
  }

  lemma AdvanceOk(outgoing: seq<Outgoing>, c: Cursor, r: Record)
    requires CursorOk(outgoing, c) && Advance(outgoing, c, r).Some?
    ensures var d := Advance(outgoing, c, r).value;
            CursorOk(outgoing, d) && ((d.0 == c.0 + 1 && d.1 == 0) || (d.0 == c.0 && d.1 > c.1))
  {
    hide WholeOf;
    hide ParseFragment;
  }

  /** A packet holds exactly the part of the flight the cursor moved over, and fits. */
  lemma {:induction false} PacketAdvances(tx: Tx, maxOut: nat, progress: bool)
    requires CursorOk(tx.outgoing, Cursor0(tx))
    ensures var (t, rs) := SealNextPacket(tx, maxOut, progress);
            && SameFlight(tx, t) && (tx.numbers.Fits() ==> t.numbers.Fits())
            && (rs.Some? ==>
                && AdvanceAll(tx.outgoing, Cursor0(tx), rs.value) == Some(Cursor0(t))
                && (progress || rs.value != []) && Sizes(rs.value) <= maxOut)
    decreases |tx.outgoing| - tx.written
  {
    hide SealNextMessage;
    hide Advance;
    hide WholeOf;
    if tx.written < |tx.outgoing| {
      SealKeeps(tx, maxOut);
      SealAdvances(tx, maxOut);
      var s := SealNextMessage(tx, maxOut);
      if s.PartDone? {
        assert AdvanceAll(tx.outgoing, Cursor0(s.tx), [s.rec][1..]) == Some(Cursor0(s.tx));
        assert Sizes([s.rec]) == s.rec.size + Sizes([s.rec][1..]);
      } else if s.MessageDone? {
        AdvanceOk(tx.outgoing, Cursor0(tx), s.rec);
        var v := s.tx.(written := tx.written + 1);
        PacketAdvances(v, maxOut - s.rec.size, true);
        var (u, rs) := SealNextPacket(v, maxOut - s.rec.size, true);
        assert SealNextPacket(tx, maxOut, progress) == (u, if rs.None? then None else Some([s.rec] + rs.value));
        if rs.Some? {
          assert ([s.rec] + rs.value)[1..] == rs.value;
        }
      }
    }
  }

  /** How far a cursor is from the end of the flight. */
  function MessageLeft(outgoing: seq<Outgoing>, c: Cursor): int
  {
    if c.0 < |outgoing| && WholeOf(outgoing[c.0].data).Some? then |WholeOf(outgoing[c.0].data).value.body| - c.1 else 0
  }

  ghost predicate Closer(outgoing: seq<Outgoing>, c: Cursor, d: Cursor)
  {
    d.0 > c.0 || (d.0 == c.0 && 0 <= MessageLeft(outgoing, d) < MessageLeft(outgoing, c))
  }

  lemma {:induction false} AdvanceAllOk(outgoing: seq<Outgoing>, c: Cursor, rs: seq<Record>)
    requires CursorOk(outgoing, c) && AdvanceAll(outgoing, c, rs).Some?
    ensures var d := AdvanceAll(outgoing, c, rs).value;
            CursorOk(outgoing, d) && (rs != [] ==> Closer(outgoing, c, d))
    decreases |rs|
  {
    hide Advance;
    hide WholeOf;
    if rs != [] {
      AdvanceOk(outgoing, c, rs[0]);
      var d := Advance(outgoing, c, rs[0]).value;
      AdvanceAllOk(outgoing, d, rs[1..]);
    }
  }

  // ---------------------------------------------------------------- sending a flight

  datatype Outcome = Sent | Blocked | SealFailed

  /** send_flight: the state afterwards, the packets the transport took, and how it ended. `bio` answers the
      writes, and at last the flush, from call `k` on. */
  ghost function SendFlight(tx: Tx, mtu: nat, bio: nat -> bool, k: nat): (Tx, seq<seq<Record>>, Outcome)
    requires CursorOk(tx.outgoing, Cursor0(tx))
    decreases |tx.outgoing| - tx.written, MessageLeft(tx.outgoing, Cursor0(tx))
  {
    if tx.written == |tx.outgoing| then (tx, [], if bio(k) then Sent else Blocked)
    else
      var (t, rs) := SealNextPacket(tx, mtu, false);
      if rs.None? then (t, [], SealFailed)
      else if !bio(k) then (t.(written := tx.written, offset := tx.offset), [], Blocked)
      else
        PacketAdvances(tx, mtu, false);
        AdvanceAllOk(tx.outgoing, Cursor0(tx), rs.value);
        var (u, ps, o) := SendFlight(t, mtu, bio, k + 1);
        (u, [rs.value] + ps, o)
  }

  /** dtls1_flush_flight */
  ghost function FlushFlight(tx: Tx, mtu: nat, bio: nat -> bool): (Tx, seq<seq<Record>>, Outcome)
    requires CursorOk(tx.outgoing, Cursor0(tx))
  {
    SendFlight(tx.(complete := true), mtu, bio, 0)
  }

  /** dtls1_retransmit_outgoing_messages */
  ghost function Retransmit(tx: Tx, mtu: nat, bio: nat -> bool): (Tx, seq<seq<Record>>, Outcome)
  {
    SendFlight(tx.(written := 0, offset := 0), mtu, bio, 0)
  }

  function Flat(ps: seq<seq<Record>>): seq<Record>
  {
    if ps == [] then [] else ps[0] + Flat(ps[1..])
  }

  lemma {:induction false} AdvanceJoin(outgoing: seq<Outgoing>, c: Cursor, a: seq<Record>, b: seq<Record>)
    ensures AdvanceAll(outgoing, c, a + b)
         == match AdvanceAll(outgoing, c, a) { case None => None case Some(d) => AdvanceAll(outgoing, d, b) }
    decreases |a|
  {
    hide Advance;
    if a == [] {
      assert a + b == b;
    } else {
      assert (a + b)[1..] == a[1..] + b;
      var d := Advance(outgoing, c, a[0]);
      if d.Some? {
        AdvanceJoin(outgoing, d.value, a[1..], b);
      }
    }
  }

  /** Whatever writes fail, the packets taken by the transport are exactly the part of the flight the cursor
      moved over, as long as sealing does not fail; sending succeeds only at the end of the flight. */
  lemma {:induction false} SendAdvances(tx: Tx, mtu: nat, bio: nat -> bool, k: nat)
    requires CursorOk(tx.outgoing, Cursor0(tx))
    ensures var (u, ps, o) := SendFlight(tx, mtu, bio, k);
            && SameFlight(tx, u) && (tx.numbers.Fits() ==> u.numbers.Fits())
            && (o != SealFailed ==> AdvanceAll(tx.outgoing, Cursor0(tx), Flat(ps)) == Some(Cursor0(u)))
            && (o == SealFailed ==> AdvanceAll(tx.outgoing, Cursor0(tx), Flat(ps)).Some?)
            && (o == Sent ==> u.written == |tx.outgoing|)
            && (forall i :: 0 <= i < |ps| ==> Sizes(ps[i]) <= mtu)
    decreases |tx.outgoing| - tx.written, MessageLeft(tx.outgoing, Cursor0(tx))
  {
    hide SealNextPacket;
    hide WholeOf;
    hide Advance;
    if tx.written < |tx.outgoing| {
      PacketAdvances(tx, mtu, false);
      var (t, rs) := SealNextPacket(tx, mtu, false);
      if rs.Some? && bio(k) {
        AdvanceAllOk(tx.outgoing, Cursor0(tx), rs.value);
        SendAdvances(t, mtu, bio, k + 1);
        var (u, ps, o) := SendFlight(t, mtu, bio, k + 1);
        var qs := [rs.value] + ps;
        assert qs[1..] == ps && Flat(qs) == rs.value + Flat(ps);
        AdvanceJoin(tx.outgoing, Cursor0(tx), rs.value, Flat(ps));
        assert SendFlight(tx, mtu, bio, k) == (u, qs, o);
      }
    }
  }

  /** What has been sent since the last rewind is the flight up to the cursor; `flying` are the records of the
      packets taken since. */
  ghost predicate Flown(tx: Tx, flying: seq<Record>)
  {
    AdvanceAll(tx.outgoing, (0, 0), flying) == Some(Cursor0(tx))
  }

  /** Flight conservation. */
  lemma FlightConserved(tx: Tx, flying: seq<Record>, mtu: nat, bio: nat -> bool)
    requires Flown(tx, flying)
    ensures CursorOk(tx.outgoing, Cursor0(tx))
    ensures var (u, ps, o) := FlushFlight(tx, mtu, bio);
            o != SealFailed ==> Flown(u, flying + Flat(ps)) && (o == Sent ==> u.written == |u.outgoing|)
    ensures var (u, ps, o) := Retransmit(tx, mtu, bio);
            o != SealFailed ==> Flown(u, Flat(ps)) && (o == Sent ==> u.written == |u.outgoing|)
  {
    hide SendFlight;
    hide Advance;
    AdvanceAllOk(tx.outgoing, (0, 0), flying);
    SendAdvances(tx.(complete := true), mtu, bio, 0);
    AdvanceJoin(tx.outgoing, (0, 0), flying, Flat(FlushFlight(tx, mtu, bio).1));
    SendAdvances(tx.(written := 0, offset := 0), mtu, bio, 0);
  }

  /** Sealing a packet, even when it fails, leaves the cursor in the flight. */
  lemma {:induction false} PacketKeepsCursor(tx: Tx, maxOut: nat, progress: bool)
    requires CursorOk(tx.outgoing, Cursor0(tx))
    ensures var t := SealNextPacket(tx, maxOut, progress).0;
            CursorOk(t.outgoing, Cursor0(t))
    decreases |tx.outgoing| - tx.written
  {
    hide SealNextMessage;
    hide WholeOf;
    if tx.written < |tx.outgoing| {
      SealKeeps(tx, maxOut);
      SealAdvances(tx, maxOut);
      SealedCursor(tx, maxOut);
      var s := SealNextMessage(tx, maxOut);
      if s.MessageDone? {
        PacketKeepsCursor(s.tx.(written := tx.written + 1), maxOut - s.rec.size, true);
      }
    }
  }

  lemma {:induction false} SendKeepsCursor(tx: Tx, mtu: nat, bio: nat -> bool, k: nat)
    requires CursorOk(tx.outgoing, Cursor0(tx))
    ensures var u := SendFlight(tx, mtu, bio, k).0;
            CursorOk(u.outgoing, Cursor0(u))
    decreases |tx.outgoing| - tx.written, MessageLeft(tx.outgoing, Cursor0(tx))
  {
    hide SealNextPacket;
    hide WholeOf;
    if tx.written < |tx.outgoing| {
      PacketAdvances(tx, mtu, false);
      PacketKeepsCursor(tx, mtu, false);
      var (t, rs) := SealNextPacket(tx, mtu, false);
      if rs.Some? && bio(k) {
        AdvanceAllOk(tx.outgoing, Cursor0(tx), rs.value);
        SendKeepsCursor(t, mtu, bio, k + 1);
      }
    }
  }

  // ---------------------------------------------------------------- the bytes of a flight

  /** The bytes of message `i` that a run of records carries, in order. */
  function BytesOf(outgoing: seq<Outgoing>, c: Cursor, rs: seq<Record>, i: nat): Bytes
    requires AdvanceAll(outgoing, c, rs).Some?
    decreases |rs|
  {
    if rs == [] then []
    else
      var rest := BytesOf(outgoing, Advance(outgoing, c, rs[0]).value, rs[1..], i);
      if c.0 == i && !outgoing[i].isCcs then ParseFragment(rs[0].payload).value.0.body + rest else rest
  }

  lemma {:induction false} NothingBehind(outgoing: seq<Outgoing>, c: Cursor, rs: seq<Record>, i: nat)
    requires CursorOk(outgoing, c) && AdvanceAll(outgoing, c, rs).Some? && i < c.0
    ensures BytesOf(outgoing, c, rs, i) == []
    decreases |rs|
  {
    hide Advance;
    if rs != [] {
      AdvanceOk(outgoing, c, rs[0]);
      NothingBehind(outgoing, Advance(outgoing, c, rs[0]).value, rs[1..], i);
    }
  }

  lemma PieceBytes(outgoing: seq<Outgoing>, c: Cursor, r: Record)
    requires CursorOk(outgoing, c) && Advance(outgoing, c, r).Some? && !outgoing[c.0].isCcs
    ensures WholeOf(outgoing[c.0].data).Some? && ParseFragment(r.payload).Some?
    ensures var body := WholeOf(outgoing[c.0].data).value.body;
            var e := Advance(outgoing, c, r).value;
            var end := if e.0 > c.0 then |body| else e.1;
            c.1 <= end <= |body| && ParseFragment(r.payload).value.0.body == body[c.1..end]
  {
    hide WholeOf;
    hide ParseFragment;
  }

  /** Records that move the cursor to `d` carry every message before it whole and the next up to the offset,
      each byte once and in order. */
  lemma {:induction false} BytesConserved(outgoing: seq<Outgoing>, c: Cursor, rs: seq<Record>, i: nat)
    requires CursorOk(outgoing, c) && AdvanceAll(outgoing, c, rs).Some?
    requires c.0 <= i < |outgoing| && !outgoing[i].isCcs && WholeOf(outgoing[i].data).Some?
    ensures var d := AdvanceAll(outgoing, c, rs).value;
            var body := WholeOf(outgoing[i].data).value.body;
            var start := if i == c.0 then c.1 else 0;
            var end := if i < d.0 then |body| else if i == d.0 then d.1 else 0;
            start <= end <= |body| && BytesOf(outgoing, c, rs, i) == body[start..end]
    decreases |rs|
  {
    hide WholeOf;
    hide ParseFragment;
    hide Advance;
    if rs != [] {
      var e := Advance(outgoing, c, rs[0]).value;
      if c.0 == i {
        PieceBytes(outgoing, c, rs[0]);
      }
      AdvanceOk(outgoing, c, rs[0]);
      AdvanceAllOk(outgoing, e, rs[1..]);
      if e.0 <= i {
        BytesConserved(outgoing, e, rs[1..], i);
        if e.0 == c.0 == i {
          var body, end := WholeOf(outgoing[i].data).value.body, AdvanceAll(outgoing, c, rs).value;
          var stop := if i < end.0 then |body| else end.1;
          assert body[c.1..e.1] + body[e.1..stop] == body[c.1..stop];
        }
      } else {
        NothingBehind(outgoing, e, rs[1..], i);
      }
    }
  }
}
