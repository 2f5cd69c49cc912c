/** The sending half of DTLS1_STATE as the code updates it, each step proved to be the one of DtlsSend. */
module DtlsSender {
  import opened DtlsNumbers
  import opened DtlsReceive
  import opened DtlsRecord
  import opened DtlsReplay
  import opened DtlsSend
  import opened DtlsWire
  import opened Octets
  import opened RecordTypes

  /** seal_result_t, with the record */
  datatype SealResult = ErrorResult | NoProgressResult | PartialResult(rec: Record) | SuccessResult(rec: Record)
  {
    ghost predicate Is(s: Sealing, before: Tx, after: Tx)
    {
      match this
      case ErrorResult => s == SealError(after)
      case NoProgressResult => s == NoProgress && after == before
      case PartialResult(r) => s == PartDone(after, r)
      case SuccessResult(r) => s == MessageDone(after, r)
    }
  }

  /** Records already in the packet, then the rest of it. */
  ghost function Prefixed(recs: seq<Record>, r: (Tx, Option<seq<Record>>)): (Tx, Option<seq<Record>>)
  {
    (r.0, if r.1.None? then None else Some(recs + r.1.value))
  }

  lemma PrefixNothing(r: (Tx, Option<seq<Record>>))
    ensures Prefixed([], r) == r
  {
    if r.1.Some? {
      assert [] + r.1.value == r.1.value;
    }
  }

  lemma PrefixMore(a: seq<Record>, b: seq<Record>, r: (Tx, Option<seq<Record>>))
    ensures Prefixed(a, Prefixed(b, r)) == Prefixed(a + b, r)
  {
    if r.1.Some? {
      assert a + (b + r.1.value) == a + b + r.1.value;
    }
  }

  /** One turn of the loop of seal_next_packet. */
  lemma PacketTurn(tx: Tx, room: nat, progress: bool, recs: seq<Record>)
    requires tx.written < |tx.outgoing| && CursorOk(tx.outgoing, Cursor0(tx))
    ensures var s := SealNextMessage(tx, room);
            var p := Prefixed(recs, SealNextPacket(tx, room, progress));
            && (s.SealError? ==> p == (s.tx, None))
            && (s.NoProgress? ==> p == (tx, if progress then Some(recs) else None))
            && (s.PartDone? ==> p == (s.tx, Some(recs + [s.rec])))
            && (s.MessageDone? ==>
                && s.tx.written == tx.written && s.tx.offset == 0 && s.tx.outgoing == tx.outgoing && s.rec.size <= room
                && p == Prefixed(recs + [s.rec], SealNextPacket(s.tx.(written := tx.written + 1), room - s.rec.size, true)))
  {
    hide SealNextMessage;
    hide CursorOk;
    SealKeeps(tx, room);
    SealAdvances(tx, room);
    var s := SealNextMessage(tx, room);
    if s.MessageDone? {
      var r := SealNextPacket(s.tx.(written := tx.written + 1), room - s.rec.size, true);
      PrefixMore(recs, [s.rec], r);
      assert SealNextPacket(tx, room, progress) == Prefixed([s.rec], r);
    } else if s.NoProgress? {
      assert recs + [] == recs;
    }
  }

  lemma {:induction false} PacketEnd(tx: Tx, room: nat, progress: bool, recs: seq<Record>)
    requires tx.written == |tx.outgoing|
    ensures Prefixed(recs, SealNextPacket(tx, room, progress)) == (tx, if progress then Some(recs) else None)
  {
    assert recs + [] == recs;
  }

  /** Packets already taken by the transport, then those still to come. */
  ghost function Shipped(packets: seq<seq<Record>>, r: (Tx, seq<seq<Record>>, Outcome)): (Tx, seq<seq<Record>>, Outcome)
  {
    (r.0, packets + r.1, r.2)
  }

  /** One turn of the loop of send_flight. */
  lemma FlightTurn(tx: Tx, mtu: nat, bio: nat -> bool, k: nat, packets: seq<seq<Record>>)
    requires tx.written < |tx.outgoing| && CursorOk(tx.outgoing, Cursor0(tx))
    ensures var (t, rs) := SealNextPacket(tx, mtu, false);
            var f := Shipped(packets, SendFlight(tx, mtu, bio, k));
            && t.outgoing == tx.outgoing
            && (rs.None? ==> f == (t, packets, SealFailed))
            && (rs.Some? && !bio(k) ==> f == (t.(written := tx.written, offset := tx.offset), packets, Blocked))
            && (rs.Some? ==> Closer(tx.outgoing, Cursor0(tx), Cursor0(t)) && CursorOk(t.outgoing, Cursor0(t)))
            && (rs.Some? && bio(k) ==> f == Shipped(packets + [rs.value], SendFlight(t, mtu, bio, k + 1)))
  {
    hide SealNextPacket;
    hide WholeOf;
    PacketAdvances(tx, mtu, false);
    var (t, rs) := SealNextPacket(tx, mtu, false);
    assert packets + [] == packets;
    if rs.Some? {
      AdvanceAllOk(tx.outgoing, Cursor0(tx), rs.value);
      if bio(k) {
        var (u, ps, o) := SendFlight(t, mtu, bio, k + 1);
        assert packets + ([rs.value] + ps) == packets + [rs.value] + ps;
      }
    }
  }

  lemma {:induction false} FlightEnd(tx: Tx, mtu: nat, bio: nat -> bool, k: nat, packets: seq<seq<Record>>)
    requires tx.written == |tx.outgoing| && CursorOk(tx.outgoing, Cursor0(tx))
    ensures Shipped(packets, SendFlight(tx, mtu, bio, k)) == (tx, packets, if bio(k) then Sent else Blocked)
  {
    assert packets + [] == packets;
  }

  /** dtls1_set_write_state */
  ghost function SetCipher(tx: Tx, c: Cipher): Tx
  {
    tx.(numbers := tx.numbers.Changed(), lastCipher := tx.cipher, cipher := c)
  }

  /** A message was taken while our flight is out. */
  ghost function Replied(tx: Tx): Tx
  {
    if tx.complete then tx.(hasReply := true) else tx
  }

  class Sender {
    var outgoing: seq<Outgoing>
    var written: nat
    var offset: nat
    var complete: bool
    var hasReply: bool
    var messageSeq: nat
    var epoch: nat
    var cipher: Cipher
    var lastCipher: Cipher
    const writeSequence: array<Byte>
    const lastWriteSequence: array<Byte>

    ghost function Model(): Tx
      requires writeSequence.Length == 8 == lastWriteSequence.Length
      reads this, writeSequence, lastWriteSequence
    {
      Tx(outgoing, written, offset, complete, hasReply, messageSeq,
         Numbers(epoch, BigEndian(writeSequence[2..]), BigEndian(lastWriteSequence[2..])), cipher, lastCipher)
    }

    ghost predicate Valid()
      reads this, writeSequence, lastWriteSequence
    {
      && writeSequence.Length == 8 == lastWriteSequence.Length && writeSequence != lastWriteSequence
      && Model().Valid()
    }

    constructor (cipher: Cipher)
      ensures Valid() && fresh(writeSequence) && fresh(lastWriteSequence)
      ensures Model() == Tx([], 0, 0, false, false, 0, START, cipher, cipher)
    {
      outgoing, written, offset, complete, hasReply, messageSeq, epoch := [], 0, 0, false, false, 0, 0;
      this.cipher, lastCipher := cipher, cipher;
      writeSequence := new Byte[8](_ => 0);
      lastWriteSequence := new Byte[8](_ => 0);
      new;
      ZeroNumber(writeSequence[2..]);
      ZeroNumber(lastWriteSequence[2..]);
    }

    /** dtls_clear_outgoing_messages */
    method ClearOutgoing()
      requires Valid()
      modifies this`outgoing, this`written, this`offset, this`complete, this`hasReply
      ensures Valid() && Model() == Clear(old(Model()))
    {
      outgoing, written, offset, complete, hasReply := [], 0, 0, false, false;
    }

    /** add_outgoing, for dtls1_add_message and dtls1_add_change_cipher_spec */
    method Add(isCcs: bool, data: Bytes) returns (ok: bool)
      requires Valid()
      modifies this
      ensures Valid() && (Model(), ok) == AddOutgoing(old(Model()), isCcs, data)
    {
      hide BigEndian;
      hide WholeOf;
      if complete {
        ClearOutgoing();
      }
      if |outgoing| >= FLIGHT || |data| >= U32 {
        return false;
      }
      if !isCcs {
        messageSeq := (messageSeq + 1) % U16;
      }
      outgoing := outgoing + [Outgoing(data, epoch, isCcs)];
      return true;
    }

    /** The increment of the number a record was sealed under. */
    method UseNumber(previous: bool) returns (ok: bool)
      requires Valid()
      modifies writeSequence, lastWriteSequence
      ensures Valid() && ok == !old(Model()).numbers.Wraps(previous)
      ensures Model() == old(Model()).(numbers := old(Model()).numbers.Used(previous))
    {
      hide BigEndian;
      hide Pow256;
      hide CursorOk;
      Powers();
      if previous {
        BigEndianBound(lastWriteSequence[2..]);
        ok := SequenceUpdate(lastWriteSequence, 2);
      } else {
        BigEndianBound(writeSequence[2..]);
        ok := SequenceUpdate(writeSequence, 2);
      }
    }

    /** dtls_seal_record */
    method Seal(ty: Byte, payload: Bytes, previous: bool, maxOut: nat) returns (rec: Option<Record>)
      requires Valid() && (previous ==> epoch >= 1)
      modifies writeSequence, lastWriteSequence
      ensures Valid() && (Model(), rec) == SealRecord(old(Model()), ty, payload, previous, maxOut)
    {
      hide BigEndian;
      hide CursorOk;
      var c := if previous then lastCipher else cipher;
      ghost var tx := Model();
      var number := BigEndian(if previous then lastWriteSequence[2..] else writeSequence[2..]);
      if maxOut < RT_HEADER_LENGTH {
        return None;
      }
      var suffix := c.suffix(|payload|);
      if suffix.None? {
        return None;
      }
      var length := c.prefix + |payload| + suffix.value;
      if RT_HEADER_LENGTH + length > maxOut || !c.seals(ty, number, payload) {
        return None;
      }
      var ok := UseNumber(previous);
      if !ok || length >= U16 {
        return None;
      }
      return Some(Record(ty, if previous then epoch - 1 else epoch, number, payload, RT_HEADER_LENGTH + length));
    }

    /** seal_next_message */
    method SealNext(maxOut: nat) returns (result: SealResult)
      requires Valid() && written < |outgoing|
      modifies this`offset, writeSequence, lastWriteSequence
      ensures Valid() && result.Is(SealNextMessage(old(Model()), maxOut), old(Model()), Model())
    {
      hide BigEndian;
      hide WholeOf;
      hide SealRecord;
      hide EncodeFragment;
      SealKeeps(Model(), maxOut);
      SealAdvances(Model(), maxOut);
      SealedCursor(Model(), maxOut);
      var m := outgoing[written];
      var previous := epoch >= 1 && m.epoch == epoch - 1;
      if !previous && m.epoch != epoch {
        return ErrorResult;
      }
      var c := if previous then lastCipher else cipher;
      var overhead, prefix := RT_HEADER_LENGTH + c.maxOverhead, RT_HEADER_LENGTH + c.prefix;
      if m.isCcs {
        if maxOut < 1 + overhead {
          return NoProgressResult;
        }
        var rec := Seal(RT_CCS, CCS_BODY, previous, maxOut);
        return if rec.None? then ErrorResult else SuccessResult(rec.value);
      }
      var w := WholeOf(m.data);
      if w.None? || offset > |w.value.body| {
        return ErrorResult;
      }
      if maxOut < HM_HEADER_LENGTH + 1 + overhead || maxOut < prefix {
        return NoProgressResult;
      }
      var left := |w.value.body| - offset;
      var todo := left;
      if todo > maxOut - HM_HEADER_LENGTH - overhead {
        todo := maxOut - HM_HEADER_LENGTH - overhead;
      }
      var rec := Seal(RT_HANDSHAKE, EncodeFragment(Piece(w.value, offset, todo)), previous, maxOut);
      if rec.None? {
        return ErrorResult;
      }
      if todo == left {
        offset := 0;
        return SuccessResult(rec.value);
      }
      offset := offset + todo;
      return PartialResult(rec.value);
    }

    /** seal_next_packet */
    method SealPacket(maxOut: nat) returns (packet: Option<seq<Record>>)
      requires Valid() && written < |outgoing|
      modifies this`written, this`offset, writeSequence, lastWriteSequence
      ensures Valid() && (Model(), packet) == SealNextPacket(old(Model()), maxOut, false)
    {
      hide BigEndian;
      hide WholeOf;
      hide SealNextMessage;
      hide SealNextPacket;
      hide Prefixed;
      var madeProgress, room, recs := false, maxOut, [];
      PrefixNothing(SealNextPacket(Model(), maxOut, false));
      while written < |outgoing|
        invariant Valid() && written <= |outgoing| == |old(outgoing)|
        invariant madeProgress <==> recs != []
        invariant SealNextPacket(old(Model()), maxOut, false)
               == Prefixed(recs, SealNextPacket(Model(), room, madeProgress))
        decreases |outgoing| - written
      {
        PacketTurn(Model(), room, madeProgress, recs);
        var result := SealNext(room);
        match result
        case ErrorResult => return None;
        case NoProgressResult => return if madeProgress then Some(recs) else None;
        case PartialResult(rec) => return Some(recs + [rec]);
        case SuccessResult(rec) =>
          recs, room, madeProgress := recs + [rec], room - rec.size, true;
          written := written + 1;
      }
      PacketEnd(Model(), room, madeProgress, recs);
      return if madeProgress then Some(recs) else None;
    }

    /** send_flight; `bio` answers each write to the transport and the flush at the end. */
    method SendOn(mtu: nat, bio: nat -> bool) returns (packets: seq<seq<Record>>, outcome: Outcome)
      requires Valid()
      modifies this`written, this`offset, writeSequence, lastWriteSequence
      ensures Valid() && (Model(), packets, outcome) == SendFlight(old(Model()), mtu, bio, 0)
    {
      hide BigEndian;
      hide WholeOf;
      hide SealNextPacket;
      hide SendFlight;
      packets := [];
      var k := 0;
      assert [] + SendFlight(Model(), mtu, bio, 0).1 == SendFlight(Model(), mtu, bio, 0).1;
      while written < |outgoing|
        invariant Valid() && outgoing == old(outgoing)
        invariant SendFlight(old(Model()), mtu, bio, 0) == Shipped(packets, SendFlight(Model(), mtu, bio, k))
        decreases |outgoing| - written, MessageLeft(outgoing, (written, offset))
      {
        var oldWritten, oldOffset := written, offset;
        FlightTurn(Model(), mtu, bio, k, packets);
        var packet := SealPacket(mtu);
        if packet.None? {
          return packets, SealFailed;
        }
        if !bio(k) {
          written, offset := oldWritten, oldOffset;
          return packets, Blocked;
        }
        packets, k := packets + [packet.value], k + 1;
      }
      FlightEnd(Model(), mtu, bio, k, packets);
      return packets, if bio(k) then Sent else Blocked;
    }

    /** dtls1_flush_flight */
    method Flush(mtu: nat, bio: nat -> bool) returns (packets: seq<seq<Record>>, outcome: Outcome)
      requires Valid()
      modifies this`written, this`offset, this`complete, writeSequence, lastWriteSequence
      ensures Valid() && (Model(), packets, outcome) == FlushFlight(old(Model()), mtu, bio)
    {
      hide SendFlight;
      complete := true;
      packets, outcome := SendOn(mtu, bio);
    }

    /** dtls1_retransmit_outgoing_messages */
    method Resend(mtu: nat, bio: nat -> bool) returns (packets: seq<seq<Record>>, outcome: Outcome)
      requires Valid()
      modifies this`written, this`offset, writeSequence, lastWriteSequence
      ensures Valid() && (Model(), packets, outcome) == Retransmit(old(Model()), mtu, bio)
    {
      hide SendFlight;
      written, offset := 0, 0;
      packets, outcome := SendOn(mtu, bio);
    }

    /** dtls1_set_write_state */
    method SetWriteState(c: Cipher)
      requires Valid()
      modifies this`epoch, this`cipher, this`lastCipher, writeSequence, lastWriteSequence
      ensures Valid() && Model() == SetCipher(old(Model()), c)
    {
      hide BigEndian;
      hide CursorOk;
      epoch := (epoch + 1) % U16;
      forall i | 0 <= i < 8 {
        lastWriteSequence[i] := writeSequence[i];
      }
      forall i | 0 <= i < 8 {
        writeSequence[i] := 0;
      }
      assert lastWriteSequence[2..] == old(writeSequence[2..]);
      ZeroNumber(writeSequence[2..]);
      lastCipher, cipher := cipher, c;
    }

    /** The part of dtls1_next_message that concerns the outgoing flight. */
    method NoteReply()
      requires Valid()
      modifies this`hasReply
      ensures Valid() && Model() == Replied(old(Model()))
    {
      if complete {
        hasReply := true;
      }
    }

    /** dtls1_on_handshake_complete */
    method OnHandshakeComplete()
      requires Valid()
      modifies this`outgoing, this`written, this`offset, this`complete, this`hasReply
      ensures Valid() && Model() == if old(hasReply) then Clear(old(Model())) else old(Model())
    {
      if hasReply {
        ClearOutgoing();
      }
    }
  }

  lemma {:induction false} ZeroNumber(bs: Bytes)
    requires forall i :: 0 <= i < |bs| ==> bs[i] == 0
    ensures BigEndian(bs) == 0
  {
    if bs != [] {
      ZeroNumber(bs[..|bs| - 1]);
    }
  }
}
