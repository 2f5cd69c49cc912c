/** What a failure to seal leaves behind in the middle of a packet, and when that can happen (d1_both.cc). */
module DtlsFailure {
  import opened DtlsNumbers
  import opened DtlsReceive
  import opened DtlsRecord
  import opened DtlsSend
  import opened DtlsWire
  import opened Octets
  import opened RecordTypes

  // ---------------------------------------------------------------- one failed run

  /** The state in which the packet was begun at which sending stopped. */
  ghost function LastStart(tx: Tx, mtu: nat, bio: nat -> bool, k: nat): Tx
    requires CursorOk(tx.outgoing, Cursor0(tx))
    decreases |tx.outgoing| - tx.written, MessageLeft(tx.outgoing, Cursor0(tx))
  {
    if tx.written == |tx.outgoing| then tx
    else
      var (t, rs) := SealNextPacket(tx, mtu, false);
      if rs.None? || !bio(k) then tx
      else
        PacketAdvances(tx, mtu, false);
        AdvanceAllOk(tx.outgoing, Cursor0(tx), rs.value);
        LastStart(t, mtu, bio, k + 1)
  }

  /** A packet whose sealing fails leaves the cursor past the messages already sealed in it. */
  lemma {:induction false} FailedPacketMoves(tx: Tx, maxOut: nat, progress: bool)
    requires CursorOk(tx.outgoing, Cursor0(tx)) && tx.written < |tx.outgoing|
    requires SealNextPacket(tx, maxOut, progress).1.None?
    ensures var t := SealNextPacket(tx, maxOut, progress).0;
            && t.written >= tx.written
            && (t.written > tx.written <==> SealNextMessage(tx, maxOut).MessageDone?)
            && (t.written == tx.written ==> t.offset == tx.offset)
    decreases |tx.outgoing| - tx.written
  {
    hide SealNextMessage;
    hide WholeOf;
    SealKeeps(tx, maxOut);
    SealAdvances(tx, maxOut);
    var s := SealNextMessage(tx, maxOut);
    if s.MessageDone? {
      AdvanceOk(tx.outgoing, Cursor0(tx), s.rec);
      var v := s.tx.(written := tx.written + 1);
      if v.written < |v.outgoing| {
        FailedPacketMoves(v, maxOut - s.rec.size, true);
      }
    }
  }

  lemma {:induction false} FailureStart(tx: Tx, mtu: nat, bio: nat -> bool, k: nat)
    requires CursorOk(tx.outgoing, Cursor0(tx)) && SendFlight(tx, mtu, bio, k).2 == SealFailed
    ensures var t := LastStart(tx, mtu, bio, k);
            && SameFlight(tx, t) && CursorOk(t.outgoing, Cursor0(t)) && t.written < |t.outgoing|
            && SealNextPacket(t, mtu, false) == (SendFlight(tx, mtu, bio, k).0, None)
            && AdvanceAll(tx.outgoing, Cursor0(tx), Flat(SendFlight(tx, mtu, bio, k).1)) == Some(Cursor0(t))
    decreases |tx.outgoing| - tx.written, MessageLeft(tx.outgoing, Cursor0(tx))
  {
    hide SealNextPacket;
    hide WholeOf;
    hide Advance;
    var (t, rs) := SealNextPacket(tx, mtu, false);
    if tx.written < |tx.outgoing| && rs.Some? {
      PacketAdvances(tx, mtu, false);
      AdvanceAllOk(tx.outgoing, Cursor0(tx), rs.value);
      FailureStart(t, mtu, bio, k + 1);
      var (u, ps, o) := SendFlight(t, mtu, bio, k + 1);
      var qs := [rs.value] + ps;
      assert qs[1..] == ps && Flat(qs) == rs.value + Flat(ps);
      AdvanceJoin(tx.outgoing, Cursor0(tx), rs.value, Flat(ps));
      assert SendFlight(tx, mtu, bio, k) == (u, qs, o);
    }
  }

  /** After a failure to seal, the packets taken are the flight up to the cursor exactly when the first record
      of the packet was the one that failed; otherwise the cursor skips messages nobody sent. */
  lemma {:induction false} FailureConservedIff(tx: Tx, flying: seq<Record>, mtu: nat, bio: nat -> bool)
    requires CursorOk(tx.outgoing, Cursor0(tx)) && Flown(tx, flying)
    requires SendFlight(tx, mtu, bio, 0).2 == SealFailed
    ensures var (u, ps, o) := SendFlight(tx, mtu, bio, 0);
            var t := LastStart(tx, mtu, bio, 0);
            CursorOk(t.outgoing, Cursor0(t)) && t.written < |t.outgoing|
            && (Flown(u, flying + Flat(ps)) <==> !SealNextMessage(t, mtu).MessageDone?)
  {
    hide SealNextPacket;
    hide SealNextMessage;
    hide SendFlight;
    hide LastStart;
    hide Advance;
    FailureStart(tx, mtu, bio, 0);
    var t := LastStart(tx, mtu, bio, 0);
    FailedPacketMoves(t, mtu, false);
    PacketAdvances(t, mtu, false);
    AdvanceJoin(tx.outgoing, (0, 0), flying, Flat(SendFlight(tx, mtu, bio, 0).1));
  }

  // ---------------------------------------------------------------- what can be told before the call

  type Outcomes = (Byte, nat, Bytes) -> bool

  /** The same state with other outcomes of sealing; all lengths stay. */
  function With(tx: Tx, seals: Outcomes, lastSeals: Outcomes): Tx
  {
    tx.(cipher := tx.cipher.(seals := seals), lastCipher := tx.lastCipher.(seals := lastSeals))
  }

  /** Ciphers that never refuse: what they seal depends on lengths and numbers only. */
  function Obliging(tx: Tx): Tx
  {
    With(tx, (ty: Byte, n: nat, p: Bytes) => true, (ty: Byte, n: nat, p: Bytes) => true)
  }

  /** Ciphers that refuse one number each. */
  function Refusing(tx: Tx, number: nat, lastNumber: nat): Tx
  {
    With(tx, (ty: Byte, n: nat, p: Bytes) => n != number, (ty: Byte, n: nat, p: Bytes) => n != lastNumber)
  }

  /** Cutting the flight from the cursor into packets, some message other than the last ends in a packet that
      still has room to attempt a record of the next. As long as that does not happen a packet is one record. */
  ghost predicate Mixes(tx: Tx, mtu: nat)
    requires CursorOk(tx.outgoing, Cursor0(tx))
    decreases |tx.outgoing| - tx.written, MessageLeft(tx.outgoing, Cursor0(tx))
  {
    tx.written < |tx.outgoing|
    && match SealNextMessage(tx, mtu)
       case SealError(_) => false
       case NoProgress => false
       case PartDone(t, r) =>
         SealGoesOn(tx, mtu);
         Mixes(t, mtu)
       case MessageDone(t, r) =>
         SealGoesOn(tx, mtu);
         var v := t.(written := tx.written + 1);
         v.written < |v.outgoing| && (!SealNextMessage(v, mtu - r.size).NoProgress? || Mixes(v, mtu))
  }

  lemma SealGoesOn(tx: Tx, mtu: nat)
    requires CursorOk(tx.outgoing, Cursor0(tx)) && tx.written < |tx.outgoing|
    ensures var s := SealNextMessage(tx, mtu);
            && (s.PartDone? ==>
                && s.tx.outgoing == tx.outgoing && s.tx.written == tx.written && s.rec.size <= mtu
                && CursorOk(tx.outgoing, Cursor0(s.tx))
                && 0 <= MessageLeft(tx.outgoing, Cursor0(s.tx)) < MessageLeft(tx.outgoing, Cursor0(tx)))
            && (s.MessageDone? ==>
                && s.tx.outgoing == tx.outgoing && s.tx.written == tx.written && s.tx.offset == 0 && s.rec.size <= mtu)
  {
    hide SealNextMessage;
    hide Advance;
    hide WholeOf;
    SealKeeps(tx, mtu);
    SealAdvances(tx, mtu);
    var s := SealNextMessage(tx, mtu);
    if s.PartDone? {
      AdvanceOk(tx.outgoing, Cursor0(tx), s.rec);
    }
  }

  lemma ObligingRecord(tx: Tx, ty: Byte, payload: Bytes, previous: bool, room: nat)
    ensures var (t, r) := SealRecord(tx, ty, payload, previous, room);
            r.Some? ==> SealRecord(Obliging(tx), ty, payload, previous, room) == (Obliging(t), r)
  {
  }

  /** Where some ciphers go on, so do obliging ones, to the same record. */
  lemma ObligingSeals(tx: Tx, room: nat)
    requires tx.written < |tx.outgoing|
    ensures var s, g := SealNextMessage(tx, room), SealNextMessage(Obliging(tx), room);
            && (s.NoProgress? <==> g.NoProgress?)
            && (s.PartDone? ==> g == PartDone(Obliging(s.tx), s.rec))
            && (s.MessageDone? ==> g == MessageDone(Obliging(s.tx), s.rec))
  {
    hide SealRecord;
    hide SealNextFragment;
    hide WholeOf;
    var m := tx.outgoing[tx.written];
    var previous := tx.numbers.epoch >= 1 && m.epoch == tx.numbers.epoch - 1;
    var overhead := RT_HEADER_LENGTH + tx.CipherOf(previous).maxOverhead;
    assert Obliging(tx).CipherOf(previous).maxOverhead == tx.CipherOf(previous).maxOverhead;
    if m.isCcs {
      ObligingRecord(tx, RT_CCS, CCS_BODY, previous, room);
      var q := SealRecord(tx, RT_CCS, CCS_BODY, previous, room);
      var h := SealRecord(Obliging(tx), RT_CCS, CCS_BODY, previous, room);
      assert q.1.Some? ==> h == (Obliging(q.0), q.1);
    } else {
      ObligingFragment(tx, m, previous, overhead, room);
    }
  }

  lemma ObligingFragment(tx: Tx, m: Outgoing, previous: bool, overhead: nat, room: nat)
    ensures var s := SealNextFragment(tx, m, previous, overhead, room);
            var g := SealNextFragment(Obliging(tx), m, previous, overhead, room);
            && (s.NoProgress? <==> g.NoProgress?)
            && (s.PartDone? ==> g == PartDone(Obliging(s.tx), s.rec))
            && (s.MessageDone? ==> g == MessageDone(Obliging(s.tx), s.rec))
  {
    hide SealRecord;
    hide WholeOf;
    hide EncodeFragment;
    assert Obliging(tx).CipherOf(previous).prefix == tx.CipherOf(previous).prefix;
    var f := Todo(tx, m, overhead, room);
    if f.Some? {
      ObligingRecord(tx, RT_HANDSHAKE, EncodeFragment(f.value), previous, room);
      var q := SealRecord(tx, RT_HANDSHAKE, EncodeFragment(f.value), previous, room);
      var h := SealRecord(Obliging(tx), RT_HANDSHAKE, EncodeFragment(f.value), previous, room);
      assert q.1.Some? ==> h == (Obliging(q.0), q.1);
    }
  }

  /** The fragment seal_next_message tries to seal, if there is room for one. */
  function Todo(tx: Tx, m: Outgoing, overhead: nat, maxOut: nat): Option<Fragment>
  {
    var w := WholeOf(m.data);
    if w.None? || tx.offset > |w.value.body| || maxOut < HM_HEADER_LENGTH + 1 + overhead then None
    else
      var left := |w.value.body| - tx.offset;
      var room := maxOut - HM_HEADER_LENGTH - overhead;
      Some(Piece(w.value, tx.offset, if left > room then room else left))
  }

  lemma RefusingRecord(tx: Tx, ty: Byte, payload: Bytes, previous: bool, room: nat, number: nat, lastNumber: nat)
    requires tx.numbers.Fits() && (previous ==> tx.numbers.epoch >= 1)
    ensures var (g, q) := SealRecord(Obliging(tx), ty, payload, previous, room);
            && (q.Some? ==> g.numbers.next >= tx.numbers.next && g.numbers.lastNext >= tx.numbers.lastNext)
            && (q.Some? && number >= g.numbers.next && lastNumber >= g.numbers.lastNext ==>
                SealRecord(Refusing(tx, number, lastNumber), ty, payload, previous, room)
                == (Refusing(g, number, lastNumber), q))
  {
  }

  /** What ciphers that refuse only numbers still to come do, against what obliging ones do. */
  ghost predicate Alike(tx: Tx, s: Sealing, g: Sealing, number: nat, lastNumber: nat)
  {
    g.PartDone? || g.MessageDone? ==>
      && g.tx.numbers.next >= tx.numbers.next && g.tx.numbers.lastNext >= tx.numbers.lastNext
      && (number >= g.tx.numbers.next && lastNumber >= g.tx.numbers.lastNext ==>
          s == if g.PartDone? then PartDone(Refusing(g.tx, number, lastNumber), g.rec)
               else MessageDone(Refusing(g.tx, number, lastNumber), g.rec))
  }

  lemma RefusingFragment(tx: Tx, m: Outgoing, previous: bool, overhead: nat, room: nat, number: nat, lastNumber: nat)
    requires tx.numbers.Fits() && (previous ==> tx.numbers.epoch >= 1)
    ensures Alike(tx, SealNextFragment(Refusing(tx, number, lastNumber), m, previous, overhead, room),
                  SealNextFragment(Obliging(tx), m, previous, overhead, room), number, lastNumber)
  {
    hide SealRecord;
    hide WholeOf;
    hide EncodeFragment;
    assert Obliging(tx).CipherOf(previous).prefix == tx.CipherOf(previous).prefix;
    assert Refusing(tx, number, lastNumber).CipherOf(previous).prefix == tx.CipherOf(previous).prefix;
    var f := Todo(tx, m, overhead, room);
    if f.Some? {
      RefusingRecord(tx, RT_HANDSHAKE, EncodeFragment(f.value), previous, room, number, lastNumber);
      var q := SealRecord(Refusing(tx, number, lastNumber), RT_HANDSHAKE, EncodeFragment(f.value), previous, room);
      var h := SealRecord(Obliging(tx), RT_HANDSHAKE, EncodeFragment(f.value), previous, room);
      assert h.1.Some? && number >= h.0.numbers.next && lastNumber >= h.0.numbers.lastNext ==>
        q == (Refusing(h.0, number, lastNumber), h.1);
    }
  }

  lemma RefusingSeals(tx: Tx, room: nat, number: nat, lastNumber: nat)
    requires tx.written < |tx.outgoing| && tx.numbers.Fits()
    ensures Alike(tx, SealNextMessage(Refusing(tx, number, lastNumber), room), SealNextMessage(Obliging(tx), room),
                  number, lastNumber)
  {
    hide SealRecord;
    hide SealNextFragment;
    hide WholeOf;
    var m := tx.outgoing[tx.written];
    var previous := tx.numbers.epoch >= 1 && m.epoch == tx.numbers.epoch - 1;
    var overhead := RT_HEADER_LENGTH + tx.CipherOf(previous).maxOverhead;
    assert Obliging(tx).CipherOf(previous).maxOverhead == tx.CipherOf(previous).maxOverhead;
    assert Refusing(tx, number, lastNumber).CipherOf(previous).maxOverhead == tx.CipherOf(previous).maxOverhead;
    if m.isCcs {
      RefusingRecord(tx, RT_CCS, CCS_BODY, previous, room, number, lastNumber);
      var q := SealRecord(Refusing(tx, number, lastNumber), RT_CCS, CCS_BODY, previous, room);
      var h := SealRecord(Obliging(tx), RT_CCS, CCS_BODY, previous, room);
      assert h.1.Some? && number >= h.0.numbers.next && lastNumber >= h.0.numbers.lastNext ==>
        q == (Refusing(h.0, number, lastNumber), h.1);
    } else {
      RefusingFragment(tx, m, previous, overhead, room, number, lastNumber);
    }
  }

  lemma RefusedRecord(tx: Tx, ty: Byte, payload: Bytes, previous: bool, room: nat)
    requires previous ==> tx.numbers.epoch >= 1
    ensures SealRecord(Refusing(tx, tx.numbers.next, tx.numbers.lastNext), ty, payload, previous, room).1.None?
  {
  }

  /** Ciphers that refuse the next number of either epoch fail wherever a record is attempted. */
  lemma RefusingFails(tx: Tx, room: nat)
    requires tx.written < |tx.outgoing| && !SealNextMessage(Obliging(tx), room).NoProgress?
    ensures SealNextMessage(Refusing(tx, tx.numbers.next, tx.numbers.lastNext), room).SealError?
  {
    hide SealRecord;
    hide WholeOf;
    hide EncodeFragment;
    var m := tx.outgoing[tx.written];
    var previous := tx.numbers.epoch >= 1 && m.epoch == tx.numbers.epoch - 1;
    if m.isCcs {
      RefusedRecord(tx, RT_CCS, CCS_BODY, previous, room);
    } else {
      var overhead := RT_HEADER_LENGTH + tx.CipherOf(previous).maxOverhead;
      var f := Todo(tx, m, overhead, room);
      if f.Some? {
        RefusedRecord(tx, RT_HANDSHAKE, EncodeFragment(f.value), previous, room);
      }
    }
  }

  // ---------------------------------------------------------------- one direction

  /** If no message ends in a packet with room for the next, a packet is one record, and only its own sealing can
      fail. */
  lemma {:induction false} PacketOfOne(tx: Tx, mtu: nat)
    requires CursorOk(tx.outgoing, Cursor0(tx)) && tx.written < |tx.outgoing| && !Mixes(Obliging(tx), mtu)
    ensures var (t, rs) := SealNextPacket(tx, mtu, false);
            if rs.None? then !SealNextMessage(tx, mtu).MessageDone?
            else CursorOk(t.outgoing, Cursor0(t)) && !Mixes(Obliging(t), mtu)
  {
    hide SealNextMessage;
    hide WholeOf;
    SealGoesOn(tx, mtu);
    ObligingSeals(tx, mtu);
    var s := SealNextMessage(tx, mtu);
    if s.PartDone? {
      assert !Mixes(Obliging(s.tx), mtu);
    } else if s.MessageDone? {
      var v := s.tx.(written := tx.written + 1);
      if v.written < |v.outgoing| {
        ObligingSeals(v, mtu - s.rec.size);
        assert Obliging(s.tx).(written := tx.written + 1) == Obliging(v);
        assert SealNextPacket(v, mtu - s.rec.size, true) == (v, Some([]));
      }
    }
  }

  lemma {:induction false} NoMixNoSkip(tx: Tx, mtu: nat, bio: nat -> bool, k: nat)
    requires CursorOk(tx.outgoing, Cursor0(tx)) && !Mixes(Obliging(tx), mtu)
    requires SendFlight(tx, mtu, bio, k).2 == SealFailed
    ensures var t := LastStart(tx, mtu, bio, k);
            t.written < |t.outgoing| && !SealNextMessage(t, mtu).MessageDone?
    decreases |tx.outgoing| - tx.written, MessageLeft(tx.outgoing, Cursor0(tx))
  {
    hide SealNextPacket;
    hide SealNextMessage;
    hide WholeOf;
    hide Advance;
    hide Mixes;
    if tx.written < |tx.outgoing| {
      PacketOfOne(tx, mtu);
      var (t, rs) := SealNextPacket(tx, mtu, false);
      if rs.Some? && bio(k) {
        PacketAdvances(tx, mtu, false);
        AdvanceAllOk(tx.outgoing, Cursor0(tx), rs.value);
        NoMixNoSkip(t, mtu, bio, k + 1);
      }
    }
  }

  // ---------------------------------------------------------------- the other direction

  /** If a message can end in a packet with room for the next, there are ciphers that fail just there. */
  lemma {:induction false} MixSkips(tx: Tx, mtu: nat, bio: nat -> bool, k: nat) returns (number: nat, lastNumber: nat)
    requires CursorOk(tx.outgoing, Cursor0(tx)) && tx.numbers.Fits() && Mixes(Obliging(tx), mtu) && forall j :: bio(j)
    ensures number >= tx.numbers.next && lastNumber >= tx.numbers.lastNext
    ensures var bad := Refusing(tx, number, lastNumber);
            SendFlight(bad, mtu, bio, k).2 == SealFailed && Skips(LastStart(bad, mtu, bio, k), mtu)
    decreases |tx.outgoing| - tx.written, MessageLeft(tx.outgoing, Cursor0(tx))
  {
    hide SealNextMessage;
    hide WholeOf;
    hide Advance;
    hide SendFlight;
    hide LastStart;
    var g := SealNextMessage(Obliging(tx), mtu);
    SealGoesOn(Obliging(tx), mtu);
    SealKeeps(Obliging(tx), mtu);
    ObligingTwice(tx, mtu);
    var v := if g.PartDone? then g.tx else g.tx.(written := tx.written + 1);
    assert Obliging(v) == v;
    if g.PartDone? || SealNextMessage(v, mtu - g.rec.size).NoProgress? {
      RefusingSeals(tx, mtu, 0, 0);
      number, lastNumber := MixSkips(v, mtu, bio, k + 1);
      RefusingSeals(tx, mtu, number, lastNumber);
      if g.MessageDone? {
        ObligingSeals(Refusing(v, number, lastNumber), mtu - g.rec.size);
        assert Obliging(Refusing(v, number, lastNumber)) == v;
      }
      GoesOn(Refusing(tx, number, lastNumber), mtu, bio, k);
    } else {
      number, lastNumber := v.numbers.next, v.numbers.lastNext;
      RefusingSeals(tx, mtu, number, lastNumber);
      RefusingFails(v, mtu - g.rec.size);
      FailsHere(Refusing(tx, number, lastNumber), mtu, bio, k);
    }
  }

  /** The packet begun here gets a message done. */
  ghost predicate Skips(tx: Tx, mtu: nat)
  {
    tx.written < |tx.outgoing| && SealNextMessage(tx, mtu).MessageDone?
  }

  /** The second record of a packet fails. */
  lemma {:induction false} FailsHere(tx: Tx, mtu: nat, bio: nat -> bool, k: nat)
    requires CursorOk(tx.outgoing, Cursor0(tx)) && tx.written + 1 < |tx.outgoing|
    requires var s := SealNextMessage(tx, mtu);
             && s.MessageDone? && s.rec.size <= mtu && s.tx.outgoing == tx.outgoing
             && SealNextMessage(s.tx.(written := tx.written + 1), mtu - s.rec.size).SealError?
    ensures SendFlight(tx, mtu, bio, k).2 == SealFailed && Skips(LastStart(tx, mtu, bio, k), mtu)
  {
    hide SealNextMessage;
    hide WholeOf;
    var s := SealNextMessage(tx, mtu);
    assert SealNextPacket(s.tx.(written := tx.written + 1), mtu - s.rec.size, true).1.None?;
  }

  lemma ObligingTwice(tx: Tx, mtu: nat)
    requires tx.written < |tx.outgoing|
    ensures var g := SealNextMessage(Obliging(tx), mtu);
            g.PartDone? || g.MessageDone? ==> Obliging(g.tx) == g.tx
  {
    hide SealNextMessage;
    ObligingSeals(Obliging(tx), mtu);
    assert Obliging(Obliging(tx)) == Obliging(tx);
  }

  /** A packet of one record goes out, and sending goes on behind it. */
  lemma GoesOn(tx: Tx, mtu: nat, bio: nat -> bool, k: nat)
    requires CursorOk(tx.outgoing, Cursor0(tx)) && tx.written < |tx.outgoing| && bio(k)
    requires var s := SealNextMessage(tx, mtu);
             || s.PartDone?
             || (s.MessageDone? && s.rec.size <= mtu && tx.written + 1 < |s.tx.outgoing|
                 && SealNextMessage(s.tx.(written := tx.written + 1), mtu - s.rec.size).NoProgress?)
    ensures var s := SealNextMessage(tx, mtu);
            var t := if s.PartDone? then s.tx else s.tx.(written := tx.written + 1);
            && CursorOk(t.outgoing, Cursor0(t))
            && SendFlight(tx, mtu, bio, k).2 == SendFlight(t, mtu, bio, k + 1).2
            && LastStart(tx, mtu, bio, k) == LastStart(t, mtu, bio, k + 1)
  {
    hide SealNextMessage;
    hide WholeOf;
    hide Advance;
    SealGoesOn(tx, mtu);
    var s := SealNextMessage(tx, mtu);
    var t := if s.PartDone? then s.tx else s.tx.(written := tx.written + 1);
    if s.MessageDone? {
      assert SealNextPacket(t, mtu - s.rec.size, true) == (t, Some([]));
    }
    assert SealNextPacket(tx, mtu, false).0 == t && SealNextPacket(tx, mtu, false).1.Some?;
  }

  // ---------------------------------------------------------------- the condition

  /** For given messages, lengths, MTU and cursor: the packets taken are the flight up to the cursor after every
      call, whatever sealing does and whichever writes fail, exactly when no message other than the last can end
      in a packet that still has room to attempt the next one's record. */
  lemma {:induction false} ConservedAlwaysIff(tx: Tx, flying: seq<Record>, mtu: nat)
    requires tx.Valid() && Flown(tx, flying)
    ensures !Mixes(Obliging(tx), mtu)
       <==> forall seals: Outcomes, lastSeals: Outcomes, bio: nat -> bool ::
              var (u, ps, o) := SendFlight(With(tx, seals, lastSeals), mtu, bio, 0);
              Flown(u, flying + Flat(ps))
  {
    hide SendFlight;
    hide LastStart;
    hide SealNextMessage;
    hide Advance;
    hide AdvanceAll;
    hide WholeOf;
    hide Mixes;
    if Mixes(Obliging(tx), mtu) {
      var bio := (j: nat) => true;
      var number, lastNumber := MixSkips(tx, mtu, bio, 0);
      var bad := Refusing(tx, number, lastNumber);
      FailureConservedIff(bad, flying, mtu, bio);
      assert !Flown(SendFlight(bad, mtu, bio, 0).0, flying + Flat(SendFlight(bad, mtu, bio, 0).1));
    } else {
      forall seals: Outcomes, lastSeals: Outcomes, bio: nat -> bool
        ensures var (u, ps, o) := SendFlight(With(tx, seals, lastSeals), mtu, bio, 0);
                Flown(u, flying + Flat(ps))
      {
        var t := With(tx, seals, lastSeals);
        SendAdvances(t, mtu, bio, 0);
        AdvanceJoin(tx.outgoing, (0, 0), flying, Flat(SendFlight(t, mtu, bio, 0).1));
        if SendFlight(t, mtu, bio, 0).2 == SealFailed {
          assert Obliging(t) == Obliging(tx);
          NoMixNoSkip(t, mtu, bio, 0);
          FailureConservedIff(t, flying, mtu, bio);
        }
      }
    }
  }

  /** With one message left nothing can go wrong. */
  lemma {:induction false} LastMessageConserved(tx: Tx, mtu: nat)
    requires CursorOk(tx.outgoing, Cursor0(tx)) && tx.written + 1 >= |tx.outgoing|
    ensures !Mixes(tx, mtu)
    decreases |tx.outgoing| - tx.written, MessageLeft(tx.outgoing, Cursor0(tx))
  {
    hide SealNextMessage;
    hide WholeOf;
    if tx.written < |tx.outgoing| {
      SealGoesOn(tx, mtu);
      var s := SealNextMessage(tx, mtu);
      if s.PartDone? {
        LastMessageConserved(s.tx, mtu);
      }
    }
  }

  // ---------------------------------------------------------------- a case

  /** Two empty messages and a cipher that fails on its second record. */
  const TWO: Tx :=
    Tx([Outgoing(EncodeFragment(EMPTY_1), 0, false), Outgoing(EncodeFragment(EMPTY_2), 0, false)], 0, 0, false, false, 2, START, FLAKY, FLAKY)

  const EMPTY_1: Fragment := Fragment(Header(1, 0, 0, 0, 0), [])
  const EMPTY_2: Fragment := Fragment(Header(2, 0, 1, 0, 0), [])

  const FLAKY: Cipher := Cipher(0, 0, (n: nat) => Some(0), (ty: Byte, n: nat, p: Bytes) => n == 0)

  lemma TwoParses()
    ensures WholeOf(TWO.outgoing[0].data) == Some(EMPTY_1)
    ensures WholeOf(TWO.outgoing[1].data) == Some(EMPTY_2)
  {
    hide WholeOf;
    WholeOfEncoded(EMPTY_1);
    WholeOfEncoded(EMPTY_2);
  }

  lemma FirstGoes(t: Tx)
    requires t == TWO.(complete := true)
    ensures var s := SealNextMessage(t, MIN_MTU);
            s.MessageDone? && s.tx == t.(numbers := Numbers(0, 1, 0)) && s.rec.size == 25
  {
    hide WholeOf;
    hide EncodeFragment;
    TwoParses();
  }

  lemma SecondFails(t: Tx)
    requires t == TWO.(complete := true, numbers := Numbers(0, 1, 0), written := 1)
    ensures SealNextMessage(t, MIN_MTU - 25) == SealError(t)
  {
    hide WholeOf;
    hide EncodeFragment;
    TwoParses();
  }

  /** It happens: nothing was sent, yet the cursor stands at the second message. */
  lemma FailureSkips(bio: nat -> bool)
    ensures CursorOk(TWO.outgoing, Cursor0(TWO)) && Flown(TWO, [])
    ensures var (u, ps, o) := FlushFlight(TWO, MIN_MTU, bio);
            o == SealFailed && ps == [] && u.written == 1 && !Flown(u, Flat(ps))
  {
    hide SealNextMessage;
    hide WholeOf;
    hide EncodeFragment;
    var t := TWO.(complete := true);
    FirstGoes(t);
    SecondFails(t.(numbers := Numbers(0, 1, 0), written := 1));
    assert SealNextPacket(t.(numbers := Numbers(0, 1, 0), written := 1), MIN_MTU - 25, true).1.None?;
    assert SealNextPacket(t, MIN_MTU, false) == (t.(numbers := Numbers(0, 1, 0), written := 1), None);
  }
}
