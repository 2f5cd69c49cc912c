/** A flight goes out: when the packets are large enough and nothing refuses them, sending ends with every
    message sent (d1_both.cc). */
module DtlsProgress {
  import opened DtlsNumbers
  import opened DtlsReceive
  import opened DtlsRecord
  import opened DtlsSend
  import opened DtlsWire
  import opened Octets
  import opened RecordTypes

  /** A cipher that seals whatever it is given within its stated overhead. */
  ghost predicate Steady(c: Cipher)
  {
    && (forall n :: c.suffix(n).Some? && c.prefix + c.suffix(n).value <= c.maxOverhead)
    && forall ty, n, p :: c.seals(ty, n, p)
  }

  function BodyOf(m: Outgoing): nat
  {
    var w := WholeOf(m.data);
    if m.isCcs || w.None? then 0 else |w.value.body|
  }

  /** At most so many records are left to send. */
  function Work(outgoing: seq<Outgoing>, from: nat): (n: nat)
    ensures from < |outgoing| ==> n >= 1 + BodyOf(outgoing[from])
    decreases |outgoing| - from
  {
    if from >= |outgoing| then 0 else 1 + BodyOf(outgoing[from]) + Work(outgoing, from + 1)
  }

  ghost predicate Sendable(tx: Tx, m: Outgoing)
  {
    && (m.epoch == tx.numbers.epoch || m.epoch + 1 == tx.numbers.epoch)
    && (m.isCcs || WholeOf(m.data).Some?)
  }

  /** What sending needs: room for a byte of a fragment, messages of the last two epochs, and numbers enough. */
  ghost predicate Ready(tx: Tx, mtu: nat)
  {
    && CursorOk(tx.outgoing, Cursor0(tx))
    && (forall i :: tx.written <= i < |tx.outgoing| ==> Sendable(tx, tx.outgoing[i]))
    && Steady(tx.cipher) && Steady(tx.lastCipher)
    && RT_HEADER_LENGTH + HM_HEADER_LENGTH + 1 + tx.cipher.maxOverhead <= mtu < U16
    && RT_HEADER_LENGTH + HM_HEADER_LENGTH + 1 + tx.lastCipher.maxOverhead <= mtu
    && tx.numbers.next + Work(tx.outgoing, tx.written) - tx.offset < U48
    && tx.numbers.lastNext + Work(tx.outgoing, tx.written) - tx.offset < U48
  }

  /** A steady cipher seals what fits. */
  lemma RecordGoes(tx: Tx, ty: Byte, payload: Bytes, previous: bool, maxOut: nat)
    requires Steady(tx.CipherOf(previous)) && !tx.numbers.Wraps(previous)
    requires RT_HEADER_LENGTH + |payload| + tx.CipherOf(previous).maxOverhead <= maxOut < U16
    ensures var (t, r) := SealRecord(tx, ty, payload, previous, maxOut);
            r.Some? && t == tx.(numbers := tx.numbers.Used(previous))
  {
    var c := tx.CipherOf(previous);
    assert c.suffix(|payload|).Some? && c.seals(ty, tx.numbers.Pair(previous).1, payload);
  }

  lemma FragmentGoes(tx: Tx, m: Outgoing, previous: bool, maxOut: nat)
    requires !m.isCcs && WholeOf(m.data).Some? && tx.offset <= BodyOf(m)
    requires Steady(tx.CipherOf(previous)) && !tx.numbers.Wraps(previous) && maxOut < U16
    ensures var c := tx.CipherOf(previous);
            var s := SealNextFragment(tx, m, previous, RT_HEADER_LENGTH + c.maxOverhead, maxOut);
            && !s.SealError?
            && (s.NoProgress? <==> maxOut < RT_HEADER_LENGTH + HM_HEADER_LENGTH + 1 + c.maxOverhead)
            && (s.PartDone? ==>
                && tx.offset < s.tx.offset < BodyOf(m)
                && s.tx == tx.(numbers := tx.numbers.Used(previous), offset := s.tx.offset))
            && (s.MessageDone? ==> s.tx == tx.(numbers := tx.numbers.Used(previous), offset := 0))
  {
    hide SealRecord;
    hide WholeOf;
    hide EncodeFragment;
    hide Steady;
    var c := tx.CipherOf(previous);
    PrefixFits(c);
    var w := WholeOf(m.data).value;
    if maxOut >= RT_HEADER_LENGTH + HM_HEADER_LENGTH + 1 + c.maxOverhead {
      var left := |w.body| - tx.offset;
      var room := maxOut - HM_HEADER_LENGTH - (RT_HEADER_LENGTH + c.maxOverhead);
      var todo := if left > room then room else left;
      RecordGoes(tx, RT_HANDSHAKE, EncodeFragment(Piece(w, tx.offset, todo)), previous, maxOut);
    }
  }

  lemma PrefixFits(c: Cipher)
    requires Steady(c)
    ensures c.prefix <= c.maxOverhead
  {
    assert c.suffix(0).Some?;
  }

  lemma WorkStep(outgoing: seq<Outgoing>, from: nat)
    requires from < |outgoing|
    ensures Work(outgoing, from) == 1 + BodyOf(outgoing[from]) + Work(outgoing, from + 1)
  {
  }

  lemma SendableMeans(tx: Tx, m: Outgoing)
    requires Sendable(tx, m)
    ensures m.epoch == tx.numbers.epoch || m.epoch + 1 == tx.numbers.epoch
    ensures m.isCcs || (WholeOf(m.data).Some? && BodyOf(m) == |WholeOf(m.data).value.body|)
  {
    hide WholeOf;
  }

  /** One record goes out, and leaves the rest ready. */
  lemma MessageGoes(tx: Tx, maxOut: nat, mtu: nat)
    requires Ready(tx, mtu) && tx.written < |tx.outgoing| && maxOut <= mtu
    ensures var s := SealNextMessage(tx, maxOut);
            && !s.SealError? && (maxOut == mtu ==> !s.NoProgress?)
            && (s.PartDone? ==> Ready(s.tx, mtu))
            && (s.MessageDone? ==> Ready(s.tx.(written := tx.written + 1), mtu))
  {
    hide SealRecord;
    hide SealNextFragment;
    hide WholeOf;
    hide Steady;
    hide Work;
    hide BodyOf;
    var m := tx.outgoing[tx.written];
    WorkStep(tx.outgoing, tx.written);
    assert Sendable(tx, m);
    SendableMeans(tx, m);
    var previous := tx.numbers.epoch >= 1 && m.epoch == tx.numbers.epoch - 1;
    assert !tx.numbers.Wraps(previous);
    if m.isCcs {
      if maxOut >= 1 + RT_HEADER_LENGTH + tx.CipherOf(previous).maxOverhead {
        RecordGoes(tx, RT_CCS, CCS_BODY, previous, maxOut);
      }
    } else {
      FragmentGoes(tx, m, previous, maxOut);
    }
  }

  lemma {:induction false} PacketGoes(tx: Tx, maxOut: nat, mtu: nat, progress: bool)
    requires Ready(tx, mtu) && maxOut <= mtu && (!progress ==> maxOut == mtu && tx.written < |tx.outgoing|)
    ensures var (t, rs) := SealNextPacket(tx, maxOut, progress);
            rs.Some? && Ready(t, mtu)
    decreases |tx.outgoing| - tx.written
  {
    hide SealNextMessage;
    hide Ready;
    assert tx.written <= |tx.outgoing| && CursorOk(tx.outgoing, Cursor0(tx)) by {
      CursorReady(tx, mtu);
    }
    if tx.written < |tx.outgoing| {
      SealKeeps(tx, maxOut);
      MessageGoes(tx, maxOut, mtu);
      var s := SealNextMessage(tx, maxOut);
      if s.MessageDone? {
        PacketGoes(s.tx.(written := tx.written + 1), maxOut - s.rec.size, mtu, true);
      }
    }
  }

  lemma CursorReady(tx: Tx, mtu: nat)
    requires Ready(tx, mtu)
    ensures CursorOk(tx.outgoing, Cursor0(tx))
  {
  }

  /** With a transport that takes every packet, a ready flight is sent to its end. */
  lemma {:induction false} FlightGoesOut(tx: Tx, mtu: nat, bio: nat -> bool, k: nat)
    requires Ready(tx, mtu) && forall j :: bio(j)
    ensures CursorOk(tx.outgoing, Cursor0(tx))
    ensures var (u, ps, o) := SendFlight(tx, mtu, bio, k);
            o == Sent && AdvanceAll(tx.outgoing, Cursor0(tx), Flat(ps)) == Some((|tx.outgoing|, 0))
    decreases |tx.outgoing| - tx.written, MessageLeft(tx.outgoing, Cursor0(tx))
  {
    hide Ready;
    hide SealNextPacket;
    hide AdvanceAll;
    hide WholeOf;
    CursorReady(tx, mtu);
    SendAdvances(tx, mtu, bio, k);
    SendKeepsCursor(tx, mtu, bio, k);
    if tx.written < |tx.outgoing| {
      PacketGoes(tx, mtu, mtu, false);
      PacketAdvances(tx, mtu, false);
      var (t, rs) := SealNextPacket(tx, mtu, false);
      AdvanceAllOk(tx.outgoing, Cursor0(tx), rs.value);
      assert bio(k);
      FlightGoesOut(t, mtu, bio, k + 1);
    }
  }
}
