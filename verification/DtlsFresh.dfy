/** Every record of a flight, and of every retransmission of it, goes out under a number of its own
    (d1_both.cc, dtls_record.cc). */
module DtlsFresh {
  import opened DtlsNumbers
  import opened DtlsReceive
  import opened DtlsRecord
  import opened DtlsSend
  import opened DtlsWire
  import opened Octets
  import opened RecordTypes

  function PairOf(r: Record): (nat, nat)
  {
    (r.epoch, r.number)
  }

  /** Within an epoch the numbers go up; so no two records have the same. */
  ghost predicate Rising(rs: seq<Record>)
  {
    forall i, j :: 0 <= i < j < |rs| && rs[i].epoch == rs[j].epoch ==> rs[i].number < rs[j].number
  }

  /** Between `n` and `m` exactly the numbers of these records were used, each once and in their order. */
  ghost predicate Fresh(n: Numbers, rs: seq<Record>, m: Numbers)
  {
    && Rising(rs)
    && (forall i :: 0 <= i < |rs| ==> Unused(n, PairOf(rs[i])) && !Unused(m, PairOf(rs[i])))
    && (forall i :: 0 <= i < |rs| ==> rs[i].epoch < U16 && rs[i].number < U48)
    && forall p :: Unused(m, p) ==> Unused(n, p)
  }

  lemma FreshJoin(n: Numbers, a: seq<Record>, m: Numbers, b: seq<Record>, k: Numbers)
    requires Fresh(n, a, m) && Fresh(m, b, k)
    ensures Fresh(n, a + b, k)
  {
    hide Unused;
    hide PairOf;
    forall i, j | 0 <= i < j < |a + b| && (a + b)[i].epoch == (a + b)[j].epoch
      ensures (a + b)[i].number < (a + b)[j].number
    {
      if i < |a| <= j {
        UsedBefore(m, a[i], b[j - |a|]);
      }
    }
  }

  /** From `n` on, numbers not used before, in their order. */
  ghost predicate Begun(n: Numbers, rs: seq<Record>)
  {
    Rising(rs) && forall i :: 0 <= i < |rs| ==> Unused(n, PairOf(rs[i]))
  }

  lemma BegunJoin(n: Numbers, a: seq<Record>, m: Numbers, b: seq<Record>)
    requires Fresh(n, a, m) && Begun(m, b)
    ensures Begun(n, a + b)
  {
    hide Unused;
    hide PairOf;
    forall i, j | 0 <= i < j < |a + b| && (a + b)[i].epoch == (a + b)[j].epoch
      ensures (a + b)[i].number < (a + b)[j].number
    {
      if i < |a| <= j {
        UsedBefore(m, a[i], b[j - |a|]);
      }
    }
  }

  lemma FreshBegins(n: Numbers, rs: seq<Record>, m: Numbers)
    requires Fresh(n, rs, m)
    ensures Begun(n, rs) && Begun(n, [])
  {
  }

  /** A used number is below every unused one of its epoch. */
  lemma UsedBefore(m: Numbers, r: Record, q: Record)
    requires !Unused(m, PairOf(r)) && Unused(m, PairOf(q)) && r.epoch == q.epoch
    ensures r.number < q.number
  {
  }

  /** The record took the next number of its epoch. */
  ghost predicate Took(tx: Tx, r: Record, n: Numbers)
  {
    var previous := r.epoch != tx.numbers.epoch;
    && (previous ==> tx.numbers.epoch >= 1)
    && PairOf(r) == tx.numbers.Pair(previous) && n == tx.numbers.Used(previous) && !tx.numbers.Wraps(previous)
  }

  lemma RecordTook(tx: Tx, ty: Byte, payload: Bytes, previous: bool, maxOut: nat)
    requires previous ==> tx.numbers.epoch >= 1
    ensures var (t, r) := SealRecord(tx, ty, payload, previous, maxOut);
            r.Some? ==> Took(tx, r.value, t.numbers)
  {
  }

  lemma FragmentTook(tx: Tx, m: Outgoing, previous: bool, overhead: nat, maxOut: nat)
    requires previous ==> tx.numbers.epoch >= 1
    ensures var s := SealNextFragment(tx, m, previous, overhead, maxOut);
            s.PartDone? || s.MessageDone? ==> Took(tx, s.rec, s.tx.numbers)
  {
    hide SealRecord;
    hide WholeOf;
    hide EncodeFragment;
    hide Took;
    var w := WholeOf(m.data);
    if w.Some? && tx.offset <= |w.value.body| && maxOut >= HM_HEADER_LENGTH + 1 + overhead {
      var left := |w.value.body| - tx.offset;
      var room := maxOut - HM_HEADER_LENGTH - overhead;
      var f := EncodeFragment(Piece(w.value, tx.offset, if left > room then room else left));
      RecordTook(tx, RT_HANDSHAKE, f, previous, maxOut);
      var q, s := SealRecord(tx, RT_HANDSHAKE, f, previous, maxOut), SealNextFragment(tx, m, previous, overhead, maxOut);
      if s.PartDone? || s.MessageDone? {
        assert s.rec == q.1.value && s.tx.numbers == q.0.numbers;
      }
    }
  }

  lemma MessageTook(tx: Tx, maxOut: nat)
    requires tx.written < |tx.outgoing|
    ensures var s := SealNextMessage(tx, maxOut);
            s.PartDone? || s.MessageDone? ==> Took(tx, s.rec, s.tx.numbers)
  {
    hide SealRecord;
    hide SealNextFragment;
    hide Took;
    var m := tx.outgoing[tx.written];
    var previous := tx.numbers.epoch >= 1 && m.epoch == tx.numbers.epoch - 1;
    RecordTook(tx, RT_CCS, CCS_BODY, previous, maxOut);
    FragmentTook(tx, m, previous, RT_HEADER_LENGTH + tx.CipherOf(previous).maxOverhead, maxOut);
    var q, s := SealRecord(tx, RT_CCS, CCS_BODY, previous, maxOut), SealNextMessage(tx, maxOut);
    if m.isCcs && s.MessageDone? {
      assert s == MessageDone(q.0, q.1.value);
    }
  }

  lemma TookIsFresh(tx: Tx, r: Record, t: Tx)
    requires tx.numbers.Fits() && Took(tx, r, t.numbers)
    ensures Fresh(tx.numbers, [r], t.numbers) && t.numbers.Fits()
  {
  }

  lemma NothingFresh(n: Numbers)
    ensures Fresh(n, [], n)
  {
  }

  lemma {:induction false} PacketFresh(tx: Tx, maxOut: nat, progress: bool)
    requires tx.numbers.Fits() && tx.written <= |tx.outgoing|
    ensures var (t, rs) := SealNextPacket(tx, maxOut, progress);
            rs.Some? ==> Fresh(tx.numbers, rs.value, t.numbers)
    decreases |tx.outgoing| - tx.written
  {
    hide SealNextMessage;
    hide Fresh;
    hide Took;
    NothingFresh(tx.numbers);
    if tx.written < |tx.outgoing| {
      SealKeeps(tx, maxOut);
      MessageTook(tx, maxOut);
      var s := SealNextMessage(tx, maxOut);
      if s.PartDone? || s.MessageDone? {
        TookIsFresh(tx, s.rec, s.tx);
      }
      if s.MessageDone? {
        var v := s.tx.(written := tx.written + 1);
        PacketFresh(v, maxOut - s.rec.size, true);
        var (u, rs) := SealNextPacket(v, maxOut - s.rec.size, true);
        if rs.Some? {
          FreshJoin(tx.numbers, [s.rec], v.numbers, rs.value, u.numbers);
        }
      }
    }
  }

  /** The records of a flight the transport took have numbers that were never used before, no two alike; and
      when sealing did not fail, even the numbers of refused packets are not used again. */
  lemma {:induction false} FlightFresh(tx: Tx, mtu: nat, bio: nat -> bool, k: nat)
    requires tx.numbers.Fits() && CursorOk(tx.outgoing, Cursor0(tx))
    ensures var (u, ps, o) := SendFlight(tx, mtu, bio, k);
            && Begun(tx.numbers, Flat(ps))
            && (o != SealFailed ==> Fresh(tx.numbers, Flat(ps), u.numbers))
    decreases |tx.outgoing| - tx.written, MessageLeft(tx.outgoing, Cursor0(tx))
  {
    hide SealNextPacket;
    hide WholeOf;
    hide Fresh;
    hide Begun;
    NothingFresh(tx.numbers);
    FreshBegins(tx.numbers, [], tx.numbers);
    if tx.written < |tx.outgoing| {
      PacketFresh(tx, mtu, false);
      PacketAdvances(tx, mtu, false);
      var (t, rs) := SealNextPacket(tx, mtu, false);
      if rs.Some? && bio(k) {
        AdvanceAllOk(tx.outgoing, Cursor0(tx), rs.value);
        FlightFresh(t, mtu, bio, k + 1);
        var (u, ps, o) := SendFlight(t, mtu, bio, k + 1);
        var qs := [rs.value] + ps;
        assert qs[1..] == ps && Flat(qs) == rs.value + Flat(ps);
        BegunJoin(tx.numbers, rs.value, t.numbers, Flat(ps));
        if o != SealFailed {
          FreshJoin(tx.numbers, rs.value, t.numbers, Flat(ps), u.numbers);
        }
      } else if rs.Some? {
        UsedUp(tx.numbers, rs.value, t.numbers);
      }
    }
  }

  /** A refused packet's numbers stay used. */
  lemma UsedUp(n: Numbers, rs: seq<Record>, m: Numbers)
    requires Fresh(n, rs, m)
    ensures Fresh(n, [], m)
  {
  }
}
