/** A retransmission over a good transport is enough: its records are fresh for the receiver's replay window, and
    once they have come in, the next message can be taken (d1_both.cc, dtls_record.cc; section 4.2.4 of RFC 6347). */
module DtlsRecovery {
  import opened DtlsAvailability
  import opened DtlsFresh
  import opened DtlsNumbers
  import opened DtlsProgress
  import opened DtlsReassembly
  import opened DtlsReceive
  import opened DtlsRecord
  import opened DtlsReplay
  import opened DtlsSend
  import opened DtlsSender
  import opened DtlsSystem
  import opened DtlsWire
  import opened Octets
  import opened RecordTypes

  // ---------------------------------------------------------------- what the window has seen was used up

  /** A number the window recorded in the receiver's epoch is one the sender does not use again. */
  ghost predicate WasUsed(n: Numbers, epoch: nat, x: nat)
  {
    epoch * U48 <= x < epoch * U48 + U48 && !Unused(n, (epoch, x - epoch * U48))
  }

  /** Every record on the network, and so every number in the window, has its number used up. */
  ghost predicate Spent(s: System)
  {
    && (forall r :: r in s.net ==> r.epoch < U16 && r.number < U48 && !Unused(s.tx.numbers, PairOf(r)))
    && IsMax(s.filter.seen, s.filter.max)
    && (forall x :: x in s.filter.seen ==> WasUsed(s.tx.numbers, s.rx.epoch, x))
  }

  /** The sealing of this step, if it seals anything, does not fail. */
  ghost predicate SealsWell(s: System, a: Action)
    requires CursorOk(s.tx.outgoing, Cursor0(s.tx))
  {
    match a
    case Flush(mtu, bio) => FlushFlight(s.tx, mtu, bio).2 != SealFailed
    case Resend(mtu, bio) => Retransmit(s.tx, mtu, bio).2 != SealFailed
    case SendData(payload, room) => SealRecord(s.tx, RT_APPLICATION, payload, false, room).1.Some?
    case _ => true
  }

  lemma InitialSpent(cipher: Cipher)
    ensures Spent(Initial(cipher))
  {
  }

  /** Numbers used stay used while others are, and across a cipher change. */
  lemma UsedStays(n: Numbers, m: Numbers, epoch: nat, x: nat)
    requires WasUsed(n, epoch, x) && forall p :: Unused(m, p) ==> Unused(n, p)
    ensures WasUsed(m, epoch, x)
  {
  }

  lemma ChangedUses(n: Numbers)
    requires n.Fits() && n.epoch + 1 < U16
    ensures forall p :: Unused(n.Changed(), p) ==> Unused(n, p)
  {
  }

  lemma {:induction false} TransmitSpent(s: System, tx: Tx, mtu: nat, bio: nat -> bool)
    requires Spent(s) && tx.numbers == s.tx.numbers && tx.numbers.Fits() && CursorOk(tx.outgoing, Cursor0(tx))
    requires SendFlight(tx, mtu, bio, 0).2 != SealFailed
    ensures Spent(Transmit(s, SendFlight(tx, mtu, bio, 0)))
  {
    hide SendFlight;
    hide Unused;
    hide PairOf;
    hide IsMax;
    FlightFresh(tx, mtu, bio, 0);
    var f := SendFlight(tx, mtu, bio, 0);
    var t := Transmit(s, f);
    forall r | r in t.net
      ensures r.epoch < U16 && r.number < U48 && !Unused(t.tx.numbers, PairOf(r))
    {
      if r !in s.net {
        var i :| 0 <= i < |Flat(f.1)| && Flat(f.1)[i] == r;
      }
    }
    forall x | x in t.filter.seen
      ensures WasUsed(t.tx.numbers, t.rx.epoch, x)
    {
      UsedStays(s.tx.numbers, t.tx.numbers, s.rx.epoch, x);
    }
  }

  lemma DataSpent(s: System, payload: Bytes, room: nat)
    requires Spent(s) && s.tx.numbers.Fits() && SealRecord(s.tx, RT_APPLICATION, payload, false, room).1.Some?
    ensures Spent(Data(s, payload, room))
  {
    hide IsMax;
    hide SealRecord;
    hide Took;
    hide Unused;
    var t := Data(s, payload, room);
    var (tx, r) := SealRecord(s.tx, RT_APPLICATION, payload, false, room);
    RecordTook(s.tx, RT_APPLICATION, payload, false, room);
    TookIsFresh(s.tx, r.value, tx);
    assert [r.value][0] == r.value;
    forall q | q in t.net
      ensures q.epoch < U16 && q.number < U48 && !Unused(t.tx.numbers, PairOf(q))
    {
      if q in s.net {
        assert !Unused(s.tx.numbers, PairOf(q));
      }
    }
    forall x | x in t.filter.seen
      ensures WasUsed(t.tx.numbers, t.rx.epoch, x)
    {
      UsedStays(s.tx.numbers, t.tx.numbers, s.rx.epoch, x);
    }
  }

  lemma ChangeSpent(s: System, c: Cipher)
    requires Spent(s) && s.tx.numbers.Fits() && s.tx.numbers.epoch + 1 < U16
    ensures Spent(Change(s, c))
  {
    hide Unused;
    hide IsMax;
    hide PairOf;
    ChangedUses(s.tx.numbers);
    var t := Change(s, c);
    forall x | x in t.filter.seen
      ensures WasUsed(t.tx.numbers, t.rx.epoch, x)
    {
      if t.tx.numbers != s.tx.numbers {
        UsedStays(s.tx.numbers, t.tx.numbers, s.rx.epoch, x);
      }
    }
  }

  /** What receiving a record does to the window and to everything but the ring. */
  lemma ReceiveChanges(s: System, r: Record, maxLen: nat)
    requires s.rx.RingOk()
    ensures var t := Receive(s, r, maxLen);
            && t.tx == s.tx && t.log == s.log && t.net == s.net && t.ccsAt == s.ccsAt && t.start == s.start
            && t.rx.readSeq == s.rx.readSeq && t.rx.epoch == s.rx.epoch && s.arrived <= t.arrived
            && t.filter == if r.epoch != s.rx.epoch || Stale(s.filter.seen, s.filter.max, FullNumber((r.epoch, r.number)))
                           then s.filter else s.filter.Accept(FullNumber((r.epoch, r.number)))
  {
    hide FullNumber;
    hide Stale;
    hide OpenFragments;
    OpenKeepsRing(s.rx, r.ty, r.payload, s.rx.epoch == 0, maxLen);
    if r.ty == RT_HANDSHAKE {
      OpenFragmentsKeepsRing(s.rx, r.payload, maxLen);
    }
  }

  lemma ReceiveSpent(s: System, r: Record, maxLen: nat)
    requires Spent(s) && s.rx.RingOk() && r in s.net
    ensures Spent(Receive(s, r, maxLen))
  {
    hide Receive;
    hide FullNumber;
    hide Unused;
    ReceiveChanges(s, r, maxLen);
    FullNumberIs((r.epoch, r.number));
    assert FullNumber((r.epoch, r.number)) - r.epoch * U48 == r.number;
  }

  /** Every step keeps this, as long as sealing does not fail. */
  lemma StepSpent(s: System, a: Action, maxLen: nat)
    requires Inv(s, maxLen) && Spent(s)
    requires CursorOk(s.tx.outgoing, Cursor0(s.tx)) && SealsWell(s, a)
    ensures Spent(Step(s, a, maxLen))
  {
    hide HonestRecord;
    hide HonestOutgoing;
    hide SlotOk;
    hide SendFlight;
    hide Receive;
    hide Change;
    hide FlushFlight;
    hide Retransmit;
    hide Unused;
    hide WasUsed;
    hide IsMax;
    if Allowed(s, a, maxLen) {
      match a
      case AddMessage(_, _) =>
      case NewCipher(c) => ChangeSpent(s, c);
      case Flush(mtu, bio) =>
        FlushIs(s.tx, mtu, bio);
        TransmitSpent(s, s.tx.(complete := true), mtu, bio);
      case Resend(mtu, bio) =>
        ResendIs(s.tx, mtu, bio);
        TransmitSpent(s, s.tx.(written := 0, offset := 0), mtu, bio);
      case SendData(payload, room) => DataSpent(s, payload, room);
      case Deliver(r) => ReceiveSpent(s, r, maxLen);
      case TakeMessage =>
      case SwitchRead => NothingSeen();
    }
  }

  lemma NothingSeen()
    ensures IsMax({}, 0)
  {
  }

  lemma {:induction false} FlushIs(tx: Tx, mtu: nat, bio: nat -> bool)
    requires CursorOk(tx.outgoing, Cursor0(tx))
    ensures FlushFlight(tx, mtu, bio) == SendFlight(tx.(complete := true), mtu, bio, 0)
  {
  }

  lemma {:induction false} ResendIs(tx: Tx, mtu: nat, bio: nat -> bool)
    ensures Retransmit(tx, mtu, bio) == SendFlight(tx.(written := 0, offset := 0), mtu, bio, 0)
  {
  }

  /** No sealing fails in a run. */
  ghost predicate AllSealWell(s: System, run: seq<Action>, maxLen: nat)
    requires Inv(s, maxLen)
    decreases |run|
  {
    run == []
    || (InvMeans(s, maxLen);
        StepInv(s, run[0], maxLen);
        SealsWell(s, run[0]) && AllSealWell(Step(s, run[0], maxLen), run[1..], maxLen))
  }

  lemma {:induction false} RunSpent(s: System, run: seq<Action>, maxLen: nat)
    requires Inv(s, maxLen) && Spent(s) && AllSealWell(s, run, maxLen)
    ensures Spent(Run(s, run, maxLen))
    decreases |run|
  {
    hide Inv;
    hide Spent;
    hide Step;
    hide SealsWell;
    if run != [] {
      InvMeans(s, maxLen);
      StepInv(s, run[0], maxLen);
      StepSpent(s, run[0], maxLen);
      RunSpent(Step(s, run[0], maxLen), run[1..], maxLen);
    }
  }

  // ---------------------------------------------------------------- delivering a transmission

  function Deliveries(rs: seq<Record>): seq<Action>
  {
    if rs == [] then [] else [Deliver(rs[0])] + Deliveries(rs[1..])
  }

  /** These records are on the network, in rising order, and above everything the window has seen. */
  ghost predicate Coming(s: System, rs: seq<Record>)
  {
    && (forall i :: 0 <= i < |rs| ==> rs[i] in s.net && rs[i].epoch < U16 && rs[i].number < U48)
    && Rising(rs) && IsMax(s.filter.seen, s.filter.max)
    && forall i, x :: 0 <= i < |rs| && rs[i].epoch == s.rx.epoch && x in s.filter.seen ==> x < FullNumber(PairOf(rs[i]))
  }

  lemma NotStale(seen: set<nat>, max: nat, n: nat)
    requires IsMax(seen, max) && forall x :: x in seen ==> x < n
    ensures !Stale(seen, max, n)
  {
  }

  /** One record of the receiver's epoch is accepted, and its fragment looked at. */
  lemma Arrives(s: System, r: Record, maxLen: nat)
    requires Inv(s, maxLen) && r in s.net && r.epoch == s.rx.epoch
    requires !Stale(s.filter.seen, s.filter.max, FullNumber(PairOf(r)))
    requires Allowed(s, Deliver(r), maxLen)
    ensures r.ty == RT_HANDSHAKE && ParseFragment(r.payload).Some? ==>
      ParseFragment(r.payload).value.0.hdr in Receive(s, r, maxLen).arrived
  {
    hide WholeOf;
    hide ParseFragment;
    hide HonestOutgoing;
    hide OpenFragment;
    hide SlotOk;
    hide FullNumber;
    hide Stale;
    assert HonestRecord(s.log, r);
    if r.ty == RT_HANDSHAKE {
      var f := ParseFragment(r.payload).value.0;
      OpenHonest(s, f, maxLen);
      OpenFragmentKeepsRing(s.rx, f, maxLen);
      assert OpenFragments(s.rx, r.payload, maxLen) == OpenFragment(s.rx, f, maxLen);
    }
  }

  lemma ComingNext(s: System, rs: seq<Record>, t: System)
    requires rs != [] && Coming(s, rs) && t.net == s.net && t.rx.epoch == s.rx.epoch
    requires t.filter == if rs[0].epoch == s.rx.epoch then s.filter.Accept(FullNumber(PairOf(rs[0]))) else s.filter
    ensures Coming(t, rs[1..])
  {
    hide FullNumber;
    var qs := rs[1..];
    forall i, x | 0 <= i < |qs| && qs[i].epoch == t.rx.epoch && x in t.filter.seen
      ensures x < FullNumber(PairOf(qs[i]))
    {
      assert qs[i] == rs[i + 1];
      if x !in s.filter.seen {
        assert rs[0].number < rs[i + 1].number;
        FullNumberIs(PairOf(rs[0]));
        FullNumberIs(PairOf(rs[i + 1]));
      }
    }
    forall i | 0 <= i < |qs|
      ensures qs[i] in t.net && qs[i].epoch < U16 && qs[i].number < U48
    {
      assert qs[i] == rs[i + 1];
    }
    assert Rising(qs) by {
      forall i, j | 0 <= i < j < |qs| && qs[i].epoch == qs[j].epoch
        ensures qs[i].number < qs[j].number
      {
        assert rs[i + 1].number < rs[j + 1].number;
      }
    }
  }

  /** What a delivery leaves as it was. */
  ghost predicate SameWait(s: System, t: System)
  {
    && t.tx == s.tx && t.log == s.log && t.net == s.net && t.ccsAt == s.ccsAt
    && t.rx.readSeq == s.rx.readSeq && t.rx.epoch == s.rx.epoch && s.arrived <= t.arrived
  }

  /** Every fragment in the receiver's epoch among these records has arrived. */
  ghost predicate AllArrived(s: System, rs: seq<Record>)
  {
    forall k :: 0 <= k < |rs| && rs[k].epoch == s.rx.epoch && rs[k].ty == RT_HANDSHAKE && ParseFragment(rs[k].payload).Some? ==>
      ParseFragment(rs[k].payload).value.0.hdr in s.arrived
  }

  lemma DeliverOne(s: System, rs: seq<Record>, maxLen: nat)
    requires Inv(s, maxLen) && AllShown(s) && InFlight(s) && rs != [] && Coming(s, rs) && s.rx.readSeq < |s.log|
    ensures var t := Step(s, Deliver(rs[0]), maxLen);
            && Inv(t, maxLen) && AllShown(t) && InFlight(t) && SameWait(s, t) && Coming(t, rs[1..]) && AllArrived(t, [rs[0]])
  {
    hide HonestRecord;
    hide HonestOutgoing;
    hide SlotOk;
    hide AllShown;
    hide InFlight;
    hide Receive;
    hide FullNumber;
    hide Stale;
    hide IsMax;
    var r := rs[0];
    StepShows(s, Deliver(r), maxLen);
    StepInFlight(s, Deliver(r), maxLen);
    assert Allowed(s, Deliver(r), maxLen);
    ReceiveChanges(s, r, maxLen);
    if r.epoch == s.rx.epoch {
      NotStale(s.filter.seen, s.filter.max, FullNumber(PairOf(r)));
      Arrives(s, r, maxLen);
    }
    ComingNext(s, rs, Step(s, Deliver(r), maxLen));
  }

  lemma StillArrived(s: System, t: System, r: Record, rs: seq<Record>)
    requires rs != [] && rs[0] == r && AllArrived(s, [r]) && SameWait(s, t) && AllArrived(t, rs[1..])
    ensures AllArrived(t, rs)
  {
    forall k | 0 <= k < |rs| && rs[k].epoch == t.rx.epoch && rs[k].ty == RT_HANDSHAKE && ParseFragment(rs[k].payload).Some?
      ensures ParseFragment(rs[k].payload).value.0.hdr in t.arrived
    {
      if k == 0 {
        assert [r][0] == rs[0];
        var i :| 0 <= i < |s.arrived| && s.arrived[i] == ParseFragment(r.payload).value.0.hdr;
        assert t.arrived[i] == s.arrived[i];
      } else {
        assert rs[1..][k - 1] == rs[k];
      }
    }
  }

  lemma {:induction false} DeliverAll(s: System, rs: seq<Record>, maxLen: nat)
    requires Inv(s, maxLen) && AllShown(s) && InFlight(s) && Coming(s, rs) && s.rx.readSeq < |s.log|
    ensures var t := Run(s, Deliveries(rs), maxLen);
            && Inv(t, maxLen) && AllShown(t) && InFlight(t) && SameWait(s, t) && AllArrived(t, rs)
    decreases |rs|
  {
    hide Inv;
    hide AllShown;
    hide InFlight;
    hide Step;
    hide Coming;
    if rs != [] {
      DeliverOne(s, rs, maxLen);
      InvMeans(s, maxLen);
      var t := Step(s, Deliver(rs[0]), maxLen);
      assert Deliveries(rs)[0] == Deliver(rs[0]) && Deliveries(rs)[1..] == Deliveries(rs[1..]);
      DeliverAll(t, rs[1..], maxLen);
      hide AllArrived;
      StillArrived(t, Run(t, Deliveries(rs[1..]), maxLen), rs[0], rs);
    }
  }

  // ---------------------------------------------------------------- recovery

  /** The records of a transmission are above everything the window has seen. */
  lemma {:induction false} TransmissionComes(s: System, tx: Tx, mtu: nat, bio: nat -> bool)
    requires Spent(s) && tx.numbers == s.tx.numbers && tx.numbers.Fits() && CursorOk(tx.outgoing, Cursor0(tx))
    requires SendFlight(tx, mtu, bio, 0).2 != SealFailed
    ensures Coming(Transmit(s, SendFlight(tx, mtu, bio, 0)), Flat(SendFlight(tx, mtu, bio, 0).1))
  {
    hide SendFlight;
    hide FullNumber;
    hide IsMax;
    FlightFresh(tx, mtu, bio, 0);
    var rs := Flat(SendFlight(tx, mtu, bio, 0).1);
    forall i, x | 0 <= i < |rs| && rs[i].epoch == s.rx.epoch && x in s.filter.seen
      ensures x < FullNumber(PairOf(rs[i]))
    {
      FullNumberIs(PairOf(rs[i]));
      assert Unused(s.tx.numbers, PairOf(rs[i])) && WasUsed(s.tx.numbers, s.rx.epoch, x);
    }
  }

  lemma HasArrived(s: System, rs: seq<Record>, maxLen: nat)
    requires Inv(s, maxLen) && AllArrived(s, rs) && forall i :: 0 <= i < |rs| ==> rs[i] in s.net
    requires s.rx.readSeq < |s.log| && s.log[s.rx.readSeq].epoch == s.rx.epoch
    ensures Delivered(rs, s.arrived, s.rx.readSeq)
  {
    hide HonestOutgoing;
    hide SlotOk;
    hide ParseFragment;
    hide WholeOf;
    forall k | 0 <= k < |rs| && rs[k].ty == RT_HANDSHAKE && ParseFragment(rs[k].payload).Some?
               && ParseFragment(rs[k].payload).value.0.hdr.seqNo == s.rx.readSeq
      ensures ParseFragment(rs[k].payload).value.0.hdr in s.arrived
    {
      assert HonestRecord(s.log, rs[k]);
    }
  }

  /** From any state reached without a sealing failure: if the next message is one of the receiver's epoch, a
      retransmission that the transport takes whole, delivered as it was sent, makes that message available. The
      receiver drops none of its records as replays. */
  lemma Recovers(s: System, mtu: nat, maxLen: nat) returns (more: seq<Action>)
    requires Inv(s, maxLen) && AllShown(s) && InFlight(s) && Spent(s)
    requires s.rx.readSeq < |s.log| && s.log[s.rx.readSeq].epoch == s.rx.epoch
    requires Ready(s.tx.(written := 0, offset := 0), mtu)
    ensures var t := Run(s, more, maxLen);
            && t.log == s.log && t.rx.RingOk() && t.rx.readSeq == s.rx.readSeq < U16 && |s.log[s.rx.readSeq].body| < U24
            && t.rx.CurrentComplete() && t.rx.Get().1 == Some(AsTaken(s.log[s.rx.readSeq], s.rx.readSeq))
  {
    hide HonestRecord;
    hide HonestOutgoing;
    hide SlotOk;
    hide AllShown;
    hide InFlight;
    hide SendFlight;
    hide Ready;
    hide Coming;
    hide Spent;
    hide WholeOf;
    hide Advance;
    hide AdvanceAll;
    var bio := (j: nat) => true;
    var tx := s.tx.(written := 0, offset := 0);
    FlightGoesOut(tx, mtu, bio, 0);
    var f := SendFlight(tx, mtu, bio, 0);
    SendAdvances(tx, mtu, bio, 0);
    var flying := Flat(f.1);
    var a := Resend(mtu, bio);
    StepShows(s, a, maxLen);
    StepInFlight(s, a, maxLen);
    TransmissionComes(s, tx, mtu, bio);
    var t := Step(s, a, maxLen);
    assert t == Transmit(s, f);
    more := [a] + Deliveries(flying);
    assert more[1..] == Deliveries(flying);
    DeliverAll(t, flying, maxLen);
    var u := Run(t, Deliveries(flying), maxLen);
    assert Run(s, more, maxLen) == u;
    InNet(t, flying, f, s);
    HasArrived(u, flying, maxLen);
    TransmissionSuffices(u, flying, maxLen);
  }

  lemma InNet(t: System, rs: seq<Record>, f: (Tx, seq<seq<Record>>, Outcome), s: System)
    requires t == Transmit(s, f) && rs == Flat(f.1)
    ensures forall i :: 0 <= i < |rs| ==> rs[i] in t.net
  {
  }

  /** So from the beginning, after every run in which sealing does not fail. */
  lemma EveryRunRecovers(cipher: Cipher, run: seq<Action>, mtu: nat, maxLen: nat) returns (more: seq<Action>)
    requires Inv(Initial(cipher), maxLen) && AllSealWell(Initial(cipher), run, maxLen)
    requires var s := Run(Initial(cipher), run, maxLen);
             && s.rx.readSeq < |s.log| && s.log[s.rx.readSeq].epoch == s.rx.epoch
             && Ready(s.tx.(written := 0, offset := 0), mtu)
    ensures var s := Run(Initial(cipher), run, maxLen);
            Inv(s, maxLen)
            && var t := Run(s, more, maxLen);
               t.rx.readSeq == s.rx.readSeq && |t.rx.ring| == FLIGHT && t.rx.CurrentComplete()
  {
    hide Inv;
    hide AllShown;
    hide InFlight;
    hide Run;
    hide AllSealWell;
    hide Ready;
    hide Spent;
    InitialGood(cipher, maxLen);
    InitialSpent(cipher);
    RunShows(Initial(cipher), run, maxLen);
    RunSpent(Initial(cipher), run, maxLen);
    more := Recovers(Run(Initial(cipher), run, maxLen), mtu, maxLen);
  }
}
