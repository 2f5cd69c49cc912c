/** A DTLS sender and receiver joined by a network that loses, duplicates and reorders records: the messages
    taken are always a prefix of the messages sent (d1_both.cc, dtls_record.cc, dtls_method.cc; RFC 6347). */
module DtlsSystem {
  import opened DtlsNumbers
  import opened DtlsReassembly
  import opened DtlsReceive
  import opened DtlsRecord
  import opened DtlsReplay
  import opened DtlsSend
  import opened DtlsSender
  import opened DtlsWire
  import opened Octets
  import opened RecordTypes

  // ---------------------------------------------------------------- the state

  /** A message given to the sender, under the epoch it is sent in. */
  datatype Entry = Entry(ty: Byte, body: Bytes, epoch: nat)

  datatype System = System(
    log: seq<Entry>,          // every message given to the sender, by message number
    start: nat,               // the first message of the present flight
    ccsAt: Option<nat>,       // how many messages came before the ChangeCipherSpec
    tx: Tx,
    net: set<Record>,         // every record the transport took; any of them may arrive, at any time, or never
    filter: Filter,
    rx: Rx,
    out: seq<Message>,        // the messages taken by the receiver
    arrived: seq<Header>,     // the fragments the receiver has looked at
    failed: bool)             // whether the receiver has ended the connection

  datatype Action =
    | AddMessage(ty: Byte, body: Bytes)
    | NewCipher(cipher: Cipher)
    | Flush(mtu: nat, bio: nat -> bool)
    | Resend(mtu: nat, bio: nat -> bool)
    | SendData(payload: Bytes, room: nat)
    | Deliver(r: Record)
    | TakeMessage
    | SwitchRead

  function Whole(e: Entry, i: nat): (f: Fragment)
    requires |e.body| < U24 && i < U16
    ensures f.Fits()
  {
    Fragment(Header(e.ty, |e.body|, i, 0, |e.body|), e.body)
  }

  ghost function Initial(cipher: Cipher): System
  {
    System([], 0, None, Tx([], 0, 0, false, false, 0, START, cipher, cipher), {}, Filter({}, 0),
           Rx(0, [None, None, None, None, None, None, None], 0, false, false), [], [], false)
  }

  // ---------------------------------------------------------------- the steps

  /** How the handshakes of TLS 1.2 use the transport: a new flight begins when the peer has taken all of the
      last one; the cipher changes once, before the one message of the encrypted epoch; the receiver changes
      its cipher at the same place, and reads no handshake records once it took that message. Application data is
      sent under the new cipher, and may overtake that message. */
  ghost predicate Allowed(s: System, a: Action, maxLen: nat)
  {
    match a
    case AddMessage(ty, body) =>
      && |s.log| + 1 < U16 && |body| < U24 && |body| <= maxLen
      && (s.tx.complete ==> s.rx.readSeq == |s.log|)
      && (s.ccsAt.Some? ==> s.ccsAt.value == |s.log|)
    case NewCipher(_) => s.ccsAt.None? && (s.tx.complete ==> s.rx.readSeq == |s.log|)
    case Flush(_, _) => true
    case Resend(_, _) => true
    case SendData(_, _) => s.ccsAt.Some?
    case Deliver(r) => r in s.net && !(s.rx.epoch == 1 && s.ccsAt.Some? && s.rx.readSeq > s.ccsAt.value)
    case TakeMessage => true
    case SwitchRead => s.rx.epoch == 0 && s.rx.hasCcs && s.ccsAt == Some(s.rx.readSeq)
  }

  ghost function Add(s: System, ty: Byte, body: Bytes): System
    requires s.tx.messageSeq < U16 && |body| < U24
  {
    var (t, ok) := AddOutgoing(s.tx, false, FinishMessage(InitMessage(ty, s.tx.messageSeq, body)));
    if !ok then s.(tx := t)
    else
      s.(tx := t, log := s.log + [Entry(ty, body, s.tx.numbers.epoch)], start := if s.tx.complete then |s.log| else s.start)
  }

  ghost function Change(s: System, c: Cipher): System
  {
    var (t, ok) := AddOutgoing(s.tx, true, []);
    if !ok then s.(tx := t)
    else s.(tx := SetCipher(t, c), ccsAt := Some(|s.log|), start := if s.tx.complete then |s.log| else s.start)
  }

  ghost function Transmit(s: System, f: (Tx, seq<seq<Record>>, Outcome)): System
  {
    s.(tx := f.0, net := s.net + set r | r in Flat(f.1))
  }

  /** A record of application data under the present cipher. */
  ghost function Data(s: System, payload: Bytes, room: nat): System
  {
    var (t, r) := SealRecord(s.tx, RT_APPLICATION, payload, false, room);
    s.(tx := t, net := s.net + if r.Some? then {r.value} else {})
  }

  ghost function Receive(s: System, r: Record, maxLen: nat): System
    requires s.rx.RingOk()
  {
    var number := FullNumber((r.epoch, r.number));
    if r.epoch != s.rx.epoch || Stale(s.filter.seen, s.filter.max, number) then s
    else
      var (rx, v) := OpenHandshake(s.rx, r.ty, r.payload, s.rx.epoch == 0, maxLen);
      var p := ParseFragment(r.payload);
      s.(rx := rx, filter := s.filter.Accept(number), failed := s.failed || v.Failed?,
         arrived := if r.ty == RT_HANDSHAKE && v == Success && p.Some? then s.arrived + [p.value.0.hdr] else s.arrived)
  }

  ghost function Take(s: System): System
    requires s.rx.RingOk()
  {
    var (rx, m) := s.rx.Get();
    if m.None? then s else s.(rx := rx.Next(), out := s.out + [m.value])
  }

  ghost function Switch(s: System): System
    requires s.rx.RingOk()
  {
    var rx := s.rx.(hasCcs := false);
    if rx.Unprocessed() then s.(failed := true) else s.(rx := rx.NewEpoch(), filter := Filter({}, 0))
  }

  ghost function Step(s: System, a: Action, maxLen: nat): System
    requires s.tx.Valid() && s.rx.RingOk()
  {
    if !Allowed(s, a, maxLen) then s
    else
      match a
      case AddMessage(ty, body) => Add(s, ty, body)
      case NewCipher(c) => Change(s, c)
      case Flush(mtu, bio) => Transmit(s, FlushFlight(s.tx, mtu, bio))
      case Resend(mtu, bio) => Transmit(s, Retransmit(s.tx, mtu, bio))
      case SendData(payload, room) => Data(s, payload, room)
      case Deliver(r) => Receive(s, r, maxLen)
      case TakeMessage => Take(s)
      case SwitchRead => Switch(s)
  }

  // ---------------------------------------------------------------- the invariant

  /** The log can be sent: epoch 1 holds one message, after the ChangeCipherSpec. */
  ghost predicate LogOk(log: seq<Entry>, ccsAt: Option<nat>, maxLen: nat)
  {
    && |log| < U16
    && (forall i :: 0 <= i < |log| ==> |log[i].body| < U24 && |log[i].body| <= maxLen)
    && (forall i :: 0 <= i < |log| ==> log[i].epoch == if ccsAt.Some? && i >= ccsAt.value then 1 else 0)
    && (ccsAt.Some? ==> ccsAt.value <= |log| <= ccsAt.value + 1)
  }

  /** A fragment of some message of the log. */
  ghost predicate IsPiece(log: seq<Entry>, f: Fragment)
  {
    && f.hdr.seqNo < |log| && f.hdr.seqNo < U16 && |log[f.hdr.seqNo].body| < U24
    && f.hdr.fragOff + |f.body| <= |log[f.hdr.seqNo].body|
    && f == Piece(Whole(log[f.hdr.seqNo], f.hdr.seqNo), f.hdr.fragOff, |f.body|)
  }

  ghost predicate HonestOutgoing(log: seq<Entry>, m: Outgoing)
  {
    if m.isCcs then m.epoch == 0
    else
      var w := WholeOf(m.data);
      && w.Some? && IsPiece(log, w.value) && |w.value.body| == |log[w.value.hdr.seqNo].body|
      && m.epoch == log[w.value.hdr.seqNo].epoch
  }

  ghost predicate HonestRecord(log: seq<Entry>, r: Record)
  {
    || (r.ty == RT_CCS && r.payload == CCS_BODY && r.epoch == 0)
    || (r.ty == RT_APPLICATION && r.epoch == 1)
    || (r.ty == RT_HANDSHAKE
        && var p := ParseFragment(r.payload);
           p.Some? && p.value.1 == [] && IsPiece(log, p.value.0) && r.epoch == log[p.value.0.hdr.seqNo].epoch)
  }

  /** A slot of the ring holds bytes of the message sent under its number, in the receiver's epoch. */
  ghost predicate SlotOk(log: seq<Entry>, epoch: nat, m: Partial)
  {
    && m.seqNo < |log|
    && var e := log[m.seqNo];
       && m.ty == e.ty && m.msgLen == |e.body| && e.epoch == epoch
       && forall i :: i in m.got ==> i < |e.body| && m.got[i] == e.body[i]
  }

  ghost predicate SenderOk(s: System)
  {
    && s.tx.Valid() && s.tx.messageSeq == |s.log| && s.tx.numbers.epoch == (if s.ccsAt.Some? then 1 else 0)
    && (forall i :: 0 <= i < |s.tx.outgoing| ==> HonestOutgoing(s.log, s.tx.outgoing[i]))
    && |s.log| <= s.start + |s.tx.outgoing|
  }

  ghost predicate ReceiverOk(s: System)
  {
    && s.rx.RingOk()
    && s.start <= s.rx.readSeq <= |s.log|
    && (s.rx.epoch == 0 || (s.rx.epoch == 1 && s.ccsAt.Some? && s.ccsAt.value <= s.rx.readSeq))
    && (forall i :: 0 <= i < FLIGHT && s.rx.ring[i].Some? ==> SlotOk(s.log, s.rx.epoch, s.rx.ring[i].value))
    && !s.failed
  }

  /** What has been taken is a byte-exact prefix of what was sent. */
  ghost predicate Prefix(s: System)
  {
    && |s.out| == s.rx.readSeq <= |s.log| < U16
    && forall i :: 0 <= i < |s.out| ==> |s.log[i].body| < U24 && s.out[i] == AsTaken(s.log[i], i)
  }

  /** The message as the receiver hands it out. */
  function AsTaken(e: Entry, i: nat): Message
    requires |e.body| < U24 && i < U16
  {
    Message(e.ty, e.body, EncodeFragment(Whole(e, i)))
  }

  ghost predicate Inv(s: System, maxLen: nat)
  {
    && LogOk(s.log, s.ccsAt, maxLen) && SenderOk(s) && ReceiverOk(s) && Prefix(s)
    && forall r :: r in s.net ==> HonestRecord(s.log, r)
  }

  lemma InitialInv(cipher: Cipher, maxLen: nat)
    ensures Inv(Initial(cipher), maxLen)
  {
  }

  // ---------------------------------------------------------------- adding messages

  lemma LongerLog(log: seq<Entry>, e: Entry, m: Outgoing, r: Record)
    ensures HonestOutgoing(log, m) ==> HonestOutgoing(log + [e], m)
    ensures HonestRecord(log, r) ==> HonestRecord(log + [e], r)
  {
    hide ParseFragment;
    hide WholeOf;
  }

  lemma AddInv(s: System, ty: Byte, body: Bytes, maxLen: nat)
    requires Inv(s, maxLen) && Allowed(s, AddMessage(ty, body), maxLen)
    ensures Inv(Add(s, ty, body), maxLen)
  {
    hide WholeOf;
    hide HonestRecord;
    hide EncodeFragment;
    var t := Add(s, ty, body);
    var e := Entry(ty, body, s.tx.numbers.epoch);
    FinishedIsWhole(ty, |s.log|, body);
    if t.log != s.log {
      WholeOfEncoded(Whole(e, |s.log|));
      forall i | 0 <= i < |t.tx.outgoing|
        ensures HonestOutgoing(t.log, t.tx.outgoing[i])
      {
        if i < |t.tx.outgoing| - 1 {
          LongerLog(s.log, e, t.tx.outgoing[i], Record(0, 0, 0, [], 0));
        }
      }
      forall r | r in t.net
        ensures HonestRecord(t.log, r)
      {
        LongerLog(s.log, e, Outgoing([], 0, true), r);
      }
    }
  }

  lemma ChangeInv(s: System, c: Cipher, maxLen: nat)
    requires Inv(s, maxLen) && Allowed(s, NewCipher(c), maxLen)
    ensures Inv(Change(s, c), maxLen)
  {
    hide WholeOf;
    hide HonestRecord;
    hide SlotOk;
    var t := Change(s, c);
    forall i | 0 <= i < |t.tx.outgoing|
      ensures HonestOutgoing(t.log, t.tx.outgoing[i])
    {
    }
  }

  // ---------------------------------------------------------------- sending

  /** A record that carries the next part of an honest flight is honest. */
  lemma AdvancedIsHonest(log: seq<Entry>, outgoing: seq<Outgoing>, c: Cursor, r: Record)
    requires c.0 < |outgoing| && HonestOutgoing(log, outgoing[c.0]) && Advance(outgoing, c, r).Some?
    ensures HonestRecord(log, r)
  {
    hide WholeOf;
    hide ParseFragment;
  }

  lemma {:induction false} AdvancedAreHonest(log: seq<Entry>, outgoing: seq<Outgoing>, c: Cursor, rs: seq<Record>, r: Record)
    requires forall i :: 0 <= i < |outgoing| ==> HonestOutgoing(log, outgoing[i])
    requires AdvanceAll(outgoing, c, rs).Some? && r in rs
    ensures HonestRecord(log, r)
    decreases |rs|
  {
    hide Advance;
    hide HonestOutgoing;
    hide HonestRecord;
    if c.0 >= |outgoing| {
      NoAdvanceAtEnd(outgoing, c, rs[0]);
    }
    AdvancedIsHonest(log, outgoing, c, rs[0]);
    if r != rs[0] {
      AdvancedAreHonest(log, outgoing, Advance(outgoing, c, rs[0]).value, rs[1..], r);
    }
  }

  lemma NoAdvanceAtEnd(outgoing: seq<Outgoing>, c: Cursor, r: Record)
    requires c.0 >= |outgoing|
    ensures Advance(outgoing, c, r).None?
  {
  }

  /** Sending from any cursor puts only honest records on the network. */
  lemma {:induction false} TransmitInv(s: System, tx: Tx, mtu: nat, bio: nat -> bool, maxLen: nat)
    requires Inv(s, maxLen) && tx == s.tx.(written := tx.written, offset := tx.offset, complete := tx.complete)
    requires CursorOk(tx.outgoing, Cursor0(tx))
    ensures Inv(Transmit(s, SendFlight(tx, mtu, bio, 0)), maxLen)
  {
    hide SendFlight;
    hide HonestOutgoing;
    hide HonestRecord;
    hide SlotOk;
    hide WholeOf;
    SendAdvances(tx, mtu, bio, 0);
    SendKeepsCursor(tx, mtu, bio, 0);
    var (u, ps, o) := SendFlight(tx, mtu, bio, 0);
    var t := Transmit(s, (u, ps, o));
    forall r | r in t.net
      ensures HonestRecord(t.log, r)
    {
      if r in Flat(ps) {
        AdvancedAreHonest(s.log, tx.outgoing, Cursor0(tx), Flat(ps), r);
      }
    }
  }

  /** Application data changes nothing of the handshake but the numbers that are used up. */
  lemma DataInv(s: System, payload: Bytes, room: nat, maxLen: nat)
    requires Inv(s, maxLen) && Allowed(s, SendData(payload, room), maxLen)
    ensures Inv(Data(s, payload, room), maxLen)
  {
    hide HonestOutgoing;
    hide SlotOk;
    hide WholeOf;
    var t := Data(s, payload, room);
    forall r | r in t.net
      ensures HonestRecord(t.log, r)
    {
    }
  }

  // ---------------------------------------------------------------- receiving

  /** An honest fragment in the receiver's epoch is placed without error, in its own message. */
  lemma OpenHonest(s: System, f: Fragment, maxLen: nat)
    requires Inv(s, maxLen) && IsPiece(s.log, f) && f.Fits() && s.log[f.hdr.seqNo].epoch == s.rx.epoch
    requires s.rx.epoch == 1 ==> s.rx.readSeq == s.ccsAt.value
    ensures var o := OpenFragment(s.rx, f, maxLen);
            && o.Go? && o.rx == s.rx.(ring := o.rx.ring)
            && forall i :: 0 <= i < FLIGHT && o.rx.ring[i].Some? ==> SlotOk(s.log, s.rx.epoch, o.rx.ring[i].value)
  {
    hide HonestRecord;
    hide HonestOutgoing;
    var h := f.hdr;
    assert |s.log| - s.rx.readSeq <= FLIGHT;
    if h.seqNo >= s.rx.readSeq {
      if s.rx.ring[h.seqNo % FLIGHT].Some? {
        SlotIsOwn(s.rx, h.seqNo);
        assert SlotOk(s.log, s.rx.epoch, s.rx.ring[h.seqNo % FLIGHT].value);
      }
      var g := GetIncoming(s.rx, h);
      var m := g.rx.ring[h.seqNo % FLIGHT].value;
      assert SlotOk(s.log, s.rx.epoch, m);
      PlaceHonest(s.log, s.rx.epoch, m, f);
      var o := OpenFragment(s.rx, f, maxLen);
      forall i | 0 <= i < FLIGHT && o.rx.ring[i].Some?
        ensures SlotOk(s.log, s.rx.epoch, o.rx.ring[i].value)
      {
        if i != h.seqNo % FLIGHT {
          assert o.rx.ring[i] == s.rx.ring[i];
        }
      }
    }
  }

  lemma PlaceHonest(log: seq<Entry>, epoch: nat, m: Partial, f: Fragment)
    requires SlotOk(log, epoch, m) && IsPiece(log, f) && m.seqNo == f.hdr.seqNo
    ensures SlotOk(log, epoch, m.Place(f.hdr.fragOff, f.body))
  {
    hide At;
    hide Range;
  }

  lemma ReceiveInv(s: System, r: Record, maxLen: nat)
    requires Inv(s, maxLen) && Allowed(s, Deliver(r), maxLen)
    ensures Inv(Receive(s, r, maxLen), maxLen)
  {
    hide WholeOf;
    hide ParseFragment;
    hide HonestOutgoing;
    hide OpenFragment;
    hide SlotOk;
    hide FullNumber;
    assert HonestRecord(s.log, r);
    OpenKeepsRing(s.rx, r.ty, r.payload, s.rx.epoch == 0, maxLen);
    if r.epoch == s.rx.epoch && r.ty == RT_HANDSHAKE {
      var f := ParseFragment(r.payload).value.0;
      OpenHonest(s, f, maxLen);
      var o := OpenFragment(s.rx, f, maxLen);
      OpenFragmentKeepsRing(s.rx, f, maxLen);
      assert OpenFragments(s.rx, r.payload, maxLen) == o;
    }
  }

  // ---------------------------------------------------------------- taking messages and changing the epoch

  /** The slot of the current message, when it is complete, is the message that was sent. */
  lemma TakenIsSent(s: System, maxLen: nat)
    requires Inv(s, maxLen) && s.rx.CurrentComplete()
    ensures s.rx.readSeq < |s.log| && |s.log[s.rx.readSeq].body| < U24
    ensures s.rx.Get().1 == Some(AsTaken(s.log[s.rx.readSeq], s.rx.readSeq))
  {
    hide EncodeFragment;
    hide HonestRecord;
    hide HonestOutgoing;
    var q := s.rx.readSeq;
    var m := s.rx.ring[q % FLIGHT].value;
    SlotIsOwn(s.rx, q);
    assert SlotOk(s.log, s.rx.epoch, m);
    assert m.Body() == s.log[q].body;
  }

  lemma TakeInv(s: System, maxLen: nat)
    requires Inv(s, maxLen)
    ensures Inv(Take(s), maxLen)
  {
    hide EncodeFragment;
    hide HonestRecord;
    hide HonestOutgoing;
    hide SlotOk;
    if s.rx.CurrentComplete() {
      TakenIsSent(s, maxLen);
      NextKeepsRing(s.rx);
      var t := Take(s);
      forall i | 0 <= i < FLIGHT && t.rx.ring[i].Some?
        ensures SlotOk(t.log, t.rx.epoch, t.rx.ring[i].value)
      {
        assert t.rx.ring[i] == s.rx.ring[i];
      }
    }
  }

  /** When the ChangeCipherSpec is taken at its place, nothing is left over: the epoch can change. */
  lemma SwitchInv(s: System, maxLen: nat)
    requires Inv(s, maxLen) && Allowed(s, SwitchRead, maxLen)
    ensures Inv(Switch(s), maxLen) && Switch(s).rx.epoch == 1
  {
    hide HonestRecord;
    hide HonestOutgoing;
    forall i | 0 <= i < FLIGHT
      ensures s.rx.ring[i].None?
    {
    }
  }

  lemma InvMeans(s: System, maxLen: nat)
    requires Inv(s, maxLen)
    ensures Prefix(s) && !s.failed && s.tx.Valid() && s.rx.RingOk() && CursorOk(s.tx.outgoing, Cursor0(s.tx))
  {
  }

  lemma StepInv(s: System, a: Action, maxLen: nat)
    requires Inv(s, maxLen)
    ensures Inv(Step(s, a, maxLen), maxLen)
  {
    hide Inv;
    hide Allowed;
    hide Add;
    hide Change;
    hide Transmit;
    hide Data;
    hide SendFlight;
    hide Receive;
    hide Take;
    hide Switch;
    InvMeans(s, maxLen);
    if Allowed(s, a, maxLen) {
      match a
      case AddMessage(ty, body) => AddInv(s, ty, body, maxLen);
      case NewCipher(c) => ChangeInv(s, c, maxLen);
      case Flush(mtu, bio) => TransmitInv(s, s.tx.(complete := true), mtu, bio, maxLen);
      case Resend(mtu, bio) => TransmitInv(s, s.tx.(written := 0, offset := 0), mtu, bio, maxLen);
      case SendData(payload, room) => DataInv(s, payload, room, maxLen);
      case Deliver(r) => ReceiveInv(s, r, maxLen);
      case TakeMessage => TakeInv(s, maxLen);
      case SwitchRead => SwitchInv(s, maxLen);
    }
  }

  // ---------------------------------------------------------------- runs

  /** The state after a run; an action that is not allowed does nothing. */
  ghost function Run(s: System, run: seq<Action>, maxLen: nat): System
    requires Inv(s, maxLen)
    decreases |run|
  {
    if run == [] then s
    else
      StepInv(s, run[0], maxLen);
      Run(Step(s, run[0], maxLen), run[1..], maxLen)
  }

  /** In every run, whatever the MTUs, the failed writes, and the loss, duplication and order of records, the
      messages taken are the messages sent, byte for byte and in order, as far as they got, and the receiver
      never ends the connection. */
  lemma {:induction false} RunDeliversPrefix(s: System, run: seq<Action>, maxLen: nat)
    requires Inv(s, maxLen)
    ensures var t := Run(s, run, maxLen);
            Inv(t, maxLen) && Prefix(t) && !t.failed
    decreases |run|
  {
    hide Inv;
    hide Step;
    InvMeans(s, maxLen);
    if run != [] {
      StepInv(s, run[0], maxLen);
      RunDeliversPrefix(Step(s, run[0], maxLen), run[1..], maxLen);
    }
  }

  // ---------------------------------------------------------------- the transport is a queue

  /** The messages sent and not yet taken. */
  function Queue(log: seq<Entry>, from: nat): (q: seq<Message>)
    requires |log| < U16 && forall i :: 0 <= i < |log| ==> |log[i].body| < U24
    decreases |log| - from
  {
    if from >= |log| then [] else [AsTaken(log[from], from)] + Queue(log, from + 1)
  }

  lemma {:induction false} QueueAppend(log: seq<Entry>, from: nat, e: Entry)
    requires |log| + 1 < U16 && |e.body| < U24 && from <= |log|
    requires forall i :: 0 <= i < |log| ==> |log[i].body| < U24
    ensures Queue(log + [e], from) == Queue(log, from) + [AsTaken(e, |log|)]
    decreases |log| - from
  {
    hide AsTaken;
    if from < |log| {
      QueueAppend(log, from + 1, e);
    } else {
      assert Queue(log + [e], from + 1) == [];
    }
  }

  /** What one step does to a queue of messages and to what was taken from it. */
  datatype QueueStep = Enqueue(m: Message) | Dequeue(m: Message) | Idle

  ghost function QueueStepOf(s: System, a: Action, maxLen: nat): QueueStep
    requires s.rx.RingOk()
  {
    if !Allowed(s, a, maxLen) then Idle
    else if a.AddMessage? && AddOutgoing(s.tx, false, []).1 then
      Enqueue(Message(a.ty, a.body, EncodeFragment(Whole(Entry(a.ty, a.body, 0), |s.log|))))
    else if a.TakeMessage? && s.rx.CurrentComplete() then Dequeue(s.rx.Get().1.value)
    else Idle
  }

  /** Every step of sender, network and receiver is a step of a first-in first-out queue: what is added goes
      to its end, what is taken comes from its front, and nothing else touches it. */
  lemma StepIsQueueStep(s: System, a: Action, maxLen: nat)
    requires Inv(s, maxLen)
    ensures var t := Step(s, a, maxLen);
            var before, after := Queue(s.log, s.rx.readSeq), Queue(t.log, t.rx.readSeq);
            match QueueStepOf(s, a, maxLen)
            case Enqueue(m) => after == before + [m] && t.out == s.out
            case Dequeue(m) => before == [m] + after && t.out == s.out + [m]
            case Idle => after == before && t.out == s.out
  {
    hide HonestRecord;
    hide HonestOutgoing;
    hide SlotOk;
    hide EncodeFragment;
    hide SendFlight;
    hide WholeOf;
    hide OpenHandshake;
    StepInv(s, a, maxLen);
    if Allowed(s, a, maxLen) {
      if a.AddMessage? {
        QueueAppend(s.log, s.rx.readSeq, Entry(a.ty, a.body, s.tx.numbers.epoch));
      } else if a.Deliver? {
        OpenKeepsRing(s.rx, a.r.ty, a.r.payload, s.rx.epoch == 0, maxLen);
      } else if a.TakeMessage? && s.rx.CurrentComplete() {
        TakenIsSent(s, maxLen);
      }
    }
  }
}
