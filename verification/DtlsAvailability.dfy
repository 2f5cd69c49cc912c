/** When a DTLS message becomes available: exactly when the fragments looked at cover it, and so as soon as one
    whole transmission of it has arrived (d1_both.cc; section 4.2.3 of RFC 6347). */
module DtlsAvailability {
  import opened DtlsReassembly
  import opened DtlsReceive
  import opened DtlsRecord
  import opened DtlsReplay
  import opened DtlsSend
  import opened DtlsSystem
  import opened DtlsWire
  import opened Octets
  import opened RecordTypes

  // ---------------------------------------------------------------- what has arrived

  predicate Mentions(hs: seq<Header>, q: nat)
  {
    exists k :: 0 <= k < |hs| && hs[k].seqNo == q
  }

  /** The positions of message `q` that a run of fragments covers. */
  function Covered(hs: seq<Header>, q: nat): set<nat>
  {
    if hs == [] then {}
    else
      var n := |hs| - 1;
      Covered(hs[..n], q)
      + if hs[n].seqNo == q then Range(hs[n].fragOff, hs[n].fragOff + hs[n].fragLen) else {}
  }

  lemma {:induction false} CoveredAppend(hs: seq<Header>, h: Header, q: nat)
    ensures Covered(hs + [h], q)
         == Covered(hs, q) + if h.seqNo == q then Range(h.fragOff, h.fragOff + h.fragLen) else {}
    ensures Mentions(hs + [h], q) <==> Mentions(hs, q) || h.seqNo == q
  {
    assert (hs + [h])[..|hs|] == hs;
    if Mentions(hs, q) {
      var k :| 0 <= k < |hs| && hs[k].seqNo == q;
      assert (hs + [h])[k].seqNo == q;
    }
    if h.seqNo == q {
      assert (hs + [h])[|hs|].seqNo == q;
    }
  }

  lemma {:induction false} NotMentioned(hs: seq<Header>, q: nat)
    requires !Mentions(hs, q)
    ensures Covered(hs, q) == {}
  {
    if hs != [] {
      var n := |hs| - 1;
      assert hs[n].seqNo != q;
      assert !Mentions(hs[..n], q);
      NotMentioned(hs[..n], q);
    }
  }

  // ---------------------------------------------------------------- the ring shows what has arrived

  ghost predicate Shows(slot: Option<Partial>, hs: seq<Header>, q: nat)
  {
    && (slot.Some? <==> Mentions(hs, q))
    && (slot.Some? ==> slot.value.got.Keys == Covered(hs, q))
  }

  ghost predicate AllShown(s: System)
  {
    && |s.rx.ring| == FLIGHT
    && (forall k :: 0 <= k < |s.arrived| ==> s.arrived[k].seqNo < |s.log|)
    && forall q :: s.rx.readSeq <= q < s.rx.readSeq + FLIGHT ==> Shows(s.rx.ring[q % FLIGHT], s.arrived, q)
  }

  lemma InitialShown(cipher: Cipher)
    ensures AllShown(Initial(cipher))
  {
  }

  lemma {:induction false} PlaceShows(log: seq<Entry>, epoch: nat, m: Partial, hs: seq<Header>, f: Fragment)
    requires SlotOk(log, epoch, m) && IsPiece(log, f) && f.hdr.seqNo == m.seqNo && f.Fits()
    requires m.got.Keys == Covered(hs, m.seqNo)
    ensures m.Place(f.hdr.fragOff, f.body).got.Keys == Covered(hs + [f.hdr], m.seqNo)
  {
    hide At;
    hide Range;
    hide Covered;
    CoveredAppend(hs, f.hdr, m.seqNo);
  }

  /** An honest fragment leaves the ring showing what has arrived. */
  lemma OpenShows(s: System, f: Fragment, maxLen: nat)
    requires Inv(s, maxLen) && AllShown(s) && IsPiece(s.log, f) && f.Fits()
    requires s.log[f.hdr.seqNo].epoch == s.rx.epoch && (s.rx.epoch == 1 ==> s.rx.readSeq == s.ccsAt.value)
    ensures AllShown(s.(rx := OpenFragment(s.rx, f, maxLen).rx, arrived := s.arrived + [f.hdr]))
  {
    hide HonestRecord;
    hide HonestOutgoing;
    hide Mentions;
    hide Covered;
    hide SlotOk;
    OpenHonest(s, f, maxLen);
    OpenFragmentKeepsRing(s.rx, f, maxLen);
    var h := f.hdr;
    var o := OpenFragment(s.rx, f, maxLen).rx;
    forall q | s.rx.readSeq <= q < s.rx.readSeq + FLIGHT
      ensures Shows(o.ring[q % FLIGHT], s.arrived + [h], q)
    {
      CoveredAppend(s.arrived, h, q);
      assert Shows(s.rx.ring[q % FLIGHT], s.arrived, q);
      if q == h.seqNo {
        OwnSlotShows(s, f, maxLen);
      } else if h.seqNo >= s.rx.readSeq && q % FLIGHT == h.seqNo % FLIGHT {
        SameSlot(q, h.seqNo, s.rx.readSeq);
      }
    }
  }

  lemma OwnSlotShows(s: System, f: Fragment, maxLen: nat)
    requires Inv(s, maxLen) && IsPiece(s.log, f) && f.Fits()
    requires s.rx.readSeq <= f.hdr.seqNo < s.rx.readSeq + FLIGHT
    requires Shows(s.rx.ring[f.hdr.seqNo % FLIGHT], s.arrived, f.hdr.seqNo)
    requires s.log[f.hdr.seqNo].epoch == s.rx.epoch && (s.rx.epoch == 1 ==> s.rx.readSeq == s.ccsAt.value)
    ensures Shows(OpenFragment(s.rx, f, maxLen).rx.ring[f.hdr.seqNo % FLIGHT], s.arrived + [f.hdr], f.hdr.seqNo)
  {
    hide HonestRecord;
    hide HonestOutgoing;
    hide Mentions;
    hide Covered;
    hide SlotOk;
    var h, idx := f.hdr, f.hdr.seqNo % FLIGHT;
    CoveredAppend(s.arrived, h, h.seqNo);
    OpenHonest(s, f, maxLen);
    var g := GetIncoming(s.rx, h).rx;
    var m := g.ring[idx].value;
    if s.rx.ring[idx].Some? {
      SlotIsOwn(s.rx, h.seqNo);
      assert SlotOk(s.log, s.rx.epoch, s.rx.ring[idx].value);
    } else {
      NotMentioned(s.arrived, h.seqNo);
      FreshSlotOk(s.log, s.rx.epoch, f);
    }
    PlaceShows(s.log, s.rx.epoch, m, s.arrived, f);
  }

  lemma FreshSlotOk(log: seq<Entry>, epoch: nat, f: Fragment)
    requires IsPiece(log, f) && log[f.hdr.seqNo].epoch == epoch
    ensures SlotOk(log, epoch, Partial(f.hdr.ty, f.hdr.seqNo, f.hdr.msgLen, map[]))
  {
  }

  lemma ReceiveShows(s: System, r: Record, maxLen: nat)
    requires Inv(s, maxLen) && AllShown(s) && Allowed(s, Deliver(r), maxLen)
    ensures AllShown(Receive(s, r, maxLen))
  {
    hide ParseFragment;
    hide HonestOutgoing;
    hide OpenFragment;
    hide SlotOk;
    hide Shows;
    hide FullNumber;
    assert HonestRecord(s.log, r);
    if r.epoch == s.rx.epoch && r.ty == RT_HANDSHAKE {
      var f := ParseFragment(r.payload).value.0;
      OpenHonest(s, f, maxLen);
      OpenShows(s, f, maxLen);
      OpenFragmentKeepsRing(s.rx, f, maxLen);
      assert OpenFragments(s.rx, r.payload, maxLen) == OpenFragment(s.rx, f, maxLen);
    }
  }

  lemma TakeShows(s: System, maxLen: nat)
    requires Inv(s, maxLen) && AllShown(s)
    ensures AllShown(Take(s))
  {
    hide HonestRecord;
    hide HonestOutgoing;
    hide SlotOk;
    hide Covered;
    var t := Take(s);
    if s.rx.CurrentComplete() {
      var q0 := s.rx.readSeq;
      TakenIsSent(s, maxLen);
      assert |s.log| <= q0 + FLIGHT;
      forall q | t.rx.readSeq <= q < t.rx.readSeq + FLIGHT
        ensures Shows(t.rx.ring[q % FLIGHT], t.arrived, q)
      {
        if q < q0 + FLIGHT {
          assert Shows(s.rx.ring[q % FLIGHT], s.arrived, q);
          if q % FLIGHT == q0 % FLIGHT {
            SameSlot(q, q0, q0);
          }
        } else {
          WrapSlot(q0);
        }
      }
    }
  }

  lemma WrapSlot(q: nat)
    ensures (q + FLIGHT) % FLIGHT == q % FLIGHT
  {
  }

  lemma StepShows(s: System, a: Action, maxLen: nat)
    requires Inv(s, maxLen) && AllShown(s)
    ensures Inv(Step(s, a, maxLen), maxLen) && AllShown(Step(s, a, maxLen))
  {
    StepInv(s, a, maxLen);
    hide Inv;
    hide Receive;
    hide Take;
    hide SendFlight;
    hide Shows;
    InvMeans(s, maxLen);
    if Allowed(s, a, maxLen) {
      if a.Deliver? {
        ReceiveShows(s, a.r, maxLen);
      } else if a.TakeMessage? {
        TakeShows(s, maxLen);
      }
    }
  }

  /** The current message is available exactly when fragments of it have arrived that cover it. */
  lemma AvailableIffCovered(s: System, maxLen: nat)
    requires Inv(s, maxLen) && AllShown(s)
    ensures var q := s.rx.readSeq;
            s.rx.CurrentComplete()
            <==> q < |s.log| && Mentions(s.arrived, q) && Covered(s.arrived, q) == Range(0, |s.log[q].body|)
  {
    hide HonestRecord;
    hide HonestOutgoing;
    hide Covered;
    hide Range;
    var q := s.rx.readSeq;
    assert Shows(s.rx.ring[q % FLIGHT], s.arrived, q);
    if s.rx.ring[q % FLIGHT].Some? {
      SlotIsOwn(s.rx, q);
      assert SlotOk(s.log, s.rx.epoch, s.rx.ring[q % FLIGHT].value);
    }
  }

  // ---------------------------------------------------------------- one whole transmission is enough

  ghost predicate IsMessage(m: Outgoing, q: nat)
  {
    !m.isCcs && WholeOf(m.data).Some? && WholeOf(m.data).value.hdr.seqNo == q
  }

  ghost predicate HasMessage(outgoing: seq<Outgoing>, q: nat)
  {
    exists i :: 0 <= i < |outgoing| && IsMessage(outgoing[i], q)
  }

  /** The present flight holds every message from its first on. */
  ghost predicate InFlight(s: System)
  {
    forall q :: s.start <= q < |s.log| ==> HasMessage(s.tx.outgoing, q)
  }

  lemma StillHas(outgoing: seq<Outgoing>, m: Outgoing, q: nat)
    requires HasMessage(outgoing, q) || IsMessage(m, q)
    ensures HasMessage(outgoing + [m], q)
  {
    if HasMessage(outgoing, q) {
      var i :| 0 <= i < |outgoing| && IsMessage(outgoing[i], q);
      assert IsMessage((outgoing + [m])[i], q);
    } else {
      assert IsMessage((outgoing + [m])[|outgoing|], q);
    }
  }

  lemma StepInFlight(s: System, a: Action, maxLen: nat)
    requires Inv(s, maxLen) && InFlight(s)
    ensures InFlight(Step(s, a, maxLen))
  {
    hide HonestRecord;
    hide HonestOutgoing;
    hide SlotOk;
    hide EncodeFragment;
    hide SendFlight;
    hide WholeOf;
    hide OpenHandshake;
    hide HasMessage;
    hide IsMessage;
    if Allowed(s, a, maxLen) {
      match a
      case AddMessage(ty, body) => AddInFlight(s, ty, body, maxLen);
      case NewCipher(c) => ChangeInFlight(s, c, maxLen);
      case Flush(mtu, bio) => SendAdvances(s.tx.(complete := true), mtu, bio, 0);
      case Resend(mtu, bio) => SendAdvances(s.tx.(written := 0, offset := 0), mtu, bio, 0);
      case _ =>
    }
  }

  lemma AddInFlight(s: System, ty: Byte, body: Bytes, maxLen: nat)
    requires Inv(s, maxLen) && InFlight(s) && Allowed(s, AddMessage(ty, body), maxLen)
    ensures InFlight(Add(s, ty, body))
  {
    hide HonestRecord;
    hide HonestOutgoing;
    hide SlotOk;
    hide EncodeFragment;
    hide WholeOf;
    hide HasMessage;
    var t := Add(s, ty, body);
    FinishedIsWhole(ty, |s.log|, body);
    WholeOfEncoded(Whole(Entry(ty, body, s.tx.numbers.epoch), |s.log|));
    if t.log != s.log {
      var m := t.tx.outgoing[|t.tx.outgoing| - 1];
      var before := t.tx.outgoing[..|t.tx.outgoing| - 1];
      assert t.tx.outgoing == before + [m] && IsMessage(m, |s.log|);
      forall q | t.start <= q < |t.log|
        ensures HasMessage(t.tx.outgoing, q)
      {
        StillHas(before, m, q);
      }
    }
  }

  lemma ChangeInFlight(s: System, c: Cipher, maxLen: nat)
    requires Inv(s, maxLen) && InFlight(s) && Allowed(s, NewCipher(c), maxLen)
    ensures InFlight(Change(s, c))
  {
    hide HonestRecord;
    hide HonestOutgoing;
    hide SlotOk;
    hide WholeOf;
    hide HasMessage;
    var t := Change(s, c);
    if t.tx.outgoing != [] {
      var m := t.tx.outgoing[|t.tx.outgoing| - 1];
      var before := t.tx.outgoing[..|t.tx.outgoing| - 1];
      forall q | t.start <= q < |t.log|
        ensures HasMessage(t.tx.outgoing, q)
      {
        if t.tx.outgoing != s.tx.outgoing {
          StillHas(before, m, q);
        }
      }
    }
  }

  /** Every fragment of message `q` among these records has arrived. */
  ghost predicate Delivered(rs: seq<Record>, hs: seq<Header>, q: nat)
  {
    forall k :: 0 <= k < |rs| && rs[k].ty == RT_HANDSHAKE && ParseFragment(rs[k].payload).Some?
                && ParseFragment(rs[k].payload).value.0.hdr.seqNo == q ==>
      ParseFragment(rs[k].payload).value.0.hdr in hs
  }

  lemma {:induction false} HeaderCovers(hs: seq<Header>, h: Header)
    requires h in hs
    ensures Mentions(hs, h.seqNo) && Range(h.fragOff, h.fragOff + h.fragLen) <= Covered(hs, h.seqNo)
  {
    var n := |hs| - 1;
    if hs[n] != h {
      HeaderCovers(hs[..n], h);
      var k :| 0 <= k < n && hs[..n][k].seqNo == h.seqNo;
      assert hs[k].seqNo == h.seqNo;
    }
  }

  /** A record that moves the cursor over part of message `i` is a fragment of it with those bytes. */
  lemma PieceHeader(outgoing: seq<Outgoing>, c: Cursor, r: Record)
    requires CursorOk(outgoing, c) && Advance(outgoing, c, r).Some? && !outgoing[c.0].isCcs
    ensures WholeOf(outgoing[c.0].data).Some? && ParseFragment(r.payload).Some? && r.ty == RT_HANDSHAKE
    ensures var w := WholeOf(outgoing[c.0].data).value;
            var h := ParseFragment(r.payload).value.0.hdr;
            var e := Advance(outgoing, c, r).value;
            h.seqNo == w.hdr.seqNo && h.fragOff == c.1
            && h.fragOff + h.fragLen == if e.0 > c.0 then |w.body| else e.1
  {
    hide WholeOf;
    hide ParseFragment;
  }

  lemma {:induction false} TransmissionCovers(outgoing: seq<Outgoing>, c: Cursor, rs: seq<Record>, i: nat, hs: seq<Header>)
    requires CursorOk(outgoing, c) && AdvanceAll(outgoing, c, rs).Some?
    requires c.0 <= i < AdvanceAll(outgoing, c, rs).value.0 && i < |outgoing| && !outgoing[i].isCcs
    requires WholeOf(outgoing[i].data).Some? && Delivered(rs, hs, WholeOf(outgoing[i].data).value.hdr.seqNo)
    ensures var w := WholeOf(outgoing[i].data).value;
            Mentions(hs, w.hdr.seqNo)
            && Range(if c.0 == i then c.1 else 0, |w.body|) <= Covered(hs, w.hdr.seqNo)
    decreases |rs|
  {
    hide WholeOf;
    hide ParseFragment;
    hide Advance;
    hide Covered;
    hide Mentions;
    hide Range;
    var w := WholeOf(outgoing[i].data).value;
    var e := Advance(outgoing, c, rs[0]).value;
    AdvanceOk(outgoing, c, rs[0]);
    if c.0 == i {
      PieceHeader(outgoing, c, rs[0]);
      HeaderCovers(hs, ParseFragment(rs[0].payload).value.0.hdr);
    }
    if e.0 <= i {
      assert Delivered(rs[1..], hs, w.hdr.seqNo) by {
        forall k | 0 <= k < |rs[1..]|
          ensures rs[1..][k] == rs[k + 1]
        {
        }
      }
      TransmissionCovers(outgoing, e, rs[1..], i, hs);
    }
  }

  /** Once every fragment of the current message in one whole transmission of the flight has arrived, in any
      order and among whatever else, the message is available. */
  lemma {:induction false} TransmissionSuffices(s: System, flying: seq<Record>, maxLen: nat)
    requires Inv(s, maxLen) && AllShown(s) && InFlight(s) && s.rx.readSeq < |s.log|
    requires AdvanceAll(s.tx.outgoing, (0, 0), flying) == Some((|s.tx.outgoing|, 0))
    requires Delivered(flying, s.arrived, s.rx.readSeq)
    ensures s.rx.CurrentComplete() && s.rx.Get().1 == Some(AsTaken(s.log[s.rx.readSeq], s.rx.readSeq))
  {
    hide WholeOf;
    hide ParseFragment;
    hide Advance;
    hide AdvanceAll;
    hide Covered;
    hide Mentions;
    hide Delivered;
    hide HonestRecord;
    hide EncodeFragment;
    var q := s.rx.readSeq;
    assert HasMessage(s.tx.outgoing, q);
    var i :| 0 <= i < |s.tx.outgoing| && IsMessage(s.tx.outgoing[i], q);
    assert HonestOutgoing(s.log, s.tx.outgoing[i]);
    TransmissionCovers(s.tx.outgoing, (0, 0), flying, i, s.arrived);
    assert Shows(s.rx.ring[q % FLIGHT], s.arrived, q);
    SlotIsOwn(s.rx, q);
    var m := s.rx.ring[q % FLIGHT].value;
    assert SlotOk(s.log, s.rx.epoch, m) && m.got.Keys <= Range(0, |s.log[q].body|);
    TakenIsSent(s, maxLen);
  }

  /** All of this holds in every run. */
  lemma {:induction false} RunShows(s: System, run: seq<Action>, maxLen: nat)
    requires Inv(s, maxLen) && AllShown(s) && InFlight(s)
    ensures var t := Run(s, run, maxLen);
            Inv(t, maxLen) && AllShown(t) && InFlight(t)
    decreases |run|
  {
    hide Inv;
    hide AllShown;
    hide InFlight;
    hide Step;
    if run != [] {
      InvMeans(s, maxLen);
      StepShows(s, run[0], maxLen);
      StepInFlight(s, run[0], maxLen);
      RunShows(Step(s, run[0], maxLen), run[1..], maxLen);
    }
  }

  lemma InitialGood(cipher: Cipher, maxLen: nat)
    ensures Inv(Initial(cipher), maxLen) && AllShown(Initial(cipher)) && InFlight(Initial(cipher))
  {
    InitialInv(cipher, maxLen);
    InitialShown(cipher);
  }

  /** The whole claim: from the beginning, in every run, what was taken is a byte-exact prefix of what was sent,
      the receiver never ends the connection, and the next message is available exactly when the fragments that
      have arrived cover it. */
  lemma {:induction false} EveryRun(cipher: Cipher, run: seq<Action>, maxLen: nat)
    ensures Inv(Initial(cipher), maxLen)
    ensures var t := Run(Initial(cipher), run, maxLen);
            var q := t.rx.readSeq;
            && Prefix(t) && !t.failed && |t.rx.ring| == FLIGHT
            && (t.rx.CurrentComplete()
                <==> q < |t.log| && Mentions(t.arrived, q) && Covered(t.arrived, q) == Range(0, |t.log[q].body|))
  {
    hide Inv;
    hide AllShown;
    hide InFlight;
    hide Run;
    hide Covered;
    hide Mentions;
    InitialGood(cipher, maxLen);
    RunShows(Initial(cipher), run, maxLen);
    var t := Run(Initial(cipher), run, maxLen);
    InvMeans(t, maxLen);
    AvailableIffCovered(t, maxLen);
  }
}
