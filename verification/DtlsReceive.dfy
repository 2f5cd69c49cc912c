/** Receiving DTLS handshake messages: the ring of partly received messages, and what a record does to it
    (d1_both.cc, dtls_method.cc; section 4.2 of RFC 6347). */
module DtlsReceive {
  import opened DtlsReassembly
  import opened DtlsReplay
  import opened DtlsWire
  import opened Octets
  import opened RecordTypes

  /** SSL_MAX_HANDSHAKE_FLIGHT */
  const FLIGHT: nat := 7

  datatype Alert = UnexpectedMessage | IllegalParameter | DecodeError | InternalError

  datatype Verdict = Success | Discard | Failed(alert: Alert)

  // ---------------------------------------------------------------- the specification on values

  /** The receiving half of a connection's handshake state. */
  datatype Rx = Rx(readSeq: nat, ring: seq<Option<Partial>>, epoch: nat, hasCcs: bool, hasMessage: bool)
  {
    /** Each slot i holds a message congruent to i among the next seven. */
    ghost predicate RingOk()
    {
      && readSeq < U16
      && |ring| == FLIGHT
      && forall i :: 0 <= i < FLIGHT && ring[i].Some? ==> Placed(i, ring[i].value)
    }

    ghost predicate Placed(i: nat, m: Partial)
    {
      m.seqNo % FLIGHT == i && readSeq <= m.seqNo < readSeq + FLIGHT && m.Valid()
    }

    /** dtls1_is_current_message_complete */
    ghost predicate CurrentComplete()
      requires |ring| == FLIGHT
    {
      var m := ring[readSeq % FLIGHT];
      m.Some? && m.value.Complete()
    }

    /** dtls1_get_message */
    ghost function Get(): (Rx, Option<Message>)
      requires RingOk()
    {
      if CurrentComplete() then
        assert Placed(readSeq % FLIGHT, ring[readSeq % FLIGHT].value);
        var m := ring[readSeq % FLIGHT].value;
        (this.(hasMessage := true), Some(m.Whole()))
      else (this, None)
    }

    /** dtls1_next_message */
    ghost function Next(): Rx
      requires |ring| == FLIGHT
    {
      this.(ring := ring[readSeq % FLIGHT := None], readSeq := (readSeq + 1) % U16, hasMessage := false)
    }

    /** dtls_has_unprocessed_handshake_data */
    ghost predicate Unprocessed()
      requires |ring| == FLIGHT
    {
      hasCcs || exists i :: 0 <= i < FLIGHT && !(hasMessage && i == readSeq % FLIGHT) && ring[i].Some?
    }

    /** dtls1_set_read_state, when nothing is left over */
    ghost function NewEpoch(): Rx
    {
      this.(epoch := (epoch + 1) % U16)
    }
  }

  /** dtls1_open_change_cipher_spec on an opened record. */
  ghost function OpenChangeCipherSpec(rx: Rx, ty: Byte, payload: Bytes, nullCipher: bool, maxLen: nat): (Rx, Verdict)
    requires rx.RingOk()
  {
    if rx.hasCcs then (rx.(hasCcs := false), Success)
    else
      var (r, v) := OpenHandshake(rx, ty, payload, nullCipher, maxLen);
      if v != Success then (r, v)
      else if r.hasCcs then (r.(hasCcs := false), Success)
      else (r, Discard)
  }

  datatype Opening = Go(rx: Rx) | Fail(rx: Rx, alert: Alert)

  /** dtls1_get_incoming_message: the slot for a fragment's message, made if the fragment is the first. */
  ghost function GetIncoming(rx: Rx, h: Header): Opening
    requires |rx.ring| == FLIGHT
  {
    if h.seqNo < rx.readSeq || h.seqNo - rx.readSeq >= FLIGHT then Fail(rx, InternalError)
    else
      var idx := h.seqNo % FLIGHT;
      if rx.ring[idx].Some? then
        var m := rx.ring[idx].value;
        if m.ty != h.ty || m.msgLen != h.msgLen then Fail(rx, IllegalParameter) else Go(rx)
      else
        Go(rx.(ring := rx.ring[idx := Some(Partial(h.ty, h.seqNo, h.msgLen, map[]))]))
  }

  /** One turn of the loop in dtls1_open_handshake. */
  ghost function OpenFragment(rx: Rx, f: Fragment, maxLen: nat): Opening
    requires rx.RingOk()
  {
    var h := f.hdr;
    if h.fragOff > h.msgLen || h.fragOff + h.fragLen > h.msgLen || h.msgLen > maxLen then Fail(rx, IllegalParameter)
    else if rx.epoch == 1 && h.seqNo != rx.readSeq then Fail(rx, UnexpectedMessage)
    else if h.seqNo < rx.readSeq || h.seqNo > rx.readSeq + FLIGHT then Go(rx)
    else
      var s := GetIncoming(rx, h);
      if s.Fail? then s else Go(Deliver(s.rx, f))
  }

  /** The fragment's body goes to its slot. */
  ghost function Deliver(rx: Rx, f: Fragment): Rx
    requires |rx.ring| == FLIGHT && rx.ring[f.hdr.seqNo % FLIGHT].Some?
  {
    var idx := f.hdr.seqNo % FLIGHT;
    rx.(ring := rx.ring[idx := Some(rx.ring[idx].value.Place(f.hdr.fragOff, f.body))])
  }

  /** All fragments of a handshake record. */
  ghost function OpenFragments(rx: Rx, bs: Bytes, maxLen: nat): Opening
    requires rx.RingOk()
    decreases |bs|
  {
    if bs == [] then Go(rx)
    else
      match ParseFragment(bs)
      case None => Fail(rx, DecodeError)
      case Some((f, rest)) =>
        var s := OpenFragment(rx, f, maxLen);
        if s.Fail? then s
        else
          OpenFragmentKeepsRing(rx, f, maxLen);
          OpenFragments(s.rx, rest, maxLen)
  }

  /** dtls1_open_handshake on an opened record. */
  ghost function OpenHandshake(rx: Rx, ty: Byte, payload: Bytes, nullCipher: bool, maxLen: nat): (Rx, Verdict)
    requires rx.RingOk()
  {
    if ty == RT_APPLICATION then (rx, if nullCipher then Failed(UnexpectedMessage) else Discard)
    else if ty == RT_CCS then
      if !nullCipher then (rx, Failed(UnexpectedMessage))
      else if payload != CCS_BODY then (rx, Failed(IllegalParameter))
      else (rx.(hasCcs := true), Success)
    else if ty == RT_HANDSHAKE then
      var s := OpenFragments(rx, payload, maxLen);
      (s.rx, if s.Fail? then Failed(s.alert) else Success)
    else (rx, Failed(UnexpectedMessage))
  }

  // ---------------------------------------------------------------- the ring invariant

  /** A slot taken for a number among the next seven holds that number: the assertion in
      dtls1_get_incoming_message cannot fail. */
  lemma SlotIsOwn(rx: Rx, seqNo: nat)
    requires rx.RingOk() && rx.readSeq <= seqNo < rx.readSeq + FLIGHT
    requires rx.ring[seqNo % FLIGHT].Some?
    ensures rx.ring[seqNo % FLIGHT].value.seqNo == seqNo
  {
    var m := rx.ring[seqNo % FLIGHT].value;
    assert rx.Placed(seqNo % FLIGHT, m);
    SameSlot(m.seqNo, seqNo, rx.readSeq);
  }

  lemma SameSlot(a: nat, b: nat, base: nat)
    requires a % FLIGHT == b % FLIGHT && base <= a < base + FLIGHT && base <= b < base + FLIGHT
    ensures a == b
  {
  }

  /** The ring invariant looks at the ring and the counter only. */
  lemma SameRing(rx: Rx, r: Rx)
    requires rx.RingOk() && r.ring == rx.ring && r.readSeq == rx.readSeq
    ensures r.RingOk()
  {
    forall i | 0 <= i < FLIGHT && r.ring[i].Some?
      ensures r.Placed(i, r.ring[i].value)
    {
      assert rx.Placed(i, rx.ring[i].value);
    }
  }

  lemma OpenFragmentKeepsRing(rx: Rx, f: Fragment, maxLen: nat)
    requires rx.RingOk() && f.Fits()
    ensures var s := OpenFragment(rx, f, maxLen);
            s.rx.RingOk() && s.rx.readSeq == rx.readSeq && s.rx.epoch == rx.epoch
  {
    var h := f.hdr;
    var s := OpenFragment(rx, f, maxLen);
    if s.Go? && s.rx != rx {
      var g := GetIncoming(rx, h).rx;
      var idx := h.seqNo % FLIGHT;
      assert rx.Placed(idx, g.ring[idx].value) by {
        if rx.ring[idx].Some? {
          SlotIsOwn(rx, h.seqNo);
        }
      }
      PlaceValid(g.ring[idx].value, h.fragOff, f.body);
      forall i | 0 <= i < FLIGHT && s.rx.ring[i].Some?
        ensures s.rx.Placed(i, s.rx.ring[i].value)
      {
        if i != idx {
          assert rx.Placed(i, rx.ring[i].value);
        }
      }
    }
  }

  /** Of the fragments past the window, the one seven ahead gets through the first check and is an error at
      the second; those further on are ignored. */
  lemma BeyondWindow(rx: Rx, f: Fragment, maxLen: nat)
    requires rx.RingOk() && rx.epoch != 1 && f.hdr.seqNo >= rx.readSeq + FLIGHT
    requires f.hdr.fragOff + f.hdr.fragLen <= f.hdr.msgLen <= maxLen
    ensures OpenFragment(rx, f, maxLen) == Fail(rx, InternalError) <==> f.hdr.seqNo == rx.readSeq + FLIGHT
    ensures OpenFragment(rx, f, maxLen) == Go(rx) <==> f.hdr.seqNo > rx.readSeq + FLIGHT
  {
  }

  lemma PlaceValid(m: Partial, off: nat, body: Bytes)
    requires m.Valid() && off + |body| <= m.msgLen
    ensures m.Place(off, body).Valid()
  {
  }

  lemma {:induction false} OpenFragmentsKeepsRing(rx: Rx, bs: Bytes, maxLen: nat)
    requires rx.RingOk()
    ensures var s := OpenFragments(rx, bs, maxLen);
            s.rx.RingOk() && s.rx.readSeq == rx.readSeq && s.rx.epoch == rx.epoch
    decreases |bs|
  {
    hide OpenFragment;
    if bs != [] {
      match ParseFragment(bs)
      case None =>
      case Some((f, rest)) =>
        OpenFragmentKeepsRing(rx, f, maxLen);
        var s := OpenFragment(rx, f, maxLen);
        if s.Go? {
          OpenFragmentsKeepsRing(s.rx, rest, maxLen);
        }
    }
  }

  /** Whatever a record holds, every slot stays where its number says. */
  lemma OpenKeepsRing(rx: Rx, ty: Byte, payload: Bytes, nullCipher: bool, maxLen: nat)
    requires rx.RingOk()
    ensures OpenHandshake(rx, ty, payload, nullCipher, maxLen).0.RingOk()
    ensures OpenHandshake(rx, ty, payload, nullCipher, maxLen).0.readSeq == rx.readSeq
  {
    hide OpenFragments;
    OpenFragmentsKeepsRing(rx, payload, maxLen);
    var r := OpenHandshake(rx, ty, payload, nullCipher, maxLen).0;
    forall i | 0 <= i < FLIGHT && r.ring[i].Some?
      ensures r.Placed(i, r.ring[i].value)
    {
      if ty == RT_HANDSHAKE {
        assert OpenFragments(rx, payload, maxLen).rx.Placed(i, r.ring[i].value);
      } else {
        assert rx.Placed(i, r.ring[i].value);
      }
    }
  }

  /** Taking the current message keeps the ring, even when the 16-bit counter wraps: at 65535 no later
      message fits, so the ring is empty afterwards. */
  lemma NextKeepsRing(rx: Rx)
    requires rx.RingOk()
    ensures rx.Next().RingOk()
    ensures rx.readSeq == U16 - 1 ==> forall i :: 0 <= i < FLIGHT ==> rx.Next().ring[i] == None
  {
    var n := rx.Next();
    forall i | 0 <= i < FLIGHT && n.ring[i].Some?
      ensures n.Placed(i, n.ring[i].value) && rx.readSeq < U16 - 1
    {
      var m := n.ring[i].value;
      assert rx.Placed(i, m);
      assert m.seqNo != rx.readSeq;
    }
  }

  // ---------------------------------------------------------------- the state the code updates

  /** A complete entry's memory is the message as one fragment. */
  lemma WholeData(frag: HmFragment)
    requires frag.Valid() && frag.reassembly == null
    ensures frag.Model().Complete() && frag.data[HM_HEADER_LENGTH..] == frag.Model().Body()
    ensures frag.Model().Whole() == Message(frag.ty, frag.data[HM_HEADER_LENGTH..], frag.data[..])
  {
    hide EncodeHeader;
    var bs := frag.data[HM_HEADER_LENGTH..];
    forall i | 0 <= i < frag.msgLen
      ensures bs[i] == frag.Model().Body()[i]
    {
      assert i in frag.got;
    }
    assert bs == frag.Model().Body();
    assert frag.data[..] == frag.data[..HM_HEADER_LENGTH] + bs;
  }

  ghost function Slots(frags: seq<HmFragment?>): (r: seq<Option<Partial>>)
    reads frags
    ensures |r| == |frags|
  {
    seq(|frags|, i requires 0 <= i < |frags| reads frags => if frags[i] == null then None else Some(frags[i].Model()))
  }

  /** DTLS1_STATE, the receiving part. */
  class Receiver {
    var readSeq: nat
    const ring: array<HmFragment?>
    var epoch: nat
    var hasCcs: bool
    var hasMessage: bool
    ghost var Repr: set<object>

    ghost function Model(): Rx
      reads this, ring, ring[..]
    {
      Rx(readSeq, Slots(ring[..]), epoch, hasCcs, hasMessage)
    }

    /** The ring's entries lie in the footprint and share no memory. */
    ghost predicate Layout()
      reads this, Repr
    {
      && this in Repr && ring in Repr && ring.Length == FLIGHT
      && (forall i :: 0 <= i < FLIGHT && ring[i] != null ==> 
          ring[i] in Repr && ring[i].Parts() <= Repr - {this, ring} && ring[i].Valid())
      && (forall i, j :: 0 <= i < FLIGHT && 0 <= j < FLIGHT && i != j && ring[i] != null && ring[j] != null ==>
          ring[i].Parts() !! ring[j].Parts())
    }

    ghost predicate Valid()
      reads this, Repr
    {
      Layout() && Model().RingOk()
    }

    constructor ()
      ensures Valid() && fresh(Repr)
      ensures Model() == Rx(0, [None, None, None, None, None, None, None], 0, false, false)
    {
      readSeq, epoch, hasCcs, hasMessage := 0, 0, false, false;
      ring := new HmFragment?[FLIGHT](_ => null);
      new;
      Repr := {this, ring};
    }

    /** dtls1_get_incoming_message */
    method GetIncomingMessage(h: Header) returns (frag: HmFragment?, alert: Alert)
      requires Valid() && h.Fits()
      modifies Repr
      ensures Valid() && fresh(Repr - old(Repr))
      ensures GetIncoming(old(Model()), h) == if frag == null then Fail(Model(), alert) else Go(Model())
      ensures frag != null ==> frag == ring[h.seqNo % FLIGHT] && frag.ty == h.ty && frag.msgLen == h.msgLen
    {
      hide HmFragment.Valid;
      alert := InternalError;
      if h.seqNo < readSeq || h.seqNo - readSeq >= FLIGHT {
        return null, InternalError;
      }
      var idx := h.seqNo % FLIGHT;
      frag := ring[idx];
      if frag != null {
        SlotIsOwn(Model(), h.seqNo);
        assert frag.seqNo == h.seqNo;
        if frag.ty != h.ty || frag.msgLen != h.msgLen {
          return null, IllegalParameter;
        }
        return;
      }
      frag := Install(h, idx);
    }

    /** A new entry for the first fragment of a message. */
    method Install(h: Header, idx: nat) returns (frag: HmFragment)
      requires Layout() && h.Fits() && idx < FLIGHT && ring[idx] == null
      modifies this`Repr, ring
      ensures Layout() && fresh(Repr - old(Repr)) && frag == ring[idx]
      ensures Model() == old(Model()).(ring := old(Slots(ring[..]))[idx := Some(Partial(h.ty, h.seqNo, h.msgLen, map[]))])
      ensures frag.ty == h.ty && frag.msgLen == h.msgLen
    {
      hide HmFragment.Valid;
      hide HmFragment.MapValid;
      frag := new HmFragment(h.ty, h.seqNo, h.msgLen);
      ring[idx] := frag;
      Repr := Repr + frag.Parts();
      assert Slots(ring[..]) == old(Slots(ring[..]))[idx := Some(frag.Model())];
    }

    /** The copy of a fragment's body into its slot. */
    method PlaceInto(idx: nat, off: nat, body: Bytes)
      requires Layout() && idx < FLIGHT && ring[idx] != null && off + |body| <= ring[idx].msgLen
      modifies Repr - {this, ring}
      ensures Layout() && Repr == old(Repr)
      ensures Model() == old(Model()).(ring := old(Slots(ring[..]))[idx := Some(old(ring[idx].Model()).Place(off, body))])
    {
      hide HmFragment.Valid;
      var frag := ring[idx];
      frag.Place(off, body);
      assert Slots(ring[..]) == old(Slots(ring[..]))[idx := Some(frag.Model())];
    }

    /** One turn of the loop in dtls1_open_handshake. */
    method TakeFragment(f: Fragment, maxLen: nat) returns (alert: Option<Alert>)
      requires Valid() && f.Fits()
      modifies Repr
      ensures Valid() && fresh(Repr - old(Repr))
      ensures OpenFragment(old(Model()), f, maxLen) == if alert.Some? then Fail(Model(), alert.value) else Go(Model())
    {
      hide HmFragment.Valid;
      hide Rx.RingOk;
      var h := f.hdr;
      if h.fragOff > h.msgLen || h.fragOff + h.fragLen > h.msgLen || h.msgLen > maxLen {
        return Some(IllegalParameter);
      }
      if epoch == 1 && h.seqNo != readSeq {
        return Some(UnexpectedMessage);
      }
      if h.seqNo < readSeq || h.seqNo > readSeq + FLIGHT {
        return None;
      }
      OpenFragmentKeepsRing(Model(), f, maxLen);
      var frag, bad := GetIncomingMessage(h);
      if frag == null {
        return Some(bad);
      }
      hide GetIncoming;
      PlaceInto(h.seqNo % FLIGHT, h.fragOff, f.body);
      return None;
    }

    /** The loop of dtls1_open_handshake over the fragments of a record. */
    method TakeFragments(payload: Bytes, maxLen: nat) returns (alert: Option<Alert>)
      requires Valid()
      modifies Repr
      ensures Valid() && fresh(Repr - old(Repr))
      ensures OpenFragments(old(Model()), payload, maxLen)
           == if alert.Some? then Fail(Model(), alert.value) else Go(Model())
    {
      hide HmFragment.Valid;
      hide Layout;
      hide Rx.RingOk;
      hide ParseFragment;
      hide OpenFragment;
      var rest := payload;
      while rest != []
        invariant Valid() && fresh(Repr - old(Repr))
        invariant OpenFragments(old(Model()), payload, maxLen) == OpenFragments(Model(), rest, maxLen)
        decreases |rest|
      {
        var p := ParseFragment(rest);
        if p.None? {
          return Some(DecodeError);
        }
        OpenFragmentKeepsRing(Model(), p.value.0, maxLen);
        alert := TakeFragment(p.value.0, maxLen);
        if alert.Some? {
          return;
        }
        rest := p.value.1;
      }
      return None;
    }

    /** dtls1_open_handshake, after the record layer. */
    method TakeRecord(ty: Byte, payload: Bytes, nullCipher: bool, maxLen: nat) returns (v: Verdict)
      requires Valid()
      modifies Repr
      ensures Valid() && fresh(Repr - old(Repr))
      ensures (Model(), v) == OpenHandshake(old(Model()), ty, payload, nullCipher, maxLen)
    {
      hide HmFragment.Valid;
      hide OpenFragments;
      if ty == RT_APPLICATION {
        return if nullCipher then Failed(UnexpectedMessage) else Discard;
      } else if ty == RT_CCS {
        if !nullCipher {
          return Failed(UnexpectedMessage);
        }
        if payload != CCS_BODY {
          return Failed(IllegalParameter);
        }
        SetCcs(true);
        return Success;
      } else if ty != RT_HANDSHAKE {
        return Failed(UnexpectedMessage);
      }
      var alert := TakeFragments(payload, maxLen);
      return if alert.Some? then Failed(alert.value) else Success;
    }

    /** The ChangeCipherSpec flag. */
    method SetCcs(b: bool)
      requires Valid()
      modifies this`hasCcs
      ensures Valid() && Model() == old(Model()).(hasCcs := b)
    {
      hide HmFragment.Valid;
      ghost var rx := Model();
      hasCcs := b;
      assert Model() == rx.(hasCcs := b);
      SameRing(rx, Model());
    }

    /** dtls1_is_current_message_complete */
    method IsCurrentMessageComplete() returns (b: bool)
      requires Valid()
      ensures b == Model().CurrentComplete()
      ensures var frag := ring[readSeq % FLIGHT]; b == (frag != null && frag.reassembly == null)
    {
      var frag := ring[readSeq % FLIGHT];
      b := frag != null && frag.reassembly == null;
    }

    /** dtls1_get_message: the current message's type, body and raw bytes, once complete. */
    method GetMessage() returns (msg: Option<Message>)
      requires Valid()
      modifies this`hasMessage
      ensures Valid() && (Model(), msg) == old(Model()).Get()
    {
      hide HmFragment.Valid;
      hide Rx.Placed;
      var complete := IsCurrentMessageComplete();
      if !complete {
        return None;
      }
      var frag := ring[readSeq % FLIGHT];
      WholeData(frag);
      ghost var rx := Model();
      hasMessage := true;
      assert Model() == rx.(hasMessage := true);
      SameRing(rx, Model());
      return Some(Message(frag.ty, frag.data[HM_HEADER_LENGTH..], frag.data[..]));
    }

    /** dtls1_next_message */
    method NextMessage()
      requires Valid() && Model().CurrentComplete()
      modifies this`readSeq, this`hasMessage, ring
      ensures Valid() && Model() == old(Model()).Next()
    {
      hide HmFragment.Valid;
      hide Rx.RingOk;
      NextKeepsRing(Model());
      ghost var slots := Slots(ring[..]);
      var index := readSeq % FLIGHT;
      ring[index] := null;
      assert Slots(ring[..]) == slots[index := None];
      readSeq := (readSeq + 1) % U16;
      hasMessage := false;
    }

    /** dtls_has_unprocessed_handshake_data */
    method HasUnprocessed() returns (b: bool)
      requires Valid()
      ensures b == Model().Unprocessed()
    {
      hide HmFragment.Valid;
      hide Rx.RingOk;
      if hasCcs {
        return true;
      }
      var current := readSeq % FLIGHT;
      var i := 0;
      while i < FLIGHT
        invariant 0 <= i <= FLIGHT
        invariant forall k :: 0 <= k < i ==> (hasMessage && k == current) || Model().ring[k].None?
      {
        if !(hasMessage && i == current) && ring[i] != null {
          assert Model().ring[i].Some?;
          return true;
        }
        i := i + 1;
      }
      return false;
    }

    /** dtls1_set_read_state; the record layer's replay window starts again. */
    method SetReadState(bitmap: Bitmap) returns (ok: bool)
      requires Valid() && bitmap.Valid() && bitmap !in Repr
      modifies this`epoch, bitmap
      ensures Valid() && bitmap.Valid() && ok == !old(Model()).Unprocessed()
      ensures Model() == if ok then old(Model()).NewEpoch() else old(Model())
      ensures bitmap.seen == if ok then {} else old(bitmap.seen)
    {
      hide HmFragment.Valid;
      hide Rx.Placed;
      var left := HasUnprocessed();
      if left {
        return false;
      }
      ghost var rx := Model();
      epoch := (epoch + 1) % U16;
      assert Model() == rx.NewEpoch();
      SameRing(rx, Model());
      bitmap.Reset();
      return true;
    }

    /** dtls1_open_change_cipher_spec, after the record layer. */
    method TakeChangeCipherSpec(ty: Byte, payload: Bytes, nullCipher: bool, maxLen: nat) returns (v: Verdict)
      requires Valid()
      modifies Repr
      ensures Valid() && fresh(Repr - old(Repr))
      ensures (Model(), v) == OpenChangeCipherSpec(old(Model()), ty, payload, nullCipher, maxLen)
    {
      hide HmFragment.Valid;
      hide OpenHandshake;
      hide Rx.RingOk;
      if !hasCcs {
        v := TakeRecord(ty, payload, nullCipher, maxLen);
        if v != Success {
          return;
        }
      }
      if hasCcs {
        SetCcs(false);
        return Success;
      }
      return Discard;
    }
  }
}
