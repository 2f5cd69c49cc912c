/** What becomes of any record and any fragment: which end the connection and with which alert, which are passed over, and
    what the others change (d1_both.cc, dtls_method.cc; sections 4.1 and 4.2 of RFC 6347). */
module DtlsVerdicts {
  import opened DtlsReassembly
  import opened DtlsReceive
  import opened DtlsReplay
  import opened DtlsWire
  import opened Octets
  import opened RecordTypes

  // ---------------------------------------------------------------- records

  /** Application data is passed over under a cipher and ends the connection without one; a ChangeCipherSpec may only come
      without a cipher and is the one byte 1; other than that there are handshake records, of which the fragments decide. */
  lemma RecordVerdict(rx: Rx, ty: Byte, payload: Bytes, nullCipher: bool, maxLen: nat)
    requires rx.RingOk()
    ensures var (r, v) := OpenHandshake(rx, ty, payload, nullCipher, maxLen);
            && (ty == 23 ==> r == rx && v == if nullCipher then Failed(UnexpectedMessage) else Discard)
            && (ty == 20 ==>
                && r == rx.(hasCcs := rx.hasCcs || (nullCipher && payload == [1]))
                && v == if !nullCipher then Failed(UnexpectedMessage) else if payload == [1] then Success else Failed(IllegalParameter))
            && (ty != 20 && ty != 22 && ty != 23 ==> r == rx && v == Failed(UnexpectedMessage))
            && (ty == 22 && payload == [] ==> r == rx && v == Success)
            && (v == Discard <==> ty == 23 && !nullCipher)
            && r.hasMessage == rx.hasMessage && (ty != 20 ==> r.hasCcs == rx.hasCcs)
  {
    hide OpenFragment;
    if ty == 22 {
      FragmentsKeepFlags(rx, payload, maxLen);
    }
  }

  lemma {:induction false} FragmentsKeepFlags(rx: Rx, bs: Bytes, maxLen: nat)
    requires rx.RingOk()
    ensures var r := OpenFragments(rx, bs, maxLen).rx; r.hasCcs == rx.hasCcs && r.hasMessage == rx.hasMessage
    decreases |bs|
  {
    if bs != [] {
      match ParseFragment(bs)
      case None =>
      case Some((f, rest)) =>
        FragmentKeepsFlags(rx, f, maxLen);
        OpenFragmentKeepsRing(rx, f, maxLen);
        hide OpenFragment;
        var s := OpenFragment(rx, f, maxLen);
        if s.Go? {
          FragmentsKeepFlags(s.rx, rest, maxLen);
        }
    }
  }

  lemma FragmentKeepsFlags(rx: Rx, f: Fragment, maxLen: nat)
    requires rx.RingOk()
    ensures var r := OpenFragment(rx, f, maxLen).rx; r.hasCcs == rx.hasCcs && r.hasMessage == rx.hasMessage
  {
  }

  /** A record's fragments are taken one after the other until one ends the connection; less than a whole fragment ends it
      too. */
  lemma {:induction false} FragmentsInTurn(rx: Rx, f: Fragment, rest: Bytes, maxLen: nat)
    requires rx.RingOk() && f.Fits()
    ensures var s := OpenFragment(rx, f, maxLen);
            s.rx.RingOk()
            && OpenFragments(rx, EncodeFragment(f) + rest, maxLen) == if s.Fail? then s else OpenFragments(s.rx, rest, maxLen)
  {
    hide OpenFragment;
    hide ParseFragment;
    hide EncodeFragment;
    ParseEncoded(f, rest);
    OpenFragmentKeepsRing(rx, f, maxLen);
    assert EncodeFragment(f) + rest != [];
  }

  lemma {:induction false} PartOfFragment(rx: Rx, f: Fragment, n: nat, maxLen: nat)
    requires rx.RingOk() && f.Fits() && 0 < n < 12 + |f.body|
    ensures OpenFragments(rx, EncodeFragment(f)[..n], maxLen) == Fail(rx, DecodeError)
  {
    hide Get24;
    hide Get16;
    hide EncodeHeader;
    var bs := EncodeFragment(f)[..n];
    HeaderBytes(f.hdr, f.body);
    if n >= 12 {
      assert bs[9] == EncodeFragment(f)[9] && bs[10] == EncodeFragment(f)[10] && bs[11] == EncodeFragment(f)[11];
    }
    assert ParseFragment(bs) == None;
  }

  // ---------------------------------------------------------------- fragments

  /** The fragment lies in its message and the message is not too long. */
  predicate InBounds(h: Header, maxLen: nat)
  {
    h.fragOff + h.fragLen <= h.msgLen <= maxLen
  }

  /** A message of the same number but of another type or length is being received. */
  predicate Clashes(rx: Rx, h: Header)
  {
    exists i :: 0 <= i < |rx.ring| && rx.ring[i].Some? && rx.ring[i].value.seqNo == h.seqNo
                && (rx.ring[i].value.ty != h.ty || rx.ring[i].value.msgLen != h.msgLen)
  }

  /** For every state and every fragment: when it ends the connection and how, when it is passed over, and that otherwise its
      bytes go into the one slot of its message, unless that is complete, and nothing else changes. In epoch 1 only the next message may come. */
  lemma FragmentVerdict(rx: Rx, f: Fragment, maxLen: nat)
    requires rx.RingOk() && f.Fits()
    ensures var h, s := f.hdr, OpenFragment(rx, f, maxLen);
            if !InBounds(h, maxLen) then s == Fail(rx, IllegalParameter)
            else if rx.epoch == 1 && h.seqNo != rx.readSeq then s == Fail(rx, UnexpectedMessage)
            else if h.seqNo < rx.readSeq || h.seqNo > rx.readSeq + 7 then s == Go(rx)
            else if h.seqNo == rx.readSeq + 7 then s == Fail(rx, InternalError)
            else if Clashes(rx, h) then s == Fail(rx, IllegalParameter)
            else
              var i := h.seqNo % 7;
              && s.Go? && s.rx == rx.(ring := s.rx.ring) && |s.rx.ring| == 7
              && (forall j :: 0 <= j < 7 && j != i ==> s.rx.ring[j] == rx.ring[j])
              && s.rx.ring[i].Some? && s.rx.ring[i].value.seqNo == h.seqNo
              && s.rx.ring[i].value.ty == h.ty && s.rx.ring[i].value.msgLen == h.msgLen
              && if rx.ring[i].Some? && rx.ring[i].value.Complete() then s.rx.ring[i] == rx.ring[i]
                 else Holds(s.rx.ring[i].value, if rx.ring[i].Some? then rx.ring[i].value.got else map[], h.fragOff, f.body)
  {
    hide Partial.Valid;
    var h := f.hdr;
    if rx.readSeq <= h.seqNo < rx.readSeq + 7 && InBounds(h, maxLen) {
      ClashInSlot(rx, h);
      if Clashes(rx, h) {
      } else if rx.ring[h.seqNo % 7].Some? {
        SlotIsOwn(rx, h.seqNo);
        PlaceHolds(rx.ring[h.seqNo % 7].value, h.fragOff, f.body);
      } else {
        PlaceHolds(Partial(h.ty, h.seqNo, h.msgLen, map[]), h.fragOff, f.body);
      }
    }
  }

  lemma {:induction false} EmptyRange(n: nat)
    ensures Range(0, n) == {} ==> n == 0
  {
    assert n > 0 ==> n - 1 in Range(0, n);
  }

  lemma PlaceHolds(m: Partial, off: nat, body: Bytes)
    requires off + |body| <= m.msgLen
    ensures !m.Complete() || m.got == map[] ==> Holds(m.Place(off, body), m.got, off, body)
  {
    if m.Complete() && m.got == map[] {
      EmptyRange(m.msgLen);
      assert m.got.Keys + Range(off, off + |body|) == m.got.Keys;
    }
  }

  /** The bytes at these positions are the fragment's, the others those that were there before. */
  predicate Holds(m: Partial, before: map<nat, Byte>, off: nat, body: Bytes)
  {
    && m.got.Keys == before.Keys + Range(off, off + |body|)
    && forall x :: x in m.got ==> m.got[x] == if off <= x < off + |body| then body[x - off] else if x in before then before[x] else 0
  }

  lemma ClashInSlot(rx: Rx, h: Header)
    requires rx.RingOk() && rx.readSeq <= h.seqNo < rx.readSeq + 7
    ensures Clashes(rx, h) <==>
      && rx.ring[h.seqNo % 7].Some?
      && (rx.ring[h.seqNo % 7].value.ty != h.ty || rx.ring[h.seqNo % 7].value.msgLen != h.msgLen)
  {
    if rx.ring[h.seqNo % 7].Some? {
      SlotIsOwn(rx, h.seqNo);
    }
    if Clashes(rx, h) {
      var i :| 0 <= i < |rx.ring| && rx.ring[i].Some? && rx.ring[i].value.seqNo == h.seqNo
               && (rx.ring[i].value.ty != h.ty || rx.ring[i].value.msgLen != h.msgLen);
      assert rx.Placed(i, rx.ring[i].value);
    }
  }

  // ---------------------------------------------------------------- changing the epoch

  /** A ChangeCipherSpec that is waiting is taken without looking at a record; otherwise the record has to be one, and may
      only come without a cipher. Fragments are taken in meanwhile, and application data passed over. */
  lemma ChangeCipherSpecVerdict(rx: Rx, ty: Byte, payload: Bytes, nullCipher: bool, maxLen: nat)
    requires rx.RingOk()
    ensures var (r, v) := OpenChangeCipherSpec(rx, ty, payload, nullCipher, maxLen);
            && (v == Success <==> rx.hasCcs || (ty == 20 && nullCipher && payload == [1]))
            && (v == Success ==> r == rx.(hasCcs := false))
            && (!rx.hasCcs && ty == 22 ==> (r, v) == var (x, y) := OpenHandshake(rx, ty, payload, nullCipher, maxLen);
                                                     (x, if y == Success then Discard else y))
            && (!rx.hasCcs && ty == 23 ==> r == rx && v == if nullCipher then Failed(UnexpectedMessage) else Discard)
            && !r.hasCcs
  {
    RecordVerdict(rx, ty, payload, nullCipher, maxLen);
  }

  /** The epoch may change exactly when no ChangeCipherSpec is waiting and no slot is in use but that of a message that was
      handed out; so that nothing received before the change becomes part of a message after it. */
  lemma NothingCarriedOver(rx: Rx)
    requires rx.RingOk()
    ensures !rx.Unprocessed() <==>
      !rx.hasCcs && forall i :: 0 <= i < 7 && rx.ring[i].Some? ==> rx.hasMessage && rx.ring[i].value.seqNo == rx.readSeq
    ensures !rx.Unprocessed() && rx.hasMessage ==> forall i :: 0 <= i < 7 ==> rx.NewEpoch().Next().ring[i] == None
    ensures !rx.Unprocessed() && !rx.hasMessage ==> forall i :: 0 <= i < 7 ==> rx.NewEpoch().ring[i] == None
    ensures var n := rx.NewEpoch();
            && n.epoch == (rx.epoch + 1) % 0x1_0000 && n.readSeq == rx.readSeq && n.ring == rx.ring
            && n.hasMessage == rx.hasMessage && n.hasCcs == rx.hasCcs
  {
    forall i | 0 <= i < 7 && rx.ring[i].Some?
      ensures rx.ring[i].value.seqNo == rx.readSeq <==> i == rx.readSeq % 7
    {
      assert rx.Placed(i, rx.ring[i].value);
      if i == rx.readSeq % 7 {
        SlotIsOwn(rx, rx.readSeq);
      }
    }
  }

  /** A message is handed out exactly when all its bytes are there, again and again until it is gone past; going past it
      frees its slot and no other, and leaves the next one still to be handed out. */
  lemma HandingOut(rx: Rx)
    requires rx.RingOk()
    ensures var (r, m) := rx.Get();
            && (m.Some? <==> var slot := rx.ring[rx.readSeq % 7];
                             slot.Some? && forall k :: 0 <= k < slot.value.msgLen ==> k in slot.value.got.Keys)
            && (m.Some? ==> r.hasMessage && r.Get() == (r, m))
            && r == rx.(hasMessage := r.hasMessage) && (m.None? ==> r == rx)
    ensures var n := rx.Next();
            && !n.hasMessage && n.readSeq == (rx.readSeq + 1) % 0x1_0000
            && n.epoch == rx.epoch && n.hasCcs == rx.hasCcs && |n.ring| == 7
            && forall i :: 0 <= i < 7 ==> n.ring[i] == if i == rx.readSeq % 7 then None else rx.ring[i]
  {
    var i := rx.readSeq % 7;
    if rx.ring[i].Some? {
      var m := rx.ring[i].value;
      assert rx.Placed(i, m);
      if forall k :: 0 <= k < m.msgLen ==> k in m.got.Keys {
        assert m.got.Keys == Range(0, m.msgLen);
      }
      assert forall k :: 0 <= k < m.msgLen ==> k in Range(0, m.msgLen);
    }
  }
}
