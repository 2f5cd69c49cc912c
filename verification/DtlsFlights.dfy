/** What a flight holds: the messages added since the one before it was sent, numbered in order (d1_both.cc; section 4.2.2
    of RFC 6347). */
module DtlsFlights {
  import opened DtlsNumbers
  import opened DtlsReceive
  import opened DtlsReplay
  import opened DtlsSend
  import opened DtlsWire
  import opened Octets
  import opened RecordTypes

  /** What the handshake adds to a flight: a message, which gets the next number, or a ChangeCipherSpec. */
  datatype Item = Handshake(ty: Byte, body: Bytes) | ChangeCipher

  predicate Fits(it: Item)
  {
    it.Handshake? ==> |it.body| < U24
  }

  /** init_message and add_message, or add_change_cipher_spec. */
  function AddItem(tx: Tx, it: Item): (Tx, bool)
    requires tx.messageSeq < U16 && Fits(it)
  {
    match it
    case Handshake(ty, body) => AddOutgoing(tx, false, FinishMessage(InitMessage(ty, tx.messageSeq, body)))
    case ChangeCipher => AddOutgoing(tx, true, [])
  }

  /** Adding one item after the other. */
  function AddItems(tx: Tx, items: seq<Item>): (t: Tx)
    requires tx.messageSeq < U16 && forall i :: 0 <= i < |items| ==> Fits(items[i])
    decreases |items|
  {
    if items == [] then tx else AddItems(AddItem(tx, items[0]).0, items[1..])
  }

  /** How many of the items are messages. */
  function Messages(items: seq<Item>): nat
  {
    if items == [] then 0 else (if items[0].Handshake? then 1 else 0) + Messages(items[1..])
  }

  /** An item as it waits in a flight: in the epoch it was added in, a message whole and under its number. */
  ghost predicate Holds(m: Outgoing, it: Item, epoch: nat, seqNo: nat)
  {
    && m.epoch == epoch
    && (m.isCcs <==> it.ChangeCipher?)
    && match it
       case Handshake(ty, body) =>
         && WholeOf(m.data).Some? && WholeOf(m.data).value.body == body
         && WholeOf(m.data).value.hdr == Header(ty, |body|, seqNo, 0, |body|)
       case ChangeCipher => m.data == []
  }

  /** For every state: an item joins the flight that is still being composed, or begins a new one if that was sent. It is
      refused exactly if the flight has seven already; nothing but the flight, its cursor and the next message number
      changes. */
  lemma ItemJoins(tx: Tx, it: Item)
    requires tx.messageSeq < U16 && Fits(it)
    ensures var (t, ok) := AddItem(tx, it);
            var before := if tx.complete then [] else tx.outgoing;
            && (ok <==> |before| < 7)
            && (!ok ==> t == tx)
            && (ok ==>
                && |t.outgoing| == |before| + 1 && t.outgoing[..|before|] == before
                && Holds(t.outgoing[|before|], it, tx.numbers.epoch, tx.messageSeq)
                && t.messageSeq == (tx.messageSeq + if it.Handshake? then 1 else 0) % 0x1_0000
                && t == tx.(outgoing := t.outgoing, messageSeq := t.messageSeq, complete := false,
                            written := if tx.complete then 0 else tx.written, offset := if tx.complete then 0 else tx.offset,
                            hasReply := !tx.complete && tx.hasReply))
  {
    hide WholeOf;
    hide EncodeFragment;
    hide FinishMessage;
    if it.Handshake? {
      FinishedIsWhole(it.ty, tx.messageSeq, it.body);
      WholeOfEncoded(Fragment(Header(it.ty, |it.body|, tx.messageSeq, 0, |it.body|), it.body));
      EncodedLength(Fragment(Header(it.ty, |it.body|, tx.messageSeq, 0, |it.body|), it.body));
    }
  }

  lemma EncodedLength(f: Fragment)
    requires f.Fits()
    ensures |EncodeFragment(f)| == 12 + |f.body|
  {
  }

  lemma NumbersGoOn(n: nat, a: nat, b: nat)
    ensures ((n + a) % U16 + b) % U16 == (n + (a + b)) % U16
  {
  }

  /** Item `i` of the flight, when the first message after `tx` has number `tx.messageSeq`. */
  ghost predicate HoldsAt(tx: Tx, t: Tx, items: seq<Item>, first: nat, i: nat)
    requires i < |items| && first + |items| <= |t.outgoing|
  {
    Holds(t.outgoing[first + i], items[i], tx.numbers.epoch, (tx.messageSeq + Messages(items[..i])) % U16)
  }

  lemma {:induction false} HoldsFirst(tx: Tx, t: Tx, u: Tx, items: seq<Item>, n: nat)
    requires items != [] && n + |items| <= |u.outgoing| && n < |t.outgoing| && u.outgoing[n] == t.outgoing[n]
    requires tx.messageSeq < U16 && Holds(t.outgoing[n], items[0], tx.numbers.epoch, tx.messageSeq)
    ensures HoldsAt(tx, u, items, n, 0)
  {
    assert items[..0] == [];
  }

  lemma {:induction false} HoldsNext(tx: Tx, t: Tx, u: Tx, items: seq<Item>, n: nat, i: nat)
    requires 0 < i < |items| && n + |items| <= |u.outgoing| && t.numbers.epoch == tx.numbers.epoch
    requires t.messageSeq == (tx.messageSeq + if items[0].Handshake? then 1 else 0) % U16
    requires HoldsAt(t, u, items[1..], n + 1, i - 1)
    ensures HoldsAt(tx, u, items, n, i)
  {
    hide Holds;
    var one := if items[0].Handshake? then 1 else 0;
    assert items[..i][1..] == items[1..][..i - 1];
    NumbersGoOn(tx.messageSeq, one, Messages(items[1..][..i - 1]));
  }

  /** Items added to a flight stand in it in their order, behind those already there, each message under its own number. */
  lemma {:induction false} ItemsJoin(tx: Tx, items: seq<Item>)
    requires tx.messageSeq < U16 && forall i :: 0 <= i < |items| ==> Fits(items[i])
    requires !tx.complete && |tx.outgoing| + |items| <= 7
    ensures var t, n := AddItems(tx, items), |tx.outgoing|;
            && |t.outgoing| == n + |items| && t.outgoing[..n] == tx.outgoing
            && (forall i :: 0 <= i < |items| ==> HoldsAt(tx, t, items, n, i))
            && t == tx.(outgoing := t.outgoing, messageSeq := (tx.messageSeq + Messages(items)) % U16)
    decreases |items|
  {
    hide Holds;
    hide AddItem;
    if items != [] {
      hide HoldsAt;
      ItemJoins(tx, items[0]);
      var t, rest := AddItem(tx, items[0]).0, items[1..];
      var one := if items[0].Handshake? then 1 else 0;
      ItemsJoin(t, rest);
      NumbersGoOn(tx.messageSeq, one, Messages(rest));
      var u, n := AddItems(t, rest), |tx.outgoing|;
      assert u.outgoing[..n] == u.outgoing[..n + 1][..n] == t.outgoing[..n];
      assert u.outgoing[n] == u.outgoing[..n + 1][n] == t.outgoing[n];
      forall i | 0 <= i < |items|
        ensures HoldsAt(tx, u, items, n, i)
      {
        if i == 0 {
          HoldsFirst(tx, t, u, items, n);
        } else {
          HoldsNext(tx, t, u, items, n, i);
        }
      }
    }
  }

  lemma {:induction false} NoMoreThanSeven(tx: Tx, items: seq<Item>)
    requires tx.messageSeq < U16 && forall i :: 0 <= i < |items| ==> Fits(items[i])
    requires !tx.complete && |tx.outgoing| <= 7
    ensures |tx.outgoing| + |items| > 7 ==> AddItems(tx, items) == AddItems(tx, items[..7 - |tx.outgoing|])
    decreases |items|
  {
    hide Holds;
    hide AddItem;
    if items != [] {
      ItemJoins(tx, items[0]);
      var t, k := AddItem(tx, items[0]).0, 7 - |tx.outgoing|;
      NoMoreThanSeven(t, items[1..]);
      if k == 0 {
        assert items[1..][..0] == [];
      } else if |tx.outgoing| + |items| > 7 {
        assert items[..k][1..] == items[1..][..k - 1];
      }
    }
  }

  /** Whatever a flush achieved, what is added after it is a new flight: the first seven of the items in their order and
      nothing else, to be sent from the beginning, under the numbers that follow those before it. */
  lemma {:induction false} NewFlight(tx: Tx, mtu: nat, bio: nat -> bool, items: seq<Item>)
    requires CursorOk(tx.outgoing, Cursor0(tx)) && tx.messageSeq < U16 && forall i :: 0 <= i < |items| ==> Fits(items[i])
    ensures var u := FlushFlight(tx, mtu, bio).0;
            && u.messageSeq == tx.messageSeq && u.numbers.epoch == tx.numbers.epoch
            && (items != [] ==>
                var t, first := AddItems(u, items), if |items| > 7 then items[..7] else items;
                && !t.complete && !t.hasReply && t.written == 0 && t.offset == 0 && |t.outgoing| == |first|
                && (forall i :: 0 <= i < |first| ==> HoldsAt(tx, t, first, 0, i))
                && t.messageSeq == (tx.messageSeq + Messages(first)) % U16)
  {
    hide Holds;
    hide AddItem;
    SendKeepsFlight(tx.(complete := true), mtu, bio, 0);
    var u := FlushFlight(tx, mtu, bio).0;
    if items != [] {
      var c := Clear(u);
      ClearedFirst(u, items);
      NoMoreThanSeven(c, items);
      var first := if |items| > 7 then items[..7] else items;
      ItemsJoin(c, first);
      forall i | 0 <= i < |first|
        ensures HoldsAt(tx, AddItems(u, items), first, 0, i)
      {
        assert HoldsAt(c, AddItems(u, items), first, 0, i);
      }
    }
  }

  lemma {:induction false} ClearedFirst(u: Tx, items: seq<Item>)
    requires u.messageSeq < U16 && u.complete && items != [] && forall i :: 0 <= i < |items| ==> Fits(items[i])
    ensures AddItems(u, items) == AddItems(Clear(u), items)
  {
    hide FinishMessage;
    hide InitMessage;
    assert AddItem(u, items[0]).0 == AddItem(Clear(u), items[0]).0;
  }

  lemma {:induction false} SendKeepsFlight(tx: Tx, mtu: nat, bio: nat -> bool, k: nat)
    requires CursorOk(tx.outgoing, Cursor0(tx))
    ensures SameFlight(tx, SendFlight(tx, mtu, bio, k).0)
    decreases |tx.outgoing| - tx.written, MessageLeft(tx.outgoing, Cursor0(tx))
  {
    hide SealNextPacket;
    hide WholeOf;
    if tx.written < |tx.outgoing| {
      PacketAdvances(tx, mtu, false);
      var (t, rs) := SealNextPacket(tx, mtu, false);
      if rs.Some? && bio(k) {
        AdvanceAllOk(tx.outgoing, Cursor0(tx), rs.value);
        SendKeepsFlight(t, mtu, bio, k + 1);
      }
    }
  }

  /** Each packet takes one call of the transport and the flush at the end one more: sending has blocked exactly if the last
      of them was refused, and is done exactly if all went well to the end of the flight. */
  lemma {:induction false} TransportDecides(tx: Tx, mtu: nat, bio: nat -> bool, k: nat)
    requires CursorOk(tx.outgoing, Cursor0(tx))
    ensures var (t, ps, o) := SendFlight(tx, mtu, bio, k);
            && (forall n :: k <= n < k + |ps| ==> bio(n))
            && (o == Blocked ==> !bio(k + |ps|))
            && (o == Sent ==> bio(k + |ps|) && t.written == |tx.outgoing|)
    decreases |tx.outgoing| - tx.written, MessageLeft(tx.outgoing, Cursor0(tx))
  {
    hide SealNextPacket;
    hide WholeOf;
    if tx.written < |tx.outgoing| {
      PacketAdvances(tx, mtu, false);
      var (t, rs) := SealNextPacket(tx, mtu, false);
      if rs.Some? && bio(k) {
        AdvanceAllOk(tx.outgoing, Cursor0(tx), rs.value);
        TransportDecides(t, mtu, bio, k + 1);
      }
    }
  }

  /** What dtls_seal_record needs: room for the header, the explicit nonce, the plaintext and what the cipher adds, and a
      cipher that does not refuse. */
  predicate Sealable(c: Cipher, ty: Byte, number: nat, payload: Bytes, room: nat)
  {
    && c.suffix(|payload|).Some? && 13 + c.prefix + |payload| + c.suffix(|payload|).value <= room
    && c.seals(ty, number, payload)
  }

  /** For every state: a record is sealed in the chosen epoch under that epoch's next number, which is then used up and none
      other; a record that is refused uses up a number only if the counter wraps or its length does not fit two bytes. */
  lemma RecordSealed(tx: Tx, ty: Byte, payload: Bytes, previous: bool, maxOut: nat)
    requires previous ==> tx.numbers.epoch >= 1
    ensures var (t, r) := SealRecord(tx, ty, payload, previous, maxOut);
            var c := if previous then tx.lastCipher else tx.cipher;
            var number := if previous then tx.numbers.lastNext else tx.numbers.next;
            if !Sealable(c, ty, number, payload, maxOut) then t == tx && r == None
            else
              var size := 13 + c.prefix + |payload| + c.suffix(|payload|).value;
              && t == tx.(numbers := if previous then tx.numbers.(lastNext := (number + 1) % 0x1_0000_0000_0000)
                                     else tx.numbers.(next := (number + 1) % 0x1_0000_0000_0000))
              && r == if number + 1 == 0x1_0000_0000_0000 || size - 13 >= 0x1_0000 then None
                      else Some(Record(ty, if previous then tx.numbers.epoch - 1 else tx.numbers.epoch, number, payload, size))
  {
  }
}
