/** The TLS output path: sealed records wait in the write buffer and the pending flight until the transport takes
    them, in the order they were sealed (s3_pkt.cc, s3_both.cc, ssl_buffer.cc). */
module TlsWrite {
  import opened Octets
  import opened RecordTypes
  import opened TlsBuffer
  import opened TlsOutput
  import opened TlsSending

  class Writer {
    const buffer: SslBuffer
    const sealer: Sealer
    const bio: nat -> int
    /** What the k-th allocation would give. */
    const heap: nat -> Memory
    const maxSendFragment: nat
    const partialWrite: bool
    const movingBuffer: bool
    /** pending_flight and pending_flight_offset */
    var flight: Option<Bytes>
    var flightOffset: nat
    /** The retry state of application writes. */
    var wnum: nat
    var wpendPending: bool
    var wpendTot: nat
    var wpendBuf: nat
    var wpendType: Byte
    var wpendRet: nat
    /** Records sealed, allocations, calls of the transport, and all bytes it took. */
    var records: nat
    var allocs: nat
    var calls: nat
    var wire: Bytes
    /** Everything sealed, in sealing order, and the application data in it. */
    ghost var sealed: Bytes
    ghost var sealedApp: Bytes

    ghost predicate Valid()
      reads this, buffer, buffer.buf
    {
      && buffer.Valid()
      && 0 < maxSendFragment <= MAX_PLAIN_LENGTH && sealer.Bounded()
      && flightOffset <= |Flight()|
      && (wpendPending ==> wpendRet == wpendTot > 0)
    }

    ghost function Flight(): Bytes
      reads this
    {
      if flight.Some? then flight.value else []
    }

    ghost function Out(): (o: Output)
      requires Valid()
      reads this, buffer, buffer.buf
      ensures o.img == buffer.View() && o.img.Ok() && o.img.size == buffer.size && o.img.cap == buffer.cap && |o.flight| == |Flight()| - flightOffset
    {
      Output(wire, calls, buffer.View(), Flight()[flightOffset..], sealed)
    }

    /** What does not change, and the state between calls, as values. */
    ghost function Config(): Setup
    {
      Setup(sealer, bio, heap, maxSendFragment, partialWrite, movingBuffer)
    }

    ghost function Model(): (w: Sending)
      requires Valid()
      reads this, buffer, buffer.buf
      ensures w.Ok() && w.wnum == wnum
    {
      Sending(Out(), records, allocs, wnum, if wpendPending then Some(Blocked(wpendTot, wpendBuf, wpendType)) else None)
    }

    /** Output conservation: what the transport took, then the write buffer, then the rest of the pending
        flight are all sealed bytes in order, and stay so whatever the transport takes. */
    ghost predicate Conserved()
      requires Valid()
      reads this, buffer, buffer.buf
    {
      Out().Kept()
    }

    constructor (sealer: Sealer, bio: nat -> int, heap: nat -> Memory, maxSendFragment: nat, partialWrite: bool,
                 movingBuffer: bool)
      requires 0 < maxSendFragment <= MAX_PLAIN_LENGTH && sealer.Bounded()
      ensures Valid() && Conserved() && fresh(buffer) && buffer.buf == null
      ensures sealedApp == [] && wnum == 0 && !wpendPending
    {
      var b := new SslBuffer();
      buffer := b;
      this.sealer, this.bio, this.heap, this.maxSendFragment := sealer, bio, heap, maxSendFragment;
      this.partialWrite, this.movingBuffer := partialWrite, movingBuffer;
      flight, flightOffset := None, 0;
      wnum, wpendPending, wpendTot, wpendBuf, wpendType, wpendRet := 0, false, 0, 0, 0, 0;
      records, allocs, calls, wire := 0, 0, 0, [];
      sealed, sealedApp := [], [];
    }

    /** tls_seal_record into `room` bytes */
    method Seal(ty: Byte, body: Bytes, room: nat) returns (out: Option<Bytes>)
      modifies this`records, this`sealed, this`sealedApp
      ensures var r := sealer.seal(old(records), ty, body);
              out == if r.Some? && |r.value| <= room then r else None
      ensures out.None? ==> unchanged(this)
      ensures out.Some? ==>
        && records == old(records) + 1 && sealed == old(sealed) + out.value
        && sealedApp == old(sealedApp) + if ty == RT_APPLICATION then body else []
    {
      out := sealer.seal(records, ty, body);
      if out.None? || |out.value| > room {
        return None;
      }
      records := records + 1;
      sealed := sealed + out.value;
      if ty == RT_APPLICATION {
        sealedApp := sealedApp + body;
      }
      assert sealedApp == old(sealedApp) + if ty == RT_APPLICATION then body else [];
    }

    // ---------------------------------------------------------------- the pending flight

    /** add_record_to_flight */
    method AddRecordToFlight(ty: Byte, body: Bytes) returns (ok: bool)
      requires Valid() && flightOffset == 0
      modifies this`flight, this`records, this`sealed, this`sealedApp
      ensures Valid() && (old(Conserved()) ==> Conserved())
      ensures ty != RT_APPLICATION ==> sealedApp == old(sealedApp)
      ensures ok <==> sealer.seal(old(records), ty, body).Some?
      ensures ok ==>
        && sealer.seal(old(records), ty, body).Some? && records == old(records) + 1
        && Flight() == old(Flight()) + sealer.seal(old(records), ty, body).value
      ensures !ok ==> Flight() == old(Flight()) && records == old(records)
    {
      hide SslBuffer.View;
      hide SslBuffer.Valid;
      hide Sealer.Bounded;
      hide Output.Kept;
      ghost var o := Out();
      if flight.None? {
        flight := Some([]);
      }
      SealedBound(sealer, records, ty, body);
      var out := Seal(ty, body, |body| + sealer.maxOverhead);
      if out.None? {
        return false;
      }
      flight := Some(flight.value + out.value);
      if o.Kept() {
        GrowFlight(o, out.value);
      }
      assert Out() == o.(flight := o.flight + out.value, sealed := o.sealed + out.value);
      return true;
    }

    /** ssl3_add_message: one record for each piece of at most max_send_fragment bytes. */
    method AddMessage(msg: Bytes) returns (ok: bool)
      requires Valid() && flightOffset == 0
      modifies this`flight, this`records, this`sealed, this`sealedApp
      ensures Valid() && (old(Conserved()) ==> Conserved()) && sealedApp == old(sealedApp)
      ensures ok <==> SealAll(sealer, old(records), RT_HANDSHAKE, Pieces(msg, maxSendFragment)).Some?
      ensures ok ==>
        && SealAll(sealer, old(records), RT_HANDSHAKE, Pieces(msg, maxSendFragment)).Some?
        && Flight() == old(Flight()) + SealAll(sealer, old(records), RT_HANDSHAKE, Pieces(msg, maxSendFragment)).value
    {
      hide Conserved;
      hide Out;
      hide Pieces;
      hide SealAll;
      hide Sealer.Bounded;
      hide SslBuffer.Valid;
      hide Prepended;
      var rest := msg;
      ghost var done: Bytes := [];
      ghost var total := SealAll(sealer, records, RT_HANDSHAKE, Pieces(msg, maxSendFragment));
      var more := true;
      assert old(Flight()) + [] == old(Flight());
      PrependedNothing(total);
      while more
        invariant Valid() && flightOffset == 0 && (old(Conserved()) ==> Conserved()) && sealedApp == old(sealedApp)
        invariant Flight() == old(Flight()) + done
        invariant total == if more then Prepended(done, SealAll(sealer, records, RT_HANDSHAKE, Pieces(rest, maxSendFragment))) else Some(done)
        decreases more, |rest|
      {
        var n := if |rest| > maxSendFragment then maxSendFragment else |rest|;
        var chunk := rest[..n];
        SealNext(sealer, records, RT_HANDSHAKE, rest, maxSendFragment, done);
        ok := AddRecordToFlight(RT_HANDSHAKE, chunk);
        if !ok {
          return false;
        }
        ghost var out := sealer.seal(records - 1, RT_HANDSHAKE, chunk).value;
        assert old(Flight()) + done + out == old(Flight()) + (done + out);
        done := done + out;
        rest := rest[n..];
        more := rest != [];
      }
      return true;
    }

    /** ssl3_add_change_cipher_spec */
    method AddChangeCipherSpec() returns (ok: bool)
      requires Valid() && flightOffset == 0
      modifies this`flight, this`records, this`sealed, this`sealedApp
      ensures Valid() && (old(Conserved()) ==> Conserved()) && sealedApp == old(sealedApp)
      ensures ok <==> sealer.seal(old(records), RT_CCS, CCS_BODY).Some?
      ensures ok ==>
        && sealer.seal(old(records), RT_CCS, CCS_BODY).Some?
        && Flight() == old(Flight()) + sealer.seal(old(records), RT_CCS, CCS_BODY).value
    {
      ok := AddRecordToFlight(RT_CCS, CCS_BODY);
    }

    // ---------------------------------------------------------------- writing out

    /** The transport takes `n` bytes of the write buffer. */
    method ShipBuffer(n: nat)
      requires Valid() && 0 < n <= buffer.size
      modifies this`wire, this`calls, buffer`offset, buffer`size, buffer`cap
      ensures Valid() && Out() == Ship(old(Out()), n)
    {
      ghost var o := Out();
      calls := calls + 1;
      assert buffer.buf[buffer.offset..buffer.offset + n] == o.img.Contents()[..n];
      wire := wire + buffer.buf[buffer.offset..buffer.offset + n];
      buffer.Consume(n);
    }

    /** tls_write_buffer_flush */
    method FlushBuffer() returns (ret: int)
      requires Valid()
      modifies this`wire, this`calls, buffer
      ensures Valid() && (Out(), ret) == Flush(old(Out()), bio)
      ensures calls >= old(calls) && (ret <= 0 ==> calls > old(calls) && bio(calls - 1) <= 0)
      ensures ret > 0 ==> ret == 1 && buffer.View() == NO_BLOCK && buffer.buf == null && buffer.size == 0
      ensures buffer.buf == null || buffer.buf == old(buffer.buf)
    {
      hide Ship;
      ghost var o := Out();
      FlushStops(o, bio);
      while buffer.size > 0
        invariant Valid() && buffer.buf == old(buffer.buf) && Flush(Out(), bio) == Flush(o, bio)
        decreases buffer.size
      {
        ghost var before := Out();
        var r := bio(calls);
        if r <= 0 {
          calls := calls + 1;
          assert Out() == before.(calls := before.calls + 1);
          return r;
        }
        ShipBuffer(Taken(r, buffer.size));
        assert buffer.size < before.img.size by {
          ShipShrinks(before, Taken(r, before.img.size));
        }
      }
      ghost var before := Out();
      buffer.Clear();
      assert Out() == before.(img := NO_BLOCK);
      return 1;
    }

    /** The transport takes `n` bytes of the pending flight. */
    method ShipFlight(n: nat)
      requires Valid() && flight.Some? && flightOffset + n <= |flight.value| && buffer.size == 0
      modifies this`wire, this`flightOffset
      ensures Valid() && (old(Conserved()) ==> Conserved()) && flightOffset == old(flightOffset) + n
    {
      ghost var o := Out();
      assert flight.value[flightOffset..][..n] == flight.value[flightOffset..flightOffset + n];
      wire := wire + flight.value[flightOffset..flightOffset + n];
      flightOffset := flightOffset + n;
      assert Out() == o.(wire := o.wire + o.flight[..n], flight := o.flight[n..]);
      if o.Kept() {
        TakeFlight(o, n);
      }
    }

    /** ssl3_flush_flight */
    method FlushFlight() returns (ret: int)
      requires Valid()
      modifies this`wire, this`calls, this`flight, this`flightOffset, buffer
      ensures Valid() && (old(Conserved()) ==> Conserved())
      ensures ret > 0 ==> ret == 1 && flight.None?
      ensures ret > 0 && old(flight.Some?) ==> buffer.size == 0 && (old(Conserved()) ==> wire == sealed)
      ensures ret <= 0 ==> flight == old(flight) && flight.Some?
      ensures ret <= 0 ==> |flight.value| > 0x7fff_ffff || (calls > old(calls) && bio(calls - 1) <= 0)
    {
      hide Output.Kept;
      hide Flush;
      hide SslBuffer.Valid;
      hide SslBuffer.View;
      if flight.None? {
        return 1;
      }
      if |flight.value| > 0x7fff_ffff {
        return -1;
      }
      if buffer.size > 0 {
        ghost var o := Out();
        ret := FlushBuffer();
        if o.Kept() {
          FlushKeeps(o, bio);
        }
        if ret <= 0 {
          return;
        }
      }
      while flightOffset < |flight.value|
        invariant Valid() && (old(Conserved()) ==> Conserved()) && buffer.size == 0 && flight == old(flight) && calls >= old(calls)
        decreases |flight.value| - flightOffset
      {
        var r := bio(calls);
        Called();
        if r <= 0 {
          return r;
        }
        ShipFlight(Taken(r, |flight.value| - flightOffset));
      }
      Called();
      if bio(calls - 1) <= 0 {
        return -1;
      }
      DropFlight();
      return 1;
    }

    /** One more call of the transport. */
    method Called()
      requires Valid()
      modifies this`calls
      ensures Valid() && calls == old(calls) + 1 && Conserved() == old(Conserved())
    {
      calls := calls + 1;
    }

    /** pending_flight.reset() once all of it is out */
    method DropFlight()
      requires Valid() && flight.Some? && flightOffset == |flight.value| && buffer.size == 0
      modifies this`flight, this`flightOffset
      ensures Valid() && flight.None? && flightOffset == 0
      ensures old(Conserved()) ==> Conserved() && wire == sealed
    {
      ghost var o := Out();
      assert o.flight == [] && o.img.Contents() == [];
      assert o.wire + [] + [] == o.wire;
      flight, flightOffset := None, 0;
      assert Out() == o;
    }

    // ---------------------------------------------------------------- application records

    /** ssl3_write_pending; `at` is the address of the caller's data. */
    method WritePending(ty: Byte, at: nat, len: nat) returns (ret: int)
      requires Valid() && wpendPending
      modifies this`wire, this`calls, this`wpendPending, buffer
      ensures Valid() && (Model(), ret) == TlsSending.WritePending(Config(), old(Model()), ty, at, len)
      ensures Out() == if old(RetryOk(ty, at, len)) then Flush(old(Out()), bio).0 else old(Out())
      ensures ret > 0 ==> !wpendPending && ret == wpendRet && RetryOk(ty, at, len) && buffer.View() == NO_BLOCK && buffer.buf == null
      ensures ret <= 0 ==> wpendPending
      ensures buffer.buf == null || buffer.buf == old(buffer.buf)
    {
      if wpendTot > len || (!movingBuffer && wpendBuf != at) || wpendType != ty {
        return -1;
      }
      ret := FlushBuffer();
      if ret <= 0 {
        return;
      }
      wpendPending := false;
      return wpendRet;
    }

    /** The arguments of a retry are those of the write that was blocked, or more of the same. */
    ghost predicate RetryOk(ty: Byte, at: nat, len: nat)
      reads this
    {
      wpendTot <= len && (movingBuffer || wpendBuf == at) && wpendType == ty
    }

    /** The k-th allocation keeps a body of `len` bytes, with what is pending, within reach of the buffer's offset. */
    ghost predicate FitsNow(len: nat)
      requires Valid()
      reads this, buffer, buffer.buf
    {
      Fits(Out().img, |Out().flight|, sealer, len, heap(allocs))
    }

    /** do_ssl3_write. A blocked record is flushed on if the arguments are right; otherwise a new one is sealed. */
    method DoWrite(ty: Byte, at: nat, body: Bytes) returns (ret: int)
      requires Valid()
      modifies this, buffer, buffer.buf
      ensures Valid() && (buffer.buf == null || buffer.buf == old(buffer.buf) || fresh(buffer.buf))
      ensures wnum == old(wnum)
      ensures (Model(), ret) == TlsSending.DoWrite(Config(), old(Model()), ty, at, body)
      ensures old(Conserved()) && (old(wpendPending) || old(FitsNow(|body|)) || old(buffer.size) > 0 || body == []) ==> Conserved()
      ensures ret > 0 ==> buffer.View() == NO_BLOCK && !wpendPending && ret == wpendTot
      ensures old(wpendPending) ==>
        && Out() == (if old(RetryOk(ty, at, |body|)) then Flush(old(Out()), bio).0 else old(Out()))
        && allocs == old(allocs) && sealedApp == old(sealedApp)
        && unchanged(this`wpendTot, this`wpendBuf, this`wpendType, this`wpendRet)
        && (if ret > 0 then RetryOk(ty, at, |body|) else wpendPending)
      ensures !old(wpendPending) ==> NewRecord(ty, at, body, ret)
    {
      hide Flush;
      hide Output.Kept;
      if wpendPending {
        ghost var o := Out();
        ret := WritePending(ty, at, |body|);
        if o.Kept() {
          FlushKeeps(o, bio);
        }
      } else {
        ret := WriteNew(ty, at, body);
      }
    }

    /** What do_ssl3_write does with a new body: nothing, if it is empty or too long, or the write buffer holds what
        was left by a failure; otherwise it seals it, and remembers it until all of it is out. */
    twostate predicate NewRecord(new ty: Byte, new at: nat, new body: Bytes, new ret: int)
      requires old(Valid()) && Valid()
      reads this, buffer, buffer.buf
    {
      && (if 0 < |body| <= MAX_PLAIN_LENGTH && old(buffer.size) == 0 then
            && Out() == Write(old(Out()), sealer, old(records), ty, body, heap(old(allocs)), bio)
            && allocs == old(allocs) + 1
          else ret <= 0 && !wpendPending && Out() == old(Out()))
      && (if ret > 0 || wpendPending then
            && sealedApp == old(sealedApp) + (if ty == RT_APPLICATION then body else [])
            && wpendTot == |body| > 0 && wpendBuf == at && wpendType == ty
          else sealedApp == old(sealedApp))
      && (ret > 0 ==> Out().flight == [] && Wanted(old(|Out().flight|), sealer, |body|) <= 0xffff)
    }

    /** The part of do_ssl3_write for a new body. */
    method WriteNew(ty: Byte, at: nat, body: Bytes) returns (ret: int)
      requires Valid() && !wpendPending
      modifies this, buffer, buffer.buf
      ensures Valid() && (buffer.buf == null || buffer.buf == old(buffer.buf) || fresh(buffer.buf))
      ensures wnum == old(wnum)
      ensures (Model(), ret) == TlsSending.DoWrite(Config(), old(Model()), ty, at, body)
      ensures old(Conserved()) && (old(FitsNow(|body|)) || old(buffer.size) > 0 || body == []) ==> Conserved()
      ensures ret > 0 ==> buffer.View() == NO_BLOCK && !wpendPending && ret == wpendTot
      ensures NewRecord(ty, at, body, ret)
    {
      hide Sealer.Bounded;
      hide Output.Kept;
      hide Flush;
      hide Fill;
      hide Fits;
      hide Out;
      hide Wanted;
      hide SslBuffer.View;
      hide SslBuffer.Valid;
      ghost var o := Out();
      if |body| > MAX_PLAIN_LENGTH || buffer.size > 0 {
        return -1;
      }
      if body == [] {
        return 0;
      }
      if o.Kept() && FitsNow(|body|) {
        KeptInOrder(o);
        WriteKeeps(o, sealer, records, ty, body, heap(allocs), bio);
      }
      var sealed := SealIntoBuffer(ty, body);
      if !sealed {
        return -1;
      }
      ret := SendNew(ty, at, |body|);
    }

    /** The new record is remembered, so that a bad retry is recognised, and flushed. */
    method SendNew(ty: Byte, at: nat, len: nat) returns (ret: int)
      requires Valid() && len > 0
      modifies this`wire, this`calls, this`wpendPending, this`wpendTot, this`wpendBuf, this`wpendType, this`wpendRet, buffer
      ensures Valid() && (buffer.buf == null || buffer.buf == old(buffer.buf)) && Out() == Flush(old(Out()), bio).0
      ensures (Model(), ret)
           == TlsSending.WritePending(Config(), old(Model()).(pending := Some(Blocked(len, at, ty))), ty, at, len)
      ensures wpendTot == len && wpendBuf == at && wpendType == ty
      ensures if ret > 0 then buffer.View() == NO_BLOCK && !wpendPending && ret == len else wpendPending
    {
      hide Flush;
      hide SslBuffer.Valid;
      hide SslBuffer.View;
      wpendTot, wpendBuf, wpendType, wpendRet := len, at, ty, len;
      wpendPending := true;
      assert Out() == old(Out());
      ret := WritePending(ty, at, len);
    }

    /** The part of do_ssl3_write that fills the write buffer. */
    method SealIntoBuffer(ty: Byte, body: Bytes) returns (ok: bool)
      requires Valid() && !wpendPending && buffer.size == 0
      modifies this`flight, this`flightOffset, this`records, this`allocs, this`sealed, this`sealedApp, buffer, buffer.buf
      ensures Valid() && (buffer.buf == old(buffer.buf) || fresh(buffer.buf)) && allocs == old(allocs) + 1
      ensures records == old(records) + if ok then 1 else 0
      ensures (Out(), ok) == Fill(old(Out()), sealer, old(records), ty, body, heap(old(allocs)))
      ensures sealedApp == old(sealedApp) + if ok && ty == RT_APPLICATION then body else []
      ensures ok ==> Out().flight == [] && Wanted(old(|Out().flight|), sealer, |body|) <= 0xffff
    {
      hide Sealer.Bounded;
      hide SslBuffer.Valid;
      hide SslBuffer.View;
      hide Out;
      hide Ready;
      hide Loaded;
      hide WithRecord;
      ghost var o := Out();
      ok := Reserve(|body|);
      if !ok {
        return;
      }
      assert |o.img.Contents()| == 0 && Out().img.size == |Out().img.Contents()|;
      LoadFlight();
      LoadedReady(o, Ready(o.img, |o.flight|, sealer, |body|, heap(old(allocs))));
      ok := AppendRecord(ty, body);
    }

    /** EnsureCap for a body of `len` bytes and the pending flight before it. */
    method Reserve(len: nat) returns (ok: bool)
      requires Valid() && buffer.size == 0
      modifies this`allocs, buffer
      ensures Valid() && (buffer.buf == old(buffer.buf) || fresh(buffer.buf)) && allocs == old(allocs) + 1
      ensures ok == (Wanted(|old(Out()).flight|, sealer, len) <= 0xffff)
      ensures Out() == if ok then old(Out()).(img := Ready(old(Out()).img, |old(Out()).flight|, sealer, len, heap(old(allocs))))
                       else old(Out())
    {
      hide Sealer.Bounded;
      hide Image.Ensured;
      hide SslBuffer.View;
      var flightLen := |if flight.Some? then flight.value else []| - flightOffset;
      allocs := allocs + 1;
      ok := buffer.EnsureCap(flightLen + sealer.alignPrefix, len + sealer.maxOverhead + flightLen, heap(allocs - 1));
    }

    /** The pending flight goes into the empty write buffer, ahead of the next record. */
    method LoadFlight()
      requires Valid() && buffer.size == 0 && |Out().flight| <= buffer.cap
      modifies this`flight, this`flightOffset, buffer`size, buffer.buf
      ensures Valid() && flight.None? && flightOffset == 0 && Out() == Loaded(old(Out()), old(Out()).img)
    {
      hide Image.Appended;
      if flight.Some? {
        buffer.Append(flight.value[flightOffset..]);
        flight, flightOffset := None, 0;
      } else {
        AppendNothing(buffer.View());
      }
    }

    /** tls_seal_record into the write buffer, behind what is already there. */
    method AppendRecord(ty: Byte, body: Bytes) returns (ok: bool)
      requires Valid() && !wpendPending && flight.None?
      modifies this`records, this`sealed, this`sealedApp, buffer`size, buffer.buf
      ensures Valid() && records == old(records) + if ok then 1 else 0
      ensures var r := sealer.seal(old(records), ty, body);
              ok == (r.Some? && |r.value| <= old(buffer.cap - buffer.size))
              && Out() == if ok then WithRecord(old(Out()), r.value) else old(Out())
      ensures sealedApp == old(sealedApp) + if ok && ty == RT_APPLICATION then body else []
    {
      hide Sealer.Bounded;
      hide Image.Appended;
      var out := Seal(ty, body, buffer.cap - buffer.size);
      if out.None? {
        return false;
      }
      buffer.Append(out.value);
      return true;
    }

    /** How far a write of `data` from address `at` has come when `tot` bytes of it were counted: what was
        sealed is what earlier writes reported, the counted bytes, and those of the record still blocked. */
    ghost predicate Reached(reported: Bytes, at: nat, data: Bytes, tot: nat)
      reads this
    {
      var end := tot + if wpendPending then wpendTot else 0;
      && end <= |data|
      && sealedApp == reported + data[..end]
      && (wpendPending ==> RetryOk(RT_APPLICATION, at + tot, Chunk(|data| - tot)))
    }

    /** The state between the calls that write `data`. */
    ghost predicate InProgress(reported: Bytes, at: nat, data: Bytes)
      reads this
    {
      Reached(reported, at, data, wnum)
    }

    function Chunk(n: nat): nat
    {
      if n > maxSendFragment then maxSendFragment else n
    }

    /** What this call may have to write to make up `n` bytes fits. */
    ghost predicate CallFits(n: nat)
      requires Valid()
      reads this, buffer, buffer.buf
    {
      AllFit(Config(), n, wpendPending, wpendTot, allocs, Out().img, |Out().flight|)
    }

    /** ssl3_write_app_data. Over any number of blocked calls with the same buffer, not shrunk, every byte
        is sealed once and in order: a call that succeeds has sealed exactly what it reports. */
    method WriteAppData(at: nat, data: Bytes, ghost reported: Bytes) returns (ret: int)
      requires Valid()
      modifies this, buffer, buffer.buf
      ensures Valid() && (Model(), ret) == TlsSending.WriteAppData(Config(), old(Model()), at, data)
      ensures old(Conserved()) && (old(wnum) > |data| || old(CallFits(|data| - wnum))) ==> Conserved()
      ensures old(InProgress(reported, at, data)) ==>
        if ret > 0 then
          && ret <= |data| && wnum == 0 && !wpendPending
          && sealedApp == reported + data[..ret] && (partialWrite || ret == |data|)
        else InProgress(reported, at, data)
    {
      hide SslBuffer.Valid;
      hide Conserved;
      hide Out;
      hide Model;
      hide AllFit;
      hide WriteRest;
      hide Sealer.Bounded;
      var tot := wnum;
      SetWnum(0);
      if |data| < tot {
        return -1;
      }
      ret := WriteLoop(at, data, tot, reported);
    }

    /** The loop of ssl3_write_app_data. */
    method WriteLoop(at: nat, data: Bytes, start: nat, ghost reported: Bytes) returns (ret: int)
      requires Valid() && wnum == 0 && start <= |data|
      modifies this, buffer, buffer.buf
      ensures Valid() && (Model(), ret) == WriteRest(Config(), old(Model()), at, data, start)
      ensures old(Conserved()) && old(CallFits(|data| - start)) ==> Conserved()
      ensures old(Reached(reported, at, data, start)) ==>
        if ret > 0 then
          && ret <= |data| && wnum == 0 && !wpendPending
          && sealedApp == reported + data[..ret] && (partialWrite || ret == |data|)
        else InProgress(reported, at, data)
    {
      hide SslBuffer.Valid;
      hide Conserved;
      hide Out;
      hide Model;
      hide AllFit;
      hide TlsSending.DoWrite;
      hide WriteRest;
      hide Sealer.Bounded;
      var tot: nat := start;
      ghost var before, fits := old(Reached(reported, at, data, start)), old(Conserved()) && CallFits(|data| - start);
      while true
        invariant Valid() && wnum == 0 && tot <= |data|
        invariant WriteRest(Config(), Model(), at, data, tot) == WriteRest(Config(), old(Model()), at, data, start)
        invariant buffer.buf == null || buffer.buf == old(buffer.buf) || fresh(buffer.buf)
        invariant before ==> Reached(reported, at, data, tot)
        invariant fits ==> Conserved() && CallFits(|data| - tot)
        decreases |data| - tot
      {
        RestStep(Config(), Model(), at, data, tot);
        ret := WriteChunk(at, data, tot, Chunk(|data| - tot), reported);
        if ret <= 0 {
          SetWnum(tot);
          return;
        }
        if ret == |data| - tot || partialWrite {
          return tot + ret;
        }
        tot := tot + ret;
      }
    }

    /** One turn of the loop of ssl3_write_app_data. */
    method WriteChunk(at: nat, data: Bytes, tot: nat, nw: nat, ghost reported: Bytes) returns (ret: int)
      requires Valid() && tot <= |data| && nw == Chunk(|data| - tot)
      modifies this, buffer, buffer.buf
      ensures Valid() && (buffer.buf == null || buffer.buf == old(buffer.buf) || fresh(buffer.buf))
      ensures wnum == old(wnum)
      ensures (Model(), ret) == TlsSending.DoWrite(Config(), old(Model()), RT_APPLICATION, at + tot, data[tot..tot + nw])
      ensures ret > 0 ==> ret <= nw && !wpendPending
      ensures old(Conserved()) && old(CallFits(|data| - tot)) ==> Conserved() && (ret > 0 && !partialWrite ==> CallFits(|data| - tot - ret))
      ensures old(Reached(reported, at, data, tot)) ==> Reached(reported, at, data, if ret > 0 then tot + ret else tot)
    {
      hide SslBuffer.Valid;
      hide Sealer.Bounded;
      hide Flush;
      hide Write;
      hide Fits;
      hide Out;
      hide Model;
      hide TlsSending.DoWrite;
      hide Output.Kept;
      ret := DoWrite(RT_APPLICATION, at + tot, data[tot..tot + nw]);
      if old(Reached(reported, at, data, tot)) && !old(wpendPending) {
        assert reported + data[..tot] + data[tot..tot + nw] == reported + data[..tot + nw];
      }
    }

    method SetWnum(n: nat)
      requires Valid()
      modifies this`wnum
      ensures Valid() && wnum == n && (old(Conserved()) ==> Conserved())
      ensures Model() == old(Model()).(wnum := n)
    {
      wnum := n;
    }
  }

  /** With nothing blocked, any write may begin. */
  lemma FreshWrite(w: Writer, reported: Bytes, at: nat, data: Bytes)
    requires !w.wpendPending && w.wnum == 0 && w.sealedApp == reported
    ensures w.InProgress(reported, at, data)
  {
    assert reported + data[..0] == reported;
  }

  /** A blocked write may be taken up with the same buffer grown at its end. */
  lemma GrownRetry(w: Writer, reported: Bytes, at: nat, data: Bytes, more: Bytes)
    requires w.InProgress(reported, at, data)
    ensures w.InProgress(reported, at, data + more)
  {
    var end := w.wnum + if w.wpendPending then w.wpendTot else 0;
    assert (data + more)[..end] == data[..end];
  }
}
