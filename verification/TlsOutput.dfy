/** The output of a TLS connection as a value: what the transport took, the write buffer, the pending flight, and
    when writing an application record keeps them in order (s3_pkt.cc, ssl_buffer.cc). */
module TlsOutput {
  import opened Octets
  import opened TlsBuffer

  /** The record layer: what sealing a body of some type makes, given how many records came before, how much longer
      than the body that can be, and how many bytes in front of a body EnsureCap aligns for. */
  datatype Sealer = Sealer(seal: (nat, Byte, Bytes) -> Option<Bytes>, maxOverhead: nat, alignPrefix: nat)
  {
    /** SSL_max_seal_overhead is an upper bound. */
    ghost predicate Bounded()
    {
      forall n, ty, body :: seal(n, ty, body).Some? ==> |seal(n, ty, body).value| <= |body| + maxOverhead
    }
  }

  /** How many of `len` offered bytes a transport that answers `r` takes. */
  function Taken(r: int, len: nat): (n: nat)
    ensures n <= len && (r > 0 && len > 0 ==> n > 0)
  {
    if r <= 0 then 0 else if r > len then len else r
  }

  lemma SealedBound(sealer: Sealer, n: nat, ty: Byte, body: Bytes)
    requires sealer.Bounded()
    ensures sealer.seal(n, ty, body).Some? ==> |sealer.seal(n, ty, body).value| <= |body| + sealer.maxOverhead
  {
  }

  /** The bytes the transport took and how often it was asked, the write buffer, the unsent part of the pending
      flight, and everything that was sealed, in sealing order. */
  datatype Output = Output(wire: Bytes, calls: nat, img: Image, flight: Bytes, sealed: Bytes)
  {
    /** Output conservation. */
    ghost predicate InOrder()
    {
      img.Ok() && wire + img.Contents() + flight == sealed
    }

    /** It also stays that way whatever part of the buffer the transport takes. */
    ghost predicate Kept()
    {
      InOrder() && img.Reachable()
    }
  }

  // ---------------------------------------------------------------- flights

  lemma GrowFlight(o: Output, x: Bytes)
    requires o.Kept()
    ensures o.(flight := o.flight + x, sealed := o.sealed + x).Kept()
  {
    assert o.wire + o.img.Contents() + (o.flight + x) == o.wire + o.img.Contents() + o.flight + x;
  }

  lemma TakeFlight(o: Output, n: nat)
    requires o.Kept() && o.img.size == 0 && n <= |o.flight|
    ensures o.(wire := o.wire + o.flight[..n], flight := o.flight[n..]).Kept()
  {
    assert o.img.Contents() == [];
    assert o.flight == o.flight[..n] + o.flight[n..];
    assert o.wire + [] + o.flight == o.wire + o.flight[..n] + [] + o.flight[n..];
  }

  // ---------------------------------------------------------------- flushing the write buffer

  /** The transport takes `n` bytes of the write buffer. */
  function Ship(o: Output, n: nat): (p: Output)
    requires o.img.Ok() && n <= o.img.size
    ensures p.img.Ok()
  {
    o.(calls := o.calls + 1, wire := o.wire + o.img.Contents()[..n], img := o.img.Consumed(n))
  }

  lemma ShipKeeps(o: Output, n: nat)
    requires o.Kept() && n <= o.img.size
    ensures Ship(o, n).Kept()
  {
    var c := o.img.Contents();
    assert c == c[..n] + c[n..];
    assert o.wire + c + o.flight == o.wire + c[..n] + c[n..] + o.flight;
  }

  lemma ShipShrinks(o: Output, n: nat)
    requires o.img.Ok() && 0 < n <= o.img.size
    ensures Ship(o, n).img.size < o.img.size
  {
  }

  lemma KeptInOrder(o: Output)
    requires o.Kept()
    ensures o.InOrder()
  {
  }

  lemma AppendNothing(img: Image)
    requires img.Ok()
    ensures img.Appended([]) == img
  {
    assert img.block[..img.offset + img.size] + [] + img.block[img.offset + img.size..] == img.block;
  }

  /** tls_write_buffer_flush */
  function Flush(o: Output, bio: nat -> int): (r: (Output, int))
    requires o.img.Ok()
    ensures r.0.img.Ok() && r.0.flight == o.flight && r.0.sealed == o.sealed
    decreases o.img.size
  {
    if o.img.size == 0 then (o.(img := NO_BLOCK), 1)
    else if bio(o.calls) <= 0 then (o.(calls := o.calls + 1), bio(o.calls))
    else Flush(Ship(o, Taken(bio(o.calls), o.img.size)), bio)
  }

  lemma {:induction false} FlushKeeps(o: Output, bio: nat -> int)
    requires o.Kept()
    ensures Flush(o, bio).0.Kept()
    ensures Flush(o, bio).1 > 0 ==> Flush(o, bio).1 == 1 && Flush(o, bio).0.img == NO_BLOCK
    decreases o.img.size
  {
    if o.img.size == 0 {
      assert o.img.Contents() == [];
    } else if bio(o.calls) > 0 {
      var n := Taken(bio(o.calls), o.img.size);
      ShipKeeps(o, n);
      FlushKeeps(Ship(o, n), bio);
    }
  }

  // ---------------------------------------------------------------- one record

  /** How much do_ssl3_write asks EnsureCap for, with `flight` bytes of the flight pending. */
  function Wanted(flight: nat, sealer: Sealer, len: nat): nat
  {
    flight + len + sealer.maxOverhead
  }

  /** The write buffer after EnsureCap. */
  function Ready(img: Image, flight: nat, sealer: Sealer, len: nat, m: Memory): (r: Image)
    requires img.Ok()
    ensures r.Ok() && r.Contents() == img.Contents()
    ensures Wanted(flight, sealer, len) <= 0xffff ==> r.cap >= Wanted(flight, sealer, len)
  {
    img.Ensured(flight + sealer.alignPrefix, Wanted(flight, sealer, len), m)
  }

  /** Either EnsureCap refuses, or what it was asked for ends within reach of the 16-bit offset. */
  predicate Fits(img: Image, flight: nat, sealer: Sealer, len: nat, m: Memory)
    requires img.Ok()
  {
    Wanted(flight, sealer, len) > 0xffff || Ready(img, flight, sealer, len, m).offset + Wanted(flight, sealer, len) <= U16
  }

  /** The rest of the flight goes into an empty write buffer. */
  function Loaded(o: Output, img: Image): (p: Output)
    requires img.Ok() && |o.flight| <= img.cap - img.size
    ensures p.img.Ok()
  {
    o.(img := img.Appended(o.flight), flight := [])
  }

  lemma LoadedReady(o: Output, img: Image)
    requires img.Ok() && |o.flight| <= img.cap - img.size
    ensures Loaded(o.(img := img), img) == Loaded(o, img)
  {
  }

  lemma LoadedInOrder(o: Output, img: Image)
    requires o.InOrder() && o.img.size == 0 && img.Ok() && img.Contents() == [] && |o.flight| <= img.cap - img.size
    ensures Loaded(o, img).InOrder()
  {
    hide Image.Appended;
    assert o.img.Contents() == [];
    assert o.wire + [] + o.flight == o.wire + ([] + o.flight) + [];
  }

  /** A record goes behind what is in the write buffer. */
  function WithRecord(o: Output, out: Bytes): (p: Output)
    requires o.img.Ok() && |out| <= o.img.cap - o.img.size
    ensures p.img.Ok()
  {
    o.(img := o.img.Appended(out), sealed := o.sealed + out)
  }

  lemma RecordInOrder(o: Output, out: Bytes)
    requires o.InOrder() && o.flight == [] && |out| <= o.img.cap - o.img.size
    ensures WithRecord(o, out).InOrder()
  {
    hide Image.Appended;
    var c := o.img.Contents();
    assert o.wire + (c + out) + [] == o.wire + c + [] + out;
  }

  /** do_ssl3_write up to the flush. */
  function Fill(o: Output, sealer: Sealer, records: nat, ty: Byte, body: Bytes, m: Memory): (r: (Output, bool))
    requires o.img.Ok() && o.img.size == 0
    ensures r.0.img.Ok() && |r.0.flight| <= |o.flight|
  {
    if Wanted(|o.flight|, sealer, |body|) > 0xffff then (o, false)
    else
      var p := Loaded(o, Ready(o.img, |o.flight|, sealer, |body|, m));
      var out := sealer.seal(records, ty, body);
      if out.None? || |out.value| > p.img.cap - p.img.size then (p, false) else (WithRecord(p, out.value), true)
  }

  lemma FillInOrder(o: Output, sealer: Sealer, records: nat, ty: Byte, body: Bytes, m: Memory)
    requires o.InOrder() && o.img.size == 0
    ensures Fill(o, sealer, records, ty, body, m).0.InOrder()
  {
    hide Ready;
    hide WithRecord;
    if Wanted(|o.flight|, sealer, |body|) <= 0xffff {
      var img := Ready(o.img, |o.flight|, sealer, |body|, m);
      assert o.img.Contents() == [];
      LoadedInOrder(o, img);
      var p := Loaded(o, img);
      var out := sealer.seal(records, ty, body);
      if out.Some? && |out.value| <= p.img.cap - p.img.size {
        RecordInOrder(p, out.value);
      }
    }
  }

  lemma FillKeeps(o: Output, sealer: Sealer, records: nat, ty: Byte, body: Bytes, m: Memory)
    requires o.InOrder() && o.img.size == 0 && sealer.Bounded() && Fits(o.img, |o.flight|, sealer, |body|, m)
    ensures Fill(o, sealer, records, ty, body, m).0.Kept()
  {
    FillInOrder(o, sealer, records, ty, body, m);
    SealedBound(sealer, records, ty, body);
  }

  /** do_ssl3_write of a new body, with nothing waiting in the write buffer. */
  function Write(o: Output, sealer: Sealer, records: nat, ty: Byte, body: Bytes, m: Memory, bio: nat -> int): Output
    requires o.img.Ok() && o.img.size == 0
  {
    var (p, ok) := Fill(o, sealer, records, ty, body, m);
    if ok then Flush(p, bio).0 else p
  }

  lemma WriteKeeps(o: Output, sealer: Sealer, records: nat, ty: Byte, body: Bytes, m: Memory, bio: nat -> int)
    requires o.InOrder() && o.img.size == 0 && sealer.Bounded() && Fits(o.img, |o.flight|, sealer, |body|, m)
    ensures Write(o, sealer, records, ty, body, m, bio).Kept()
  {
    hide Fill;
    FillKeeps(o, sealer, records, ty, body, m);
    if Fill(o, sealer, records, ty, body, m).1 {
      FlushKeeps(Fill(o, sealer, records, ty, body, m).0, bio);
    }
  }

  // ---------------------------------------------------------------- when a write loses bytes

  /** The buffer reaches past its 16-bit offset, the transport takes all but the last byte, and the byte it would
      be offered next is one from before the contents. */
  lemma WriteLoses(o: Output, sealer: Sealer, records: nat, ty: Byte, body: Bytes, m: Memory, bio: nat -> int)
    requires o.InOrder() && o.img.size == 0 && !Fits(o.img, |o.flight|, sealer, |body|, m)
    requires var r := sealer.seal(records, ty, body);
             var at := Ready(o.img, |o.flight|, sealer, |body|, m).offset + Wanted(|o.flight|, sealer, |body|) - 1 - U16;
             && r.Some? && r.value != [] && |r.value| == |body| + sealer.maxOverhead
             && r.value[|r.value| - 1] != Ready(o.img, |o.flight|, sealer, |body|, m).block[at]
    requires bio(o.calls) == Wanted(|o.flight|, sealer, |body|) - 1 && bio(o.calls + 1) <= 0
    ensures !Write(o, sealer, records, ty, body, m, bio).InOrder()
  {
    hide Fill;
    hide Ready;
    hide Flush;
    var p := Fill(o, sealer, records, ty, body, m).0;
    FillInOrder(o, sealer, records, ty, body, m);
    FillIs(o, sealer, records, ty, body, m);
    FlushLoses(p, bio);
  }

  /** The same seen from the filled buffer. */
  lemma {:induction false} FlushLoses(p: Output, bio: nat -> int)
    requires p.InOrder() && p.img.offset + p.img.size > U16
    requires p.img.block[p.img.offset + p.img.size - 1] != p.img.block[p.img.offset + p.img.size - 1 - U16]
    requires bio(p.calls) == p.img.size - 1 && bio(p.calls + 1) <= 0
    ensures !Flush(p, bio).0.InOrder()
  {
    hide Flush;
    hide Ship;
    var size, c := p.img.size, p.img.Contents();
    var q := Ship(p, size - 1);
    ShippedPast(p);
    assert Flush(p, bio) == Flush(q, bio) && Flush(q, bio).0 == q.(calls := q.calls + 1) by {
      FlushTwice(p, bio);
    }
    assert (p.wire + c + p.flight)[|p.wire| + size - 1] == c[size - 1] == p.img.block[p.img.offset + size - 1];
    assert (q.wire + q.img.Contents() + q.flight)[|p.wire| + size - 1] == q.img.Contents()[0];
  }

  lemma FlushTwice(p: Output, bio: nat -> int)
    requires p.img.Ok() && p.img.size > 1 && bio(p.calls) == p.img.size - 1 && bio(p.calls + 1) <= 0
    ensures var q := Ship(p, p.img.size - 1);
            Flush(p, bio) == Flush(q, bio) && Flush(q, bio).0 == q.(calls := q.calls + 1)
  {
  }

  /** With all but the last byte taken, the offset has wrapped. */
  lemma ShippedPast(p: Output)
    requires p.img.Ok() && p.img.offset + p.img.size > U16
    ensures p.img.size > 1
    ensures var q := Ship(p, p.img.size - 1);
            && q.wire == p.wire + p.img.Contents()[..p.img.size - 1] && q.sealed == p.sealed && q.calls == p.calls + 1
            && q.img.size == 1 && q.img.Contents()[0] == p.img.block[p.img.offset + p.img.size - 1 - U16]
  {
    assert Moved(p.img.offset, p.img.size - 1) == p.img.offset + p.img.size - 1 - U16;
  }

  lemma FillIs(o: Output, sealer: Sealer, records: nat, ty: Byte, body: Bytes, m: Memory)
    requires o.InOrder() && o.img.size == 0 && Wanted(|o.flight|, sealer, |body|) <= 0xffff
    requires sealer.seal(records, ty, body).Some? && sealer.seal(records, ty, body).value != []
    requires |sealer.seal(records, ty, body).value| == |body| + sealer.maxOverhead
    ensures var (p, ok) := Fill(o, sealer, records, ty, body, m);
            var img := Ready(o.img, |o.flight|, sealer, |body|, m);
            && ok && p.calls == o.calls && p.flight == [] && p.img.offset == img.offset
            && p.img.size == Wanted(|o.flight|, sealer, |body|)
            && p.img.Contents() == o.flight + sealer.seal(records, ty, body).value
            && (forall i :: 0 <= i < img.offset ==> p.img.block[i] == img.block[i])
            && p.img.block[img.offset + p.img.size - 1] == p.img.Contents()[p.img.size - 1]
  {
    var img := Ready(o.img, |o.flight|, sealer, |body|, m);
    assert img.Contents() == [];
    assert [] + o.flight == o.flight;
  }

  /** A sealer that adds as much as it may. */
  function Padding(overhead: nat, alignPrefix: nat, x: Byte): (s: Sealer)
    ensures s.Bounded()
  {
    Sealer((n: nat, ty: Byte, body: Bytes) => Some(body + seq(overhead, _ => x)), overhead, alignPrefix)
  }

  /** Writing a record of some length keeps output in order for all record layers with that overhead, all bodies
      and all transports exactly when what EnsureCap is asked for is refused or ends within reach of the offset. */
  lemma WriteConservedIff(o: Output, overhead: nat, alignPrefix: nat, len: nat, m: Memory)
    requires o.InOrder() && o.img.size == 0 && len > 0
    ensures Fits(o.img, |o.flight|, Padding(overhead, alignPrefix, 0), len, m)
       <==> forall sealer: Sealer, records, ty, body: Bytes, bio |
              sealer.Bounded() && sealer.maxOverhead == overhead && sealer.alignPrefix == alignPrefix && |body| == len ::
              Write(o, sealer, records, ty, body, m, bio).InOrder()
  {
    hide Write;
    var any := Padding(overhead, alignPrefix, 0);
    if Fits(o.img, |o.flight|, any, len, m) {
      forall sealer: Sealer, records, ty, body: Bytes, bio |
        sealer.Bounded() && sealer.maxOverhead == overhead && sealer.alignPrefix == alignPrefix && |body| == len
        ensures Write(o, sealer, records, ty, body, m, bio).InOrder()
      {
        assert Wanted(|o.flight|, sealer, len) == Wanted(|o.flight|, any, len) && Ready(o.img, |o.flight|, sealer, len, m) == Ready(o.img, |o.flight|, any, len, m);
        WriteKeeps(o, sealer, records, ty, body, m, bio);
      }
    } else {
      var size := Wanted(|o.flight|, any, len);
      var x: Byte := if Ready(o.img, |o.flight|, any, len, m).block[Ready(o.img, |o.flight|, any, len, m).offset + size - 1 - U16] == 0 then 1 else 0;
      var sealer, body := Padding(overhead, alignPrefix, x), seq(len, _ => x);
      var bio := (k: nat) => if k == o.calls then size - 1 else 0;
      assert Wanted(|o.flight|, sealer, len) == size && Ready(o.img, |o.flight|, sealer, len, m) == Ready(o.img, |o.flight|, any, len, m);
      WriteLoses(o, sealer, 0, 0, body, m, bio);
    }
  }

  /** It happens: 49129 bytes of a flight are still pending, and a full record of 16384 bytes is written behind
      them into a block at an aligned address. */
  lemma LosesBytes()
    ensures PENDING.InOrder() && PENDING.img.size == 0 && Padding(22, 5, 1).Bounded()
    ensures !Write(PENDING, Padding(22, 5, 1), 0, 23, seq(16384, _ => 1), Memory(0, (i: nat) => 0),
                   (k: nat) => if k == 0 then 65534 else 0).InOrder()
  {
    var sealer, body, m := Padding(22, 5, 1), seq(16384, _ => 1), Memory(0, (i: nat) => 0);
    assert [] + [] + PENDING.flight == PENDING.sealed;
    assert Ready(PENDING.img, |PENDING.flight|, sealer, 16384, m).offset == 2;
    WriteLoses(PENDING, sealer, 0, 23, body, m, (k: nat) => if k == 0 then 65534 else 0);
  }

  const PENDING: Output := Output([], 0, NO_BLOCK, seq(49129, _ => 0), seq(49129, _ => 0))
}
