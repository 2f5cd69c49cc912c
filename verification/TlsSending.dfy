/** Application writes of TLS as a whole: what each call of ssl3_write_app_data makes of the output, of the retry state and
    of its result, and when it succeeds (s3_pkt.cc). */
module TlsSending {
  import opened Octets
  import opened RecordTypes
  import opened TlsBuffer
  import opened TlsOutput

  // ---------------------------------------------------------------- a message in pieces

  /** A message cut into pieces of at most `max` bytes; an empty message is one empty piece. */
  function Pieces(msg: Bytes, max: nat): (ps: seq<Bytes>)
    requires max > 0
    ensures ps != []
    decreases |msg|
  {
    if |msg| <= max then [msg] else [msg[..max]] + Pieces(msg[max..], max)
  }

  function Concat(ps: seq<Bytes>): Bytes
  {
    if ps == [] then [] else ps[0] + Concat(ps[1..])
  }

  /** The pieces are the message again; all but the last are as long as may be. */
  lemma {:induction false} PiecesJoin(msg: Bytes, max: nat)
    requires max > 0
    ensures Concat(Pieces(msg, max)) == msg
    ensures var ps := Pieces(msg, max);
            && (forall i :: 0 <= i < |ps| - 1 ==> |ps[i]| == max)
            && |ps[|ps| - 1]| <= max && (msg != [] ==> ps[|ps| - 1] != [])
    decreases |msg|
  {
    if |msg| <= max {
      assert Concat([msg]) == msg + Concat([msg][1..]);
    } else {
      PiecesJoin(msg[max..], max);
      assert msg == msg[..max] + msg[max..];
      var ps, qs := Pieces(msg, max), Pieces(msg[max..], max);
      assert ps == [msg[..max]] + qs && ps[1..] == qs;
      hide Pieces;
      forall i | 0 <= i < |ps| - 1
        ensures |ps[i]| == max
      {
        if i > 0 {
          assert ps[i] == qs[i - 1];
        }
      }
    }
  }

  /** The records of several bodies one after the other. */
  function SealAll(sealer: Sealer, records: nat, ty: Byte, bodies: seq<Bytes>): Option<Bytes>
    decreases |bodies|
  {
    if bodies == [] then Some([])
    else
      var out := sealer.seal(records, ty, bodies[0]);
      if out.None? then None else Prepended(out.value, SealAll(sealer, records + 1, ty, bodies[1..]))
  }

  function Prepended(a: Bytes, b: Option<Bytes>): Option<Bytes>
  {
    if b.None? then None else Some(a + b.value)
  }

  lemma PrependedNothing(b: Option<Bytes>)
    ensures Prepended([], b) == b
  {
    if b.Some? {
      assert [] + b.value == b.value;
    }
  }

  lemma SealNext(sealer: Sealer, records: nat, ty: Byte, rest: Bytes, max: nat, done: Bytes)
    requires max > 0
    ensures var n := if |rest| > max then max else |rest|;
            var out := sealer.seal(records, ty, rest[..n]);
            var all := Prepended(done, SealAll(sealer, records, ty, Pieces(rest, max)));
            out.Some? ==>
              if rest[n..] == [] then all == Some(done + out.value)
              else all == Prepended(done + out.value, SealAll(sealer, records + 1, ty, Pieces(rest[n..], max)))
    ensures sealer.seal(records, ty, rest[..if |rest| > max then max else |rest|]).None? ==>
      SealAll(sealer, records, ty, Pieces(rest, max)).None? && Prepended(done, SealAll(sealer, records, ty, Pieces(rest, max))).None?
  {
    var n := if |rest| > max then max else |rest|;
    var out := sealer.seal(records, ty, rest[..n]);
    assert rest[..n] == Pieces(rest, max)[0];
    if out.Some? {
      if rest[n..] == [] {
        assert Pieces(rest, max)[1..] == [];
        assert done + (out.value + []) == done + out.value;
      } else {
        assert Pieces(rest, max)[1..] == Pieces(rest[n..], max);
        var r := SealAll(sealer, records + 1, ty, Pieces(rest[n..], max));
        if r.Some? {
          assert done + (out.value + r.value) == done + out.value + r.value;
        }
      }
    }
  }

  // ---------------------------------------------------------------- the state between calls

  /** What does not change: the record layer, the transport, the allocator, and the options of the connection. */
  datatype Setup = Setup(sealer: Sealer, bio: nat -> int, heap: nat -> Memory, max: nat, partialWrite: bool, movingBuffer: bool)
  {
    ghost predicate Ok() { 0 < max <= MAX_PLAIN_LENGTH && sealer.Bounded() }

    function Chunk(n: nat): nat { if n > max then max else n }
  }

  /** The arguments of the write whose record is not out yet. */
  datatype Blocked = Blocked(tot: nat, at: nat, ty: Byte)

  datatype Sending = Sending(out: Output, records: nat, allocs: nat, wnum: nat, pending: Option<Blocked>)
  {
    predicate Ok() { out.img.Ok() && (pending.Some? ==> pending.value.tot > 0) }
  }

  /** A retry has the arguments of the write that was blocked, or more of the same. */
  predicate Same(u: Setup, b: Blocked, ty: Byte, at: nat, len: nat)
  {
    b.tot <= len && (u.movingBuffer || b.at == at) && b.ty == ty
  }

  /** ssl3_write_pending */
  function WritePending(u: Setup, w: Sending, ty: Byte, at: nat, len: nat): (r: (Sending, int))
    requires w.Ok() && w.pending.Some?
    ensures r.0.Ok() && (r.1 > 0 ==> r.1 <= len)
  {
    if !Same(u, w.pending.value, ty, at, len) then (w, -1)
    else
      var (o, ret) := Flush(w.out, u.bio);
      if ret <= 0 then (w.(out := o), ret) else (w.(out := o, pending := None), w.pending.value.tot)
  }

  /** do_ssl3_write */
  function DoWrite(u: Setup, w: Sending, ty: Byte, at: nat, body: Bytes): (r: (Sending, int))
    requires w.Ok()
    ensures r.0.Ok() && (r.1 > 0 ==> r.1 <= |body|)
  {
    if w.pending.Some? then WritePending(u, w, ty, at, |body|)
    else if |body| > MAX_PLAIN_LENGTH || w.out.img.size > 0 then (w, -1)
    else if body == [] then (w, 0)
    else
      var (p, ok) := Fill(w.out, u.sealer, w.records, ty, body, u.heap(w.allocs));
      if !ok then (w.(out := p, allocs := w.allocs + 1), -1)
      else
        WritePending(u, Sending(p, w.records + 1, w.allocs + 1, w.wnum, Some(Blocked(|body|, at, ty))), ty, at, |body|)
  }

  /** The loop of ssl3_write_app_data, with `tot` bytes counted. */
  function WriteRest(u: Setup, w: Sending, at: nat, data: Bytes, tot: nat): (r: (Sending, int))
    requires w.Ok() && tot <= |data|
    decreases |data| - tot
  {
    var n := |data| - tot;
    var (v, ret) := DoWrite(u, w, RT_APPLICATION, at + tot, data[tot..tot + u.Chunk(n)]);
    if ret <= 0 then (v.(wnum := tot), ret)
    else if ret == n || u.partialWrite then (v, tot + ret)
    else WriteRest(u, v, at, data, tot + ret)
  }

  /** ssl3_write_app_data */
  function WriteAppData(u: Setup, w: Sending, at: nat, data: Bytes): (Sending, int)
    requires w.Ok()
  {
    if |data| < w.wnum then (w.(wnum := 0), -1) else WriteRest(u, w.(wnum := 0), at, data, w.wnum)
  }

  /** One turn of the loop. */
  lemma RestStep(u: Setup, w: Sending, at: nat, data: Bytes, tot: nat)
    requires w.Ok() && tot <= |data|
    ensures var n := |data| - tot;
            var (v, ret) := DoWrite(u, w, RT_APPLICATION, at + tot, data[tot..tot + u.Chunk(n)]);
            && (ret <= 0 ==> WriteRest(u, w, at, data, tot) == (v.(wnum := tot), ret))
            && (ret > 0 && (ret == n || u.partialWrite) ==> WriteRest(u, w, at, data, tot) == (v, tot + ret))
            && (ret > 0 && ret != n && !u.partialWrite ==> WriteRest(u, w, at, data, tot) == WriteRest(u, v, at, data, tot + ret))
  {
    hide DoWrite;
  }

  // ---------------------------------------------------------------- when output stays in order

  /** Every record that writing `n` more bytes may need keeps within reach: the first with the write buffer and
      `f` pending bytes as they are, the others into new blocks, from allocation `k` on. Where EnsureCap refuses,
      the writing ends. */
  ghost predicate ChunksFit(u: Setup, n: nat, k: nat, img: Image, f: nat)
    requires img.Ok() && 0 < u.max
    decreases n
  {
    n == 0 || img.size > 0
    || (&& Fits(img, f, u.sealer, u.Chunk(n), u.heap(k))
        && (Wanted(f, u.sealer, u.Chunk(n)) > 0xffff || u.partialWrite || ChunksFit(u, n - u.Chunk(n), k + 1, NO_BLOCK, 0)))
  }

  /** The same after the blocked record, of `tot` bytes, if there is one. */
  ghost predicate AllFit(u: Setup, n: nat, pending: bool, tot: nat, k: nat, img: Image, f: nat)
    requires img.Ok() && 0 < u.max
  {
    if pending then u.partialWrite || tot > n || ChunksFit(u, n - tot, k, NO_BLOCK, f) else ChunksFit(u, n, k, img, f)
  }

  // ---------------------------------------------------------------- when a write succeeds

  /** The transport takes at least one byte whenever it is asked. */
  ghost predicate Open(u: Setup)
  {
    forall k: nat :: u.bio(k) > 0
  }

  /** The record layer refuses nothing. */
  ghost predicate Willing(u: Setup)
  {
    forall n, ty, body :: u.sealer.seal(n, ty, body).Some?
  }

  /** Such a transport takes all of the write buffer, in order. */
  lemma {:induction false} FlushGoes(o: Output, bio: nat -> int)
    requires o.Kept() && forall k: nat :: bio(k) > 0
    ensures var (p, r) := Flush(o, bio);
            r == 1 && p.img == NO_BLOCK && p.wire == o.wire + o.img.Contents()
    decreases o.img.size
  {
    if o.img.size == 0 {
      assert o.img.Contents() == [] && o.wire + [] == o.wire;
    } else {
      var n := Taken(bio(o.calls), o.img.size);
      var c := o.img.Contents();
      assert Flush(o, bio) == Flush(Ship(o, n), bio);
      hide Flush;
      ShipKeeps(o, n);
      FlushGoes(Ship(o, n), bio);
      assert o.wire + c[..n] + c[n..] == o.wire + c by { assert c == c[..n] + c[n..]; }
    }
  }

  /** do_ssl3_write reports no success exactly if the arguments of a retry are wrong, a body is too long or empty, the write
      buffer still holds what an earlier failure left, EnsureCap refuses, the record layer refuses or its record does not fit,
      or the transport has just refused a call. */
  lemma WhyNotWritten(u: Setup, w: Sending, ty: Byte, at: nat, body: Bytes)
    requires w.Ok() && u.Ok()
    ensures var (v, ret) := DoWrite(u, w, ty, at, body);
            var sealed := u.sealer.seal(w.records, ty, body);
            var stopped := w.out.calls < v.out.calls && u.bio(v.out.calls - 1) <= 0;
            ret <= 0 <==>
              if w.pending.Some? then
                var b := w.pending.value;
                b.tot > |body| || (!u.movingBuffer && b.at != at) || b.ty != ty || stopped
              else || |body| > 16384 || w.out.img.size > 0 || body == [] || sealed.None?
                   || |w.out.flight| + |body| + u.sealer.maxOverhead > 0xffff || stopped
  {
    hide Flush;
    hide Sealer.Bounded;
    if w.pending.Some? {
      FlushStops(w.out, u.bio);
    } else if 0 < |body| <= 16384 && w.out.img.size == 0 {
      SealedBound(u.sealer, w.records, ty, body);
      var (p, ok) := Fill(w.out, u.sealer, w.records, ty, body, u.heap(w.allocs));
      FlushStops(p, u.bio);
    }
  }

  /** A retry with other data than the blocked write's, or with less of it, fails and changes nothing, so that the right one
      may still follow; only one with less than was counted already starts the count over. */
  lemma WrongRetry(u: Setup, w: Sending, at: nat, data: Bytes)
    requires w.Ok() && w.pending.Some?
    ensures |data| < w.wnum ==> WriteAppData(u, w, at, data) == (w.(wnum := 0), -1)
    ensures w.wnum <= |data| ==>
      var b, n := w.pending.value, |data| - w.wnum;
      b.tot > n || b.tot > u.max || (!u.movingBuffer && b.at != at + w.wnum) || b.ty != 23 ==>
        WriteAppData(u, w, at, data) == (w, -1)
  {
    if w.wnum <= |data| {
      RestStep(u, w.(wnum := 0), at, data, w.wnum);
    }
  }

  /** A flush fails exactly if its last call of the transport does, and hands on what that said. */
  lemma {:induction false} FlushStops(o: Output, bio: nat -> int)
    requires o.img.Ok()
    ensures var (p, r) := Flush(o, bio);
            && p.calls >= o.calls && (r <= 0 <==> p.calls > o.calls && bio(p.calls - 1) <= 0)
            && r == if p.calls > o.calls && bio(p.calls - 1) <= 0 then bio(p.calls - 1) else 1
    decreases o.img.size
  {
    if o.img.size > 0 && bio(o.calls) > 0 {
      var q := Ship(o, Taken(bio(o.calls), o.img.size));
      FlushStops(q, bio);
      if Flush(q, bio).0.calls == q.calls {
        assert bio(q.calls - 1) > 0;
      }
    }
  }

  /** One record goes out whole, with the flight that was pending before it. */
  lemma RecordGoes(u: Setup, w: Sending, ty: Byte, at: nat, body: Bytes)
    requires u.Ok() && w.Ok() && w.pending.None? && w.out.InOrder() && w.out.img.size == 0 && 0 < |body| <= 16384
    requires Open(u) && Willing(u) && Fits(w.out.img, |w.out.flight|, u.sealer, |body|, u.heap(w.allocs))
    requires Wanted(|w.out.flight|, u.sealer, |body|) <= 0xffff
    ensures var (v, ret) := DoWrite(u, w, ty, at, body);
            && ret == |body| && v.pending.None? && v.wnum == w.wnum
            && v.records == w.records + 1 && v.allocs == w.allocs + 1
            && v.out.img == NO_BLOCK && v.out.flight == [] && v.out.wire == v.out.sealed
            && v.out.sealed == w.out.sealed + u.sealer.seal(w.records, ty, body).value
  {
    hide Flush;
    hide Ready;
    SealedBound(u.sealer, w.records, ty, body);
    FillKeeps(w.out, u.sealer, w.records, ty, body, u.heap(w.allocs));
    var (p, ok) := Fill(w.out, u.sealer, w.records, ty, body, u.heap(w.allocs));
    FlushGoes(p, u.bio);
    assert p.flight == [] && p.wire + p.img.Contents() + [] == p.wire + p.img.Contents();
  }

  /** Nothing is in the way of writing `n` more bytes: no record is blocked, the write buffer is empty, the records it takes are
      neither refused by EnsureCap nor out of reach of the buffer's offset, and neither record layer nor transport refuses. */
  ghost predicate Clear(u: Setup, w: Sending, n: nat)
  {
    && u.Ok() && w.Ok() && w.pending.None? && w.out.InOrder() && w.out.img.size == 0
    && Open(u) && Willing(u)
    && ChunksFit(u, n, w.allocs, w.out.img, |w.out.flight|)
    && Wanted(|w.out.flight|, u.sealer, u.Chunk(n)) <= 0xffff
  }

  /** What that says of the first record and of those after it. */
  lemma ClearFirst(u: Setup, w: Sending, n: nat)
    requires Clear(u, w, n) && n > 0
    ensures 0 < u.Chunk(n) <= 16384 && Fits(w.out.img, |w.out.flight|, u.sealer, u.Chunk(n), u.heap(w.allocs))
    ensures Wanted(|w.out.flight|, u.sealer, u.Chunk(n)) <= 0xffff
    ensures u.Chunk(n) < n && !u.partialWrite ==>
      && ChunksFit(u, n - u.Chunk(n), w.allocs + 1, NO_BLOCK, 0)
      && Wanted(0, u.sealer, u.Chunk(n - u.Chunk(n))) <= 0xffff
  {
    hide Fits;
    hide Sealer.Bounded;
  }

  lemma {:induction false} ClearNext(u: Setup, v: Sending, n: nat)
    requires u.Ok() && v.Ok() && v.pending.None? && v.out.img == NO_BLOCK && v.out.flight == [] && v.out.wire == v.out.sealed
    requires Open(u) && Willing(u) && ChunksFit(u, n, v.allocs, NO_BLOCK, 0) && Wanted(0, u.sealer, u.Chunk(n)) <= 0xffff
    ensures Clear(u, v, n)
  {
    hide ChunksFit;
    hide Sealer.Bounded;
    assert v.out.wire + [] + [] == v.out.sealed;
  }

  lemma ClearMeans(u: Setup, w: Sending, n: nat)
    requires Clear(u, w, n)
    ensures u.Ok() && w.Ok() && w.pending.None? && w.out.InOrder() && w.out.img.size == 0 && Open(u) && Willing(u)
  {
    hide ChunksFit;
  }

  /** After one record the way is as clear as before. */
  lemma ChunkGoes(u: Setup, w: Sending, at: nat, body: Bytes, n: nat)
    requires w.Ok() && Clear(u, w, n) && |body| == u.Chunk(n) && n > 0
    ensures 0 < u.max && |body| > 0 && u.sealer.seal(w.records, RT_APPLICATION, body).Some?
    ensures var (v, ret) := DoWrite(u, w, RT_APPLICATION, at, body);
            && ret == |body| && v.wnum == w.wnum && v.pending.None? && v.out.img == NO_BLOCK && v.out.flight == []
            && v.out.wire == v.out.sealed && v.records == w.records + 1
            && v.out.sealed == w.out.sealed + u.sealer.seal(w.records, RT_APPLICATION, body).value
            && (|body| < n && !u.partialWrite ==> Clear(u, v, n - |body|))
  {
    hide DoWrite;
    hide Fits;
    hide Clear;
    hide ChunksFit;
    hide Wanted;
    hide Sealer.Bounded;
    hide Output.InOrder;
    ClearMeans(u, w, n);
    ClearFirst(u, w, n);
    RecordGoes(u, w, RT_APPLICATION, at, body);
    if |body| < n && !u.partialWrite {
      ClearNext(u, DoWrite(u, w, RT_APPLICATION, at, body).0, n - |body|);
    }
  }

  /** With nothing in the way, the rest of the data is sealed in records of full length but the last, and all of it is out
      when the call returns; with partial writes, one record of it. */
  lemma {:induction false} RestGoes(u: Setup, w: Sending, at: nat, data: Bytes, tot: nat)
    requires 0 < u.max && w.Ok() && tot < |data| && Clear(u, w, |data| - tot)
    ensures u.sealer.seal(w.records, RT_APPLICATION, data[tot..tot + u.Chunk(|data| - tot)]).Some?
    ensures var (v, ret) := WriteRest(u, w, at, data, tot);
            && v.wnum == w.wnum && v.pending.None? && v.out.img.size == 0 && v.out.flight == [] && v.out.wire == v.out.sealed
            && if u.partialWrite then
                 && ret == tot + u.Chunk(|data| - tot)
                 && v.out.sealed == w.out.sealed + u.sealer.seal(w.records, RT_APPLICATION, data[tot..tot + u.Chunk(|data| - tot)]).value
               else
                 && ret == |data|
                 && Prepended(w.out.sealed, SealAll(u.sealer, w.records, RT_APPLICATION, Pieces(data[tot..], u.max))) == Some(v.out.sealed)
    decreases |data| - tot
  {
    hide DoWrite;
    hide Clear;
    hide SealAll;
    hide Pieces;
    var n := u.Chunk(|data| - tot);
    ChunkGoes(u, w, at + tot, data[tot..tot + n], |data| - tot);
    var (v, ret) := DoWrite(u, w, RT_APPLICATION, at + tot, data[tot..tot + n]);
    assert data[tot..][..n] == data[tot..tot + n] && data[tot..][n..] == data[tot + n..];
    SealNext(u.sealer, w.records, RT_APPLICATION, data[tot..], u.max, w.out.sealed);
    if n < |data| - tot && !u.partialWrite {
      RestGoes(u, v, at, data, tot + n);
    } else {
      assert WriteRest(u, w, at, data, tot) == (v, tot + n);
    }
  }

  /** A write that nothing stands in the way of succeeds: it reports all of the data, has sealed what was not sealed yet in
      pieces of full length but the last, and all that was ever sealed is with the transport. */
  lemma WriteSucceeds(u: Setup, w: Sending, at: nat, data: Bytes)
    requires 0 < u.max && w.Ok() && w.wnum < |data| && Clear(u, w, |data| - w.wnum)
    ensures u.sealer.seal(w.records, RT_APPLICATION, data[w.wnum..w.wnum + u.Chunk(|data| - w.wnum)]).Some?
    ensures var (v, ret) := WriteAppData(u, w, at, data);
            && v.wnum == 0 && v.pending.None? && v.out.img.size == 0 && v.out.flight == [] && v.out.wire == v.out.sealed
            && if u.partialWrite then
                 && ret == w.wnum + u.Chunk(|data| - w.wnum)
                 && v.out.sealed == w.out.sealed + u.sealer.seal(w.records, RT_APPLICATION, data[w.wnum..w.wnum + u.Chunk(|data| - w.wnum)]).value
               else
                 && ret == |data|
                 && Prepended(w.out.sealed, SealAll(u.sealer, w.records, RT_APPLICATION, Pieces(data[w.wnum..], u.max))) == Some(v.out.sealed)
  {
    hide WriteRest;
    hide SealAll;
    hide Pieces;
    ClearAnyWnum(u, w, w.(wnum := 0), |data| - w.wnum);
    RestGoes(u, w.(wnum := 0), at, data, w.wnum);
  }

  /** A record that was blocked goes out once the transport takes bytes again. */
  lemma BlockedGoes(u: Setup, w: Sending, ty: Byte, at: nat, body: Bytes)
    requires w.Ok() && w.out.Kept() && Open(u) && w.pending.Some? && Same(u, w.pending.value, ty, at, |body|)
    ensures DoWrite(u, w, ty, at, body) == (w.(out := Flush(w.out, u.bio).0, pending := None), w.pending.value.tot)
    ensures Flush(w.out, u.bio).0.img == NO_BLOCK && w.pending.value.tot > 0
  {
    hide Flush;
    FlushGoes(w.out, u.bio);
  }

  /** A write whose record was blocked goes on with that record; once the transport takes bytes again and the arguments are
      those of the blocked write or more of the same, it too succeeds. */
  lemma RetrySucceeds(u: Setup, w: Sending, at: nat, data: Bytes)
    requires u.Ok() && w.Ok() && w.out.Kept() && Open(u) && w.wnum < |data| && w.pending.Some? && !u.partialWrite
    requires Same(u, w.pending.value, RT_APPLICATION, at + w.wnum, u.Chunk(|data| - w.wnum))
    requires w.wnum + w.pending.value.tot < |data| ==>
      Clear(u, w.(out := Flush(w.out, u.bio).0, pending := None), |data| - w.wnum - w.pending.value.tot)
    ensures var (v, ret) := WriteAppData(u, w, at, data);
            ret == |data| && v.wnum == 0 && v.pending.None? && v.out.img.size == 0
            && (w.wnum + w.pending.value.tot == |data| ==> v.out.flight == w.out.flight && v.out.sealed == w.out.sealed)
            && (w.wnum + w.pending.value.tot < |data| ==> v.out.flight == [] && v.out.wire == v.out.sealed)
  {
    hide Clear;
    hide Flush;
    hide DoWrite;
    hide Same;
    hide Pieces;
    hide SealAll;
    hide Prepended;
    hide Sealer.Bounded;
    var tot, b := w.wnum, w.pending.value.tot;
    var w0 := w.(wnum := 0);
    var v := w0.(out := Flush(w.out, u.bio).0, pending := None);
    BlockedGoes(u, w0, RT_APPLICATION, at + tot, data[tot..tot + u.Chunk(|data| - tot)]);
    assert b <= u.Chunk(|data| - tot) by { SameLength(u, w.pending.value, RT_APPLICATION, at + tot, u.Chunk(|data| - tot)); }
    if tot + b < |data| {
      ClearAnyWnum(u, w.(out := Flush(w.out, u.bio).0, pending := None), v, |data| - tot - b);
      RestGoes(u, v, at, data, tot + b);
      assert WriteRest(u, w0, at, data, tot) == WriteRest(u, v, at, data, tot + b);
    } else {
      assert WriteRest(u, w0, at, data, tot) == (v, tot + b);
    }
  }

  lemma SameLength(u: Setup, b: Blocked, ty: Byte, at: nat, len: nat)
    requires Same(u, b, ty, at, len)
    ensures b.tot <= len
  {
  }

  lemma ClearAnyWnum(u: Setup, w: Sending, v: Sending, n: nat)
    requires Clear(u, w, n) && v == w.(wnum := v.wnum)
    ensures Clear(u, v, n)
  {
  }
}
