/** Streams as lists of wire records: unknown records, the order of records, packed and single elements. */
module PbWire {
  import opened Octets
  import opened PbVarint
  import opened PbModel
  import opened PbParse
  import opened PbRoundTrip

  /** A tag varint (not necessarily the shortest one) and the payload after it. */
  datatype Record = Record(head: Bytes, body: Bytes)

  function Key(r: Record): nat
  {
    match DecodeVarint32(r.head) case Fail => 0 case Ok(t, _) => t
  }

  /** A payload that is one whole item of its wire type. */
  predicate WholePayload(wt: nat, body: Bytes)
  {
    || (wt == WT_VARINT && Scan(body) == |body| > 0)
    || (wt == WT_64BIT && |body| == 8)
    || (wt == WT_STRING && TakeString(body).Ok? && TakeString(body).rest == [])
    || (wt == WT_32BIT && |body| == 4)
  }

  /** The wire types a sender may use for a field. */
  predicate Matches(f: Field, wt: nat)
  {
    wt == WireType(f.ltype) || (wt == WT_STRING && f.htype.Repeated? && f.ltype.Packable())
  }

  predicate WholeRecord(fs: seq<Field>, r: Record)
  {
    && DecodeVarint32(r.head).Ok? && DecodeVarint32(r.head).rest == [] && Key(r) / 8 > 0
    && WholePayload(Key(r) % 8, r.body)
    && var i := FindField(fs, Key(r) / 8);
       i < |fs| ==> Matches(fs[i], Key(r) % 8)
  }

  predicate Known(fs: seq<Field>, r: Record)
  {
    FindField(fs, Key(r) / 8) < |fs|
  }

  function Flatten(rs: seq<Record>): Bytes
  {
    if rs == [] then [] else rs[0].head + rs[0].body + Flatten(rs[1..])
  }

  lemma {:induction false} FlattenJoin(rs: seq<Record>, qs: seq<Record>)
    ensures Flatten(rs + qs) == Flatten(rs) + Flatten(qs)
    decreases |rs|
  {
    if rs == [] {
      assert rs + qs == qs && [] + Flatten(qs) == Flatten(qs);
    } else {
      assert (rs + qs)[1..] == rs[1..] + qs;
      FlattenJoin(rs[1..], qs);
      assert rs[0].head + rs[0].body + (Flatten(rs[1..]) + Flatten(qs)) == Flatten(rs) + Flatten(qs);
    }
  }

  /** What one record does to the message. */
  function Apply(fs: seq<Field>, p: Progress, r: Record): (q: Option<Progress>)
    requires |p.m| == |fs|
    ensures q.Some? ==> |q.value.m| == |fs|
  {
    var i := FindField(fs, Key(r) / 8);
    if i == |fs| then Some(p)
    else
      match DecSlot(fs[i], p.m[i], Key(r) % 8, r.body)
      case Fail => None
      case Ok(s, _) => Some(Progress(Put(fs, p.m, i, s), Note(fs, p.seen, i)))
  }

  function ApplyAll(fs: seq<Field>, p: Progress, rs: seq<Record>): (q: Option<Progress>)
    requires |p.m| == |fs|
    ensures q.Some? ==> |q.value.m| == |fs|
    decreases |rs|
  {
    if rs == [] then Some(p)
    else
      match Apply(fs, p, rs[0]) case None => None case Some(q) => ApplyAll(fs, q, rs[1..])
  }

  // ---------------------------------------------------------------- readers look no further than they consume

  lemma {:induction false} Dec32FromLocal(bs: Bytes, more: Bytes, result: nat, bitpos: nat)
    requires bitpos < 256 && Dec32From(bs, result, bitpos).Ok?
    ensures var p := Dec32From(bs, result, bitpos);
            Dec32From(bs + more, result, bitpos) == Ok(p.val, p.rest + more)
    decreases |bs|
  {
    hide Merge;
    hide Overflows;
    assert (bs + more)[1..] == bs[1..] + more;
    if bs[0] >= 128 {
      var r := if bitpos >= 32 then result else Merge(result, bs[0] % 128, bitpos);
      Dec32FromLocal(bs[1..], more, r, (bitpos + 7) % 256);
    }
  }

  lemma Dec32Local(bs: Bytes, more: Bytes)
    requires DecodeVarint32(bs).Ok?
    ensures var p := DecodeVarint32(bs);
            DecodeVarint32(bs + more) == Ok(p.val, p.rest + more)
  {
    hide Dec32From;
    assert (bs + more)[1..] == bs[1..] + more;
    if bs[0] >= 128 {
      Dec32FromLocal(bs[1..], more, bs[0] % 128, 7);
    }
  }

  lemma TakeLocal(bs: Bytes, more: Bytes, n: nat)
    requires n <= |bs|
    ensures Take(bs, n).Ok? && Take(bs + more, n) == Ok(Take(bs, n).val, Take(bs, n).rest + more)
  {
    assert (bs + more)[..n] == bs[..n];
    assert (bs + more)[n..] == bs[n..] + more;
  }

  lemma TakeStringLocal(bs: Bytes, more: Bytes)
    requires TakeString(bs).Ok?
    ensures var p := TakeString(bs);
            TakeString(bs + more) == Ok(p.val, p.rest + more)
  {
    hide DecodeVarint32;
    var p := DecodeVarint32(bs);
    Dec32Local(bs, more);
    TakeLocal(p.rest, more, p.val);
  }

  lemma {:induction false} ScanLocal(bs: Bytes, more: Bytes)
    requires Scan(bs) > 0
    ensures Scan(bs + more) == Scan(bs)
  {
    if bs[0] >= 128 {
      assert (bs + more)[1..] == bs[1..] + more;
      ScanLocal(bs[1..], more);
    }
  }

  /** Skipping an unknown field consumes its payload and nothing else. */
  lemma SkipWhole(wt: nat, body: Bytes, more: Bytes)
    requires WholePayload(wt, body)
    ensures SkipField(wt, body + more) == Ok((), more)
  {
    hide TakeString;
    if wt == WT_VARINT {
      ScanLocal(body, more);
      assert (body + more)[|body|..] == more;
    } else if wt == WT_STRING {
      TakeStringLocal(body, more);
      assert [] + more == more;
    } else {
      TakeLocal(body, more, |body|);
      assert [] + more == more;
    }
  }

  /** `a` decoded a payload on its own and `b` decoded it in front of `more`: same outcome. */
  predicate Same<T(==)>(a: Parse<T>, b: Parse<T>, more: Bytes)
  {
    match a case Fail => b == Fail case Ok(v, r) => r == [] && b == Ok(v, more)
  }

  lemma {:induction false} VarintWhole(body: Bytes, more: Bytes)
    requires Scan(body) == |body| > 0
    ensures Same(DecodeVarint(body), DecodeVarint(body + more), more)
  {
    hide Groups;
    ScanLocal(body, more);
    var n := |body|;
    assert (body + more)[..n] == body && (body + more)[n..] == more && body[..n] == body && body[n..] == [];
  }

  lemma ScalarWhole(t: LType, size: nat, body: Bytes, more: Bytes)
    requires t.Packable() && WholePayload(WireType(t), body)
    ensures Same(DecScalar(t, size, body), DecScalar(t, size, body + more), more)
  {
    hide DecodeVarint;
    if t.Fixed32? || t.Fixed64? {
      TakeLocal(body, more, |body|);
      assert [] + more == more && body[|body|..] == [];
    } else {
      VarintWhole(body, more);
    }
  }

  lemma StringWhole(t: LType, size: nat, body: Bytes, more: Bytes)
    requires WholePayload(WT_STRING, body)
    ensures Same(DecString(t, size, body), DecString(t, size, body + more), more)
  {
    hide DecodeVarint32;
    var p := DecodeVarint32(body);
    Dec32Local(body, more);
    TakeLocal(p.rest, more, p.val);
    assert p.rest[p.val..] == [] && [] + more == more;
    assert p.val == 0 ==> p.rest == [];
  }

  lemma {:induction false} ValueWhole(f: Field, cur: Value, body: Bytes, more: Bytes)
    requires WholePayload(WireType(f.ltype), body)
    ensures Same(DecValue(f, cur, body), DecValue(f, cur, body + more), more)
  {
    hide DecScalar;
    hide DecString;
    hide TakeString;
    hide DecMessage;
    if f.ltype.Packable() {
      ScalarWhole(f.ltype, f.dataSize, body, more);
    } else if !f.ltype.LSubmessage? {
      StringWhole(f.ltype, f.dataSize, body, more);
    } else {
      TakeStringLocal(body, more);
      assert [] + more == more;
    }
  }

  lemma {:induction false} SlotWhole(f: Field, s: Slot, wt: nat, body: Bytes, more: Bytes)
    requires WholePayload(wt, body) && Matches(f, wt)
    ensures Same(DecSlot(f, s, wt, body), DecSlot(f, s, wt, body + more), more)
  {
    hide DecValue;
    hide TakeString;
    hide DecPacked;
    if f.htype.Repeated? && wt == WT_STRING && f.ltype.Packable() {
      TakeStringLocal(body, more);
      assert [] + more == more;
    } else {
      ValueWhole(f, if f.htype.Repeated? then Num(0) else s.v, body, more);
    }
  }

  // ---------------------------------------------------------------- a stream is its records

  lemma {:induction false} ReadHead(fs: seq<Field>, p: Progress, head: Bytes, t: nat, rest: Bytes)
    requires |p.m| == |fs| && DecodeVarint32(head) == Ok(t, []) && t / 8 > 0
    ensures DecFields(fs, p, head + rest) == Continue(fs, p, t, rest)
  {
    hide DecodeVarint32;
    hide DecSlot;
    hide SkipField;
    hide Put;
    hide Note;
    Dec32Local(head, rest);
    assert [] + rest == rest;
    assert head != [] by { Decode32Shorter(head); }
  }

  lemma {:induction false} ReadRecord(fs: seq<Field>, p: Progress, r: Record, more: Bytes)
    requires |p.m| == |fs| && WholeRecord(fs, r)
    ensures DecFields(fs, p, r.head + r.body + more)
         == match Apply(fs, p, r) case None => Fail case Some(q) => DecFields(fs, q, more)
  {
    hide DecFields;
    hide DecSlot;
    hide SkipField;
    hide WholePayload;
    hide Put;
    hide Note;
    assert r.head + r.body + more == r.head + (r.body + more);
    ReadHead(fs, p, r.head, Key(r), r.body + more);
    var i := FindField(fs, Key(r) / 8);
    if i == |fs| {
      SkipWhole(Key(r) % 8, r.body, more);
    } else {
      SlotWhole(fs[i], p.m[i], Key(r) % 8, r.body, more);
    }
  }

  lemma {:induction false} ReadRecords(fs: seq<Field>, p: Progress, rs: seq<Record>)
    requires |p.m| == |fs| && forall i :: 0 <= i < |rs| ==> WholeRecord(fs, rs[i])
    ensures DecFields(fs, p, Flatten(rs))
         == match ApplyAll(fs, p, rs) case None => Fail case Some(q) => Ok(q, [])
    decreases |rs|
  {
    hide Apply;
    hide WholeRecord;
    if rs != [] {
      ReadRecord(fs, p, rs[0], Flatten(rs[1..]));
      var q := Apply(fs, p, rs[0]);
      if q.Some? {
        ReadRecords(fs, q.value, rs[1..]);
      }
    }
  }

  /** The outcome of pb_decode in terms of records. */
  lemma {:induction false} DecodeRecords(fs: seq<Field>, rs: seq<Record>)
    requires forall i :: 0 <= i < |rs| ==> WholeRecord(fs, rs[i])
    ensures Decode(fs, Flatten(rs))
         == match ApplyAll(fs, Progress(DefaultMessage(fs), {}), rs)
            case None => Fail
            case Some(q) => if AllSeen(fs, q.seen) then Ok(q.m, []) else Fail
  {
    hide ApplyAll;
    hide DecFields;
    ReadRecords(fs, Progress(DefaultMessage(fs), {}), rs);
  }

  // ---------------------------------------------------------------- unknown fields

  function KnownOnly(fs: seq<Field>, rs: seq<Record>): (ks: seq<Record>)
    ensures forall i :: 0 <= i < |ks| ==> ks[i] in rs && Known(fs, ks[i])
  {
    if rs == [] then []
    else if Known(fs, rs[0]) then [rs[0]] + KnownOnly(fs, rs[1..])
    else KnownOnly(fs, rs[1..])
  }

  lemma {:induction false} ApplyKnownOnly(fs: seq<Field>, p: Progress, rs: seq<Record>)
    requires |p.m| == |fs|
    ensures ApplyAll(fs, p, rs) == ApplyAll(fs, p, KnownOnly(fs, rs))
    decreases |rs|
  {
    hide DecSlot;
    hide Put;
    if rs != [] {
      var q := Apply(fs, p, rs[0]);
      if q.Some? {
        ApplyKnownOnly(fs, q.value, rs[1..]);
      }
    }
  }

  lemma {:induction false} KnownAreWhole(fs: seq<Field>, rs: seq<Record>)
    requires forall i :: 0 <= i < |rs| ==> WholeRecord(fs, rs[i])
    ensures forall i :: 0 <= i < |KnownOnly(fs, rs)| ==> WholeRecord(fs, KnownOnly(fs, rs)[i])
  {
    hide WholeRecord;
    var ks := KnownOnly(fs, rs);
    forall i | 0 <= i < |ks|
      ensures WholeRecord(fs, ks[i])
    {
      assert ks[i] in rs;
    }
  }

  /** Records with unlisted tags, wherever they stand, do not change what is decoded. */
  lemma {:induction false} UnknownFieldsIgnored(fs: seq<Field>, rs: seq<Record>)
    requires forall i :: 0 <= i < |rs| ==> WholeRecord(fs, rs[i])
    ensures Decode(fs, Flatten(rs)) == Decode(fs, Flatten(KnownOnly(fs, rs)))
  {
    hide WholeRecord;
    hide Decode;
    var ks := KnownOnly(fs, rs);
    KnownAreWhole(fs, rs);
    DecodeRecords(fs, rs);
    DecodeRecords(fs, ks);
    ApplyKnownOnly(fs, Progress(DefaultMessage(fs), {}), rs);
  }

  // ---------------------------------------------------------------- order

  /** What a known record writes to: its field, or the union its field belongs to. */
  function Target(fs: seq<Field>, r: Record): nat
    requires Known(fs, r)
  {
    UnionStart(fs, FindField(fs, Key(r) / 8))
  }

  /** Writes to different targets commute. */
  lemma {:induction false} PutsCommute(fs: seq<Field>, m: Message, i: nat, s: Slot, j: nat, t: Slot)
    requires i < |fs| && j < |fs| && |m| == |fs| && UnionStart(fs, i) != UnionStart(fs, j)
    ensures Put(fs, Put(fs, m, i, s), j, t) == Put(fs, Put(fs, m, j, t), i, s)
    ensures Put(fs, m, i, s)[j] == m[j] && Put(fs, m, j, t)[i] == m[i]
  {
    hide UnionStart;
    hide DefaultSlot;
    assert forall k :: 0 <= k < |fs| && SameUnion(fs, i, k) ==> !SameUnion(fs, j, k);
  }

  lemma {:induction false} ApplyCommutes(fs: seq<Field>, p: Progress, a: Record, b: Record)
    requires |p.m| == |fs| && Known(fs, a) && Known(fs, b) && Target(fs, a) != Target(fs, b)
    ensures ApplyAll(fs, p, [a, b]) == ApplyAll(fs, p, [b, a])
  {
    hide DecSlot;
    hide Put;
    hide Key;
    var i, j := FindField(fs, Key(a) / 8), FindField(fs, Key(b) / 8);
    TwoRecords(fs, p, a, b);
    TwoRecords(fs, p, b, a);
    var x, y := DecSlot(fs[i], p.m[i], Key(a) % 8, a.body), DecSlot(fs[j], p.m[j], Key(b) % 8, b.body);
    var sa, sb := if x.Ok? then x.val else p.m[i], if y.Ok? then y.val else p.m[j];
    PutsCommute(fs, p.m, i, sa, j, sb);
    assert Note(fs, Note(fs, p.seen, i), j) == Note(fs, Note(fs, p.seen, j), i);
  }

  lemma {:induction false} TwoRecords(fs: seq<Field>, p: Progress, a: Record, b: Record)
    requires |p.m| == |fs|
    ensures ApplyAll(fs, p, [a, b])
         == match Apply(fs, p, a) case None => None case Some(q) => Apply(fs, q, b)
  {
    hide Apply;
    assert [a, b][1..] == [b] && [b][1..] == [];
    var q := Apply(fs, p, a);
    if q.Some? {
      assert ApplyAll(fs, q.value, [b]) == Apply(fs, q.value, b);
    }
  }

  lemma {:induction false} ApplySplit(fs: seq<Field>, p: Progress, rs: seq<Record>, qs: seq<Record>)
    requires |p.m| == |fs|
    ensures ApplyAll(fs, p, rs + qs)
         == match ApplyAll(fs, p, rs) case None => None case Some(q) => ApplyAll(fs, q, qs)
    decreases |rs|
  {
    hide Apply;
    if rs == [] {
      assert rs + qs == qs;
    } else {
      assert (rs + qs)[1..] == rs[1..] + qs;
      var q := Apply(fs, p, rs[0]);
      if q.Some? {
        ApplySplit(fs, q.value, rs[1..], qs);
      }
    }
  }

  predicate AllKnown(fs: seq<Field>, rs: seq<Record>)
  {
    forall i :: 0 <= i < |rs| ==> Known(fs, rs[i])
  }

  /** The records for one target, in order. */
  function Only(fs: seq<Field>, rs: seq<Record>, t: nat): seq<Record>
    requires AllKnown(fs, rs)
  {
    if rs == [] then []
    else (if Target(fs, rs[0]) == t then [rs[0]] else []) + Only(fs, rs[1..], t)
  }

  lemma {:induction false} OnlySplit(fs: seq<Field>, rs: seq<Record>, qs: seq<Record>, t: nat)
    requires AllKnown(fs, rs) && AllKnown(fs, qs)
    ensures AllKnown(fs, rs + qs) && Only(fs, rs + qs, t) == Only(fs, rs, t) + Only(fs, qs, t)
  {
    hide Target;
    hide Known;
    assert AllKnown(fs, rs + qs);
    if rs == [] {
      assert rs + qs == qs;
    } else {
      assert (rs + qs)[1..] == rs[1..] + qs;
      OnlySplit(fs, rs[1..], qs, t);
      var h := if Target(fs, rs[0]) == t then [rs[0]] else [];
      assert h + (Only(fs, rs[1..], t) + Only(fs, qs, t)) == h + Only(fs, rs[1..], t) + Only(fs, qs, t);
    }
  }

  /** A record moves in front of records with other targets. */
  lemma {:induction false} MoveToFront(fs: seq<Field>, p: Progress, before: seq<Record>, a: Record)
    requires |p.m| == |fs| && AllKnown(fs, before) && Known(fs, a)
    requires Only(fs, before, Target(fs, a)) == []
    ensures ApplyAll(fs, p, before + [a]) == ApplyAll(fs, p, [a] + before)
    decreases |before|
  {
    hide Apply;
    hide Target;
    hide Known;
    if before == [] {
      assert before + [a] == [a] + before;
    } else {
      var b, tail := before[0], before[1..];
      assert before + [a] == [b] + (tail + [a]) && [a] + before == [a, b] + tail && [b] + ([a] + tail) == [b, a] + tail;
      ApplySplit(fs, p, [b], tail + [a]);
      ApplySplit(fs, p, [b], [a] + tail);
      ApplySplit(fs, p, [b, a], tail);
      ApplySplit(fs, p, [a, b], tail);
      var q := ApplyAll(fs, p, [b]);
      if q.Some? {
        MoveToFront(fs, q.value, tail, a);
      }
      ApplyCommutes(fs, p, a, b);
    }
  }

  /** The first record for target `t`, with what stands before and after it. */
  lemma {:induction false} SplitAtFirst(fs: seq<Field>, rs: seq<Record>, t: nat) returns (n: nat)
    requires AllKnown(fs, rs) && Only(fs, rs, t) != []
    ensures n < |rs| && Target(fs, rs[n]) == t && rs[n] == Only(fs, rs, t)[0]
    ensures AllKnown(fs, rs[..n]) && Only(fs, rs[..n], t) == []
  {
    hide Target;
    hide Known;
    if Target(fs, rs[0]) == t {
      n := 0;
    } else {
      var k := SplitAtFirst(fs, rs[1..], t);
      n := k + 1;
      assert rs[..n] == [rs[0]] + rs[1..][..k];
      assert AllKnown(fs, rs[..n]);
      assert rs[..n][1..] == rs[1..][..k];
    }
  }

  /** Interleaving known records differently does not matter as long as the records for each field,
      and for each union, keep their order. */
  lemma {:induction false} OrderIrrelevant(fs: seq<Field>, p: Progress, rs: seq<Record>, qs: seq<Record>)
    requires |p.m| == |fs| && AllKnown(fs, rs) && AllKnown(fs, qs)
    requires forall t: nat :: Only(fs, rs, t) == Only(fs, qs, t)
    ensures ApplyAll(fs, p, rs) == ApplyAll(fs, p, qs)
    decreases |rs|
  {
    hide Apply;
    hide Target;
    hide Known;
    if rs == [] {
      if qs != [] {
        assert Only(fs, rs, Target(fs, qs[0])) == [];
        assert false;
      }
    } else {
      var a, t := rs[0], Target(fs, rs[0]);
      assert Only(fs, qs, t) == Only(fs, rs, t) != [];
      var n := SplitAtFirst(fs, qs, t);
      var before, after := qs[..n], qs[n + 1..];
      assert qs == before + [a] + after && rs == [a] + rs[1..];
      RemoveFirst(fs, rs, qs, n);
      MoveToFront(fs, p, before, a);
      ApplySplit(fs, p, before + [a], after);
      assert [a] + before + after == [a] + (before + after);
      ApplySplit(fs, p, [a] + before, after);
      ApplySplit(fs, p, [a], before + after);
      ApplySplit(fs, p, [a], rs[1..]);
      var q := ApplyAll(fs, p, [a]);
      if q.Some? {
        OrderIrrelevant(fs, q.value, rs[1..], before + after);
      }
    }
  }

  lemma {:induction false} RemoveFirst(fs: seq<Field>, rs: seq<Record>, qs: seq<Record>, n: nat)
    requires AllKnown(fs, rs) && AllKnown(fs, qs) && rs != [] && n < |qs| && qs[n] == rs[0]
    requires forall t: nat :: Only(fs, rs, t) == Only(fs, qs, t)
    requires AllKnown(fs, qs[..n]) && Only(fs, qs[..n], Target(fs, rs[0])) == []
    ensures AllKnown(fs, rs[1..]) && AllKnown(fs, qs[..n] + qs[n + 1..])
    ensures forall t: nat :: Only(fs, rs[1..], t) == Only(fs, qs[..n] + qs[n + 1..], t)
  {
    hide Target;
    hide Known;
    hide Only;
    forall t: nat
      ensures Only(fs, rs[1..], t) == Only(fs, qs[..n] + qs[n + 1..], t)
    {
      RemoveFirstAt(fs, rs, qs, n, t);
    }
  }

  lemma {:induction false} OnlyCons(fs: seq<Field>, a: Record, rs: seq<Record>, t: nat)
    requires Known(fs, a) && AllKnown(fs, rs)
    ensures AllKnown(fs, [a] + rs)
    ensures Only(fs, [a] + rs, t) == (if Target(fs, a) == t then [a] else []) + Only(fs, rs, t)
  {
    hide Target;
    hide Known;
    assert ([a] + rs)[1..] == rs;
  }

  lemma CancelHead(h: seq<Record>, x: seq<Record>, before: seq<Record>, after: seq<Record>)
    requires h == [] || before == []
    requires h + x == before + (h + after)
    ensures x == before + after
  {
    if h == [] {
      assert h + x == x && h + after == after;
    } else {
      assert before + (h + after) == h + after;
      assert x == (h + x)[|h|..] == after;
    }
  }

  lemma {:induction false} RemoveFirstAt(fs: seq<Field>, rs: seq<Record>, qs: seq<Record>, n: nat, t: nat)
    requires AllKnown(fs, rs) && AllKnown(fs, qs) && rs != [] && n < |qs| && qs[n] == rs[0]
    requires Only(fs, rs, t) == Only(fs, qs, t)
    requires AllKnown(fs, qs[..n]) && Only(fs, qs[..n], Target(fs, rs[0])) == []
    ensures AllKnown(fs, rs[1..]) && AllKnown(fs, qs[..n] + qs[n + 1..])
    ensures Only(fs, rs[1..], t) == Only(fs, qs[..n] + qs[n + 1..], t)
  {
    hide Target;
    hide Known;
    hide Only;
    var a, before, after := rs[0], qs[..n], qs[n + 1..];
    assert qs == before + ([a] + after) && rs == [a] + rs[1..];
    OnlySplit(fs, before, [a] + after, t);
    OnlySplit(fs, before, after, t);
    OnlyCons(fs, a, after, t);
    OnlyCons(fs, a, rs[1..], t);
    CancelHead(if Target(fs, a) == t then [a] else [], Only(fs, rs[1..], t), Only(fs, before, t), Only(fs, after, t));
  }

  /** The same for pb_decode on whole streams. */
  lemma {:induction false} InterleavingIrrelevant(fs: seq<Field>, rs: seq<Record>, qs: seq<Record>)
    requires AllKnown(fs, rs) && AllKnown(fs, qs)
    requires forall i :: 0 <= i < |rs| ==> WholeRecord(fs, rs[i])
    requires forall i :: 0 <= i < |qs| ==> WholeRecord(fs, qs[i])
    requires forall t: nat :: Only(fs, rs, t) == Only(fs, qs, t)
    ensures Decode(fs, Flatten(rs)) == Decode(fs, Flatten(qs))
  {
    hide Decode;
    hide Only;
    hide WholeRecord;
    DecodeRecords(fs, rs);
    DecodeRecords(fs, qs);
    OrderIrrelevant(fs, Progress(DefaultMessage(fs), {}), rs, qs);
  }

  /** Both at once: streams that carry the same records field by field decode to the same, however those are
      interleaved and whatever unlisted records stand among them. */
  lemma {:induction false} StreamsAgree(fs: seq<Field>, rs: seq<Record>, qs: seq<Record>)
    requires forall i :: 0 <= i < |rs| ==> WholeRecord(fs, rs[i])
    requires forall i :: 0 <= i < |qs| ==> WholeRecord(fs, qs[i])
    requires forall t: nat :: Only(fs, KnownOnly(fs, rs), t) == Only(fs, KnownOnly(fs, qs), t)
    ensures Decode(fs, Flatten(rs)) == Decode(fs, Flatten(qs))
  {
    hide Decode;
    hide Only;
    hide WholeRecord;
    UnknownFieldsIgnored(fs, rs);
    UnknownFieldsIgnored(fs, qs);
    KnownAreWhole(fs, rs);
    KnownAreWhole(fs, qs);
    InterleavingIrrelevant(fs, KnownOnly(fs, rs), KnownOnly(fs, qs));
  }

  // ---------------------------------------------------------------- packed and single elements

  /** Array elements as they may travel: several in one packed chunk, or one under its own tag. */
  datatype Chunk = Packed(vs: seq<Value>) | Single(v: Value)
  {
    function Values(): seq<Value> { if Packed? then vs else [v] }
  }

  predicate GoodChunk(f: Field, c: Chunk)
    requires f.ltype.Packable()
  {
    && (forall i :: 0 <= i < |c.Values()| ==> Typed(f, c.Values()[i]))
    && (c.Packed? ==> Short(EncElements(f, [], c.Values())))
  }

  function ChunkWire(f: Field, c: Chunk): nat
  {
    if c.Packed? then WT_STRING else WireType(f.ltype)
  }

  function ChunkRecord(f: Field, c: Chunk): Record
    requires f.ltype.Packable() && GoodChunk(f, c)
  {
    if c.Packed? then Record(EncTag(WT_STRING, f.tag), EncString(EncElements(f, [], c.Values()).value))
    else
      assert Typed(f, c.Values()[0]);
      Record(EncTag(WireType(f.ltype), f.tag), EncValue(f, c.v).value)
  }

  function AllValues(cs: seq<Chunk>): seq<Value>
  {
    if cs == [] then [] else cs[0].Values() + AllValues(cs[1..])
  }

  lemma {:induction false} PackedOverflows(f: Field, vs: seq<Value>, ws: seq<Value>)
    requires f.ltype.Packable() && |vs| <= f.arraySize < |vs| + |ws|
    requires forall i :: 0 <= i < |ws| ==> Typed(f, ws[i])
    ensures EncElements(f, [], ws).Some? && DecPacked(f, vs, EncElements(f, [], ws).value).None?
    decreases |ws|
  {
    hide DecScalar;
    ScalarRoundTrip(f, ws[0], []);
    ScalarNonempty(f, ws[0]);
    var e := EncValue(f, ws[0]).value;
    ElementsEncoded(f, ws[1..]);
    var tail := EncElements(f, [], ws[1..]).value;
    assert EncElements(f, [], ws).value == e + tail by { assert [] + e == e; }
    if |vs| < f.arraySize {
      ScalarRoundTrip(f, ws[0], tail);
      PackedOverflows(f, vs + [ws[0]], ws[1..]);
    }
  }

  lemma {:induction false} ElementsEncoded(f: Field, ws: seq<Value>)
    requires f.ltype.Packable()
    requires forall i :: 0 <= i < |ws| ==> Typed(f, ws[i])
    ensures EncElements(f, [], ws).Some?
    decreases |ws|
  {
    if ws != [] {
      ScalarRoundTrip(f, ws[0], []);
      ElementsEncoded(f, ws[1..]);
    }
  }

  /** One chunk, packed or not, appends its values or overflows the array. */
  lemma {:induction false} ChunkAppends(f: Field, s: Slot, c: Chunk)
    requires f.ltype.Packable() && f.htype.Repeated? && GoodChunk(f, c) && |s.vs| <= f.arraySize
    ensures DecSlot(f, s, ChunkWire(f, c), ChunkRecord(f, c).body)
         == if |s.vs| + |c.Values()| <= f.arraySize then Ok(s.(vs := s.vs + c.Values()), []) else Fail
  {
    hide DecScalar;
    hide EncString;
    if c.Packed? {
      var e := EncElements(f, [], c.Values()).value;
      assert EncString(e) + [] == EncString(e);
      TakeStringRoundTrip(e, []);
      if |s.vs| + |c.vs| <= f.arraySize {
        PackedRoundTrip(f, s.vs, c.vs);
      } else {
        PackedOverflows(f, s.vs, c.vs);
      }
    } else {
      assert Typed(f, c.Values()[0]);
      ScalarRoundTrip(f, c.v, []);
      assert EncValue(f, c.v).value + [] == EncValue(f, c.v).value;
    }
  }

  function ChunkRecords(f: Field, cs: seq<Chunk>): (rs: seq<Record>)
    requires f.ltype.Packable() && forall i :: 0 <= i < |cs| ==> GoodChunk(f, cs[i])
    ensures |rs| == |cs|
  {
    if cs == [] then [] else [ChunkRecord(f, cs[0])] + ChunkRecords(f, cs[1..])
  }

  lemma {:induction false} ApplyChunk(fs: seq<Field>, p: Progress, k: nat, c: Chunk)
    requires |p.m| == |fs| && k < |fs| && WellFormed(fs)
    requires fs[k].ltype.Packable() && fs[k].htype.Repeated? && GoodChunk(fs[k], c)
    requires |p.m[k].vs| <= fs[k].arraySize
    ensures Apply(fs, p, ChunkRecord(fs[k], c))
         == if |p.m[k].vs| + |c.Values()| <= fs[k].arraySize then Some(Appended(p, k, c.Values())) else None
  {
    hide DecSlot;
    hide GoodChunk;
    hide EncVarint;
    hide DecodeVarint32;
    var f := fs[k];
    assert WellFormedField(f);
    KeyOf(f, c);
    FindItself(fs, k);
    ChunkAppends(f, p.m[k], c);
    PutPlain(fs, p.m, k, p.m[k].(vs := p.m[k].vs + c.Values()));
  }

  lemma KeyOf(f: Field, c: Chunk)
    requires f.ltype.Packable() && GoodChunk(f, c) && 0 < f.tag < 0x2000_0000
    ensures Key(ChunkRecord(f, c)) / 8 == f.tag && Key(ChunkRecord(f, c)) % 8 == ChunkWire(f, c)
  {
    hide EncVarint;
    hide DecodeVarint32;
    hide GoodChunk;
    var wt := ChunkWire(f, c);
    var t := 8 * f.tag + wt;
    SplitKey(f.tag, wt);
    Varint32RoundTrip(t, []);
    assert EncVarint(t) + [] == EncVarint(t);
  }

  /** Any mix of packed chunks and single elements carrying the same values decodes to the same array:
      the values are appended in order, or the array overflows because they do not fit. */
  lemma {:induction false} PackingEquivalence(fs: seq<Field>, p: Progress, k: nat, cs: seq<Chunk>)
    requires |p.m| == |fs| && k < |fs| && WellFormed(fs)
    requires fs[k].ltype.Packable() && fs[k].htype.Repeated?
    requires forall i :: 0 <= i < |cs| ==> GoodChunk(fs[k], cs[i])
    requires |p.m[k].vs| <= fs[k].arraySize
    ensures ApplyAll(fs, p, ChunkRecords(fs[k], cs))
         == if |p.m[k].vs| + |AllValues(cs)| <= fs[k].arraySize then Some(Appended(p, k, AllValues(cs))) else None
    decreases |cs|
  {
    hide Apply;
    hide WellFormed;
    hide GoodChunk;
    hide ChunkRecord;
    if cs == [] {
      AppendedNothing(p, k);
    } else {
      ApplyChunk(fs, p, k, cs[0]);
      assert ChunkRecords(fs[k], cs)[1..] == ChunkRecords(fs[k], cs[1..]);
      if |p.m[k].vs| + |cs[0].Values()| <= fs[k].arraySize {
        PackingEquivalence(fs, Appended(p, k, cs[0].Values()), k, cs[1..]);
        AppendedJoin(p, k, cs[0].Values(), AllValues(cs[1..]));
      }
    }
  }

  lemma AppendedJoin(p: Progress, k: nat, vs: seq<Value>, ws: seq<Value>)
    requires k < |p.m|
    ensures Appended(Appended(p, k, vs), k, ws) == Appended(p, k, vs + ws)
  {
    assert p.m[k].vs + vs + ws == p.m[k].vs + (vs + ws);
    var s, s' := p.m[k].(vs := p.m[k].vs + vs), p.m[k].(vs := p.m[k].vs + (vs + ws));
    assert p.m[k := s][k := s'] == p.m[k := s'];
  }

  // ---------------------------------------------------------------- order across a union

  lemma {:induction false} SetMember(fs: seq<Field>, p: Progress, i: nat, j: nat, r: Record, n: Byte)
    requires |p.m| == |fs| == 2 && i < 2 && j < 2 && i != j && n < 128 && r.body == [n]
    requires fs[0].htype.Oneof? && fs[1].htype.Oneof? && fs[1].dataOffset == PB_SIZE_MAX
    requires fs[i].ltype.UVarint? && fs[i].dataSize == 4 && FindField(fs, Key(r) / 8) == i
    ensures Apply(fs, p, r).Some? && |Apply(fs, p, r).value.m| == 2
    ensures Apply(fs, p, r).value.m[i].has && Apply(fs, p, r).value.m[j] == DefaultSlot(fs[j])
  {
    hide Key;
    hide DefaultSlot;
    OneByte(n);
    assert DecScalar(fs[i].ltype, fs[i].dataSize, [n]) == Ok(Num(n), []);
    var s := p.m[i].(has := true, v := Num(n));
    assert DecSlot(fs[i], p.m[i], Key(r) % 8, [n]) == Ok(s, []);
    assert UnionStart(fs, 0) == 0 && UnionStart(fs, 1) == 0;
    assert SameUnion(fs, i, j);
    assert Apply(fs, p, r).value.m == Put(fs, p.m, i, s);
  }

  lemma OneByte(n: Byte)
    requires n < 128
    ensures DecodeVarint([n]) == Ok(n, []) && DecodeVarint32([n]) == Ok(n, [])
  {
    assert EncVarint(n) == [n] && [n] + [] == [n];
    VarintRoundTrip(n, []);
    Varint32RoundTrip(n, []);
  }

  /** Two different members of one union do not commute, whatever their values: the one set last stays
      set. This is why the order of records is kept per union and not only per field. */
  lemma {:induction false} UnionOrderMatters(fs: seq<Field>, p: Progress, a: Record, b: Record, x: Byte, y: Byte)
    requires |p.m| == |fs| == 2 && x < 128 && y < 128 && a.body == [x] && b.body == [y]
    requires fs[0].htype.Oneof? && fs[1].htype.Oneof? && fs[1].dataOffset == PB_SIZE_MAX
    requires fs[0].ltype.UVarint? && fs[0].dataSize == 4 && fs[1].ltype.UVarint? && fs[1].dataSize == 4
    requires FindField(fs, Key(a) / 8) == 0 && FindField(fs, Key(b) / 8) == 1
    ensures ApplyAll(fs, p, [a, b]) != ApplyAll(fs, p, [b, a])
  {
    hide Apply;
    hide ApplyAll;
    hide Key;
    hide FindField;
    TwoRecords(fs, p, a, b);
    TwoRecords(fs, p, b, a);
    SetMember(fs, p, 0, 1, a, x);
    SetMember(fs, p, 1, 0, b, y);
    SetMember(fs, Apply(fs, p, a).value, 1, 0, b, y);
    SetMember(fs, Apply(fs, p, b).value, 0, 1, a, x);
    assert !DefaultSlot(fs[0]).has;
  }
}
