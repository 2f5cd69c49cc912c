/** A stream cut short inside a record never decodes. */
module PbTruncation {
  import opened Octets
  import opened PbMerge
  import opened PbModel
  import opened PbParse
  import opened PbRoundTrip
  import opened PbVarint
  import opened PbWire

  /** A reader that succeeds on `bs` does the same when more follows, and leaves that too. */
  predicate Local<T(==)>(a: Parse<T>, b: Parse<T>, more: Bytes)
  {
    a.Ok? ==> b == Ok(a.val, a.rest + more)
  }

  lemma VarintLocal(bs: Bytes, more: Bytes)
    ensures Local(DecodeVarint(bs), DecodeVarint(bs + more), more)
  {
    hide Groups;
    var n := Scan(bs);
    if n > 0 {
      ScanLocal(bs, more);
      assert (bs + more)[..n] == bs[..n] && (bs + more)[n..] == bs[n..] + more;
    }
  }

  lemma ScalarLocal(t: LType, size: nat, bs: Bytes, more: Bytes)
    requires t.Packable()
    ensures Local(DecScalar(t, size, bs), DecScalar(t, size, bs + more), more)
  {
    hide DecodeVarint;
    if t.Fixed32? || t.Fixed64? {
      var n := if t.Fixed32? then 4 else 8;
      if n <= |bs| {
        TakeLocal(bs, more, n);
      }
    } else {
      VarintLocal(bs, more);
    }
  }

  lemma StringLocal(t: LType, size: nat, bs: Bytes, more: Bytes)
    ensures Local(DecString(t, size, bs), DecString(t, size, bs + more), more)
  {
    hide DecodeVarint32;
    var p := DecodeVarint32(bs);
    if p.Ok? {
      Dec32Local(bs, more);
      if p.val <= |p.rest| {
        TakeLocal(p.rest, more, p.val);
      }
    }
  }

  lemma {:induction false} ValueLocal(f: Field, cur: Value, bs: Bytes, more: Bytes)
    ensures Local(DecValue(f, cur, bs), DecValue(f, cur, bs + more), more)
  {
    hide DecScalar;
    hide DecString;
    hide TakeString;
    hide DecMessage;
    if f.ltype.Packable() {
      ScalarLocal(f.ltype, f.dataSize, bs, more);
    } else if !f.ltype.LSubmessage? {
      StringLocal(f.ltype, f.dataSize, bs, more);
    } else if TakeString(bs).Ok? {
      TakeStringLocal(bs, more);
    }
  }

  lemma {:induction false} SlotLocal(f: Field, s: Slot, wt: nat, bs: Bytes, more: Bytes)
    ensures Local(DecSlot(f, s, wt, bs), DecSlot(f, s, wt, bs + more), more)
  {
    hide DecValue;
    hide TakeString;
    hide DecPacked;
    if f.htype.Repeated? && wt == WT_STRING && f.ltype.Packable() {
      if TakeString(bs).Ok? {
        TakeStringLocal(bs, more);
      }
    } else {
      ValueLocal(f, if f.htype.Repeated? then Num(0) else s.v, bs, more);
    }
  }

  lemma SkipLocal(wt: nat, bs: Bytes, more: Bytes)
    ensures Local(SkipField(wt, bs), SkipField(wt, bs + more), more)
  {
    hide TakeString;
    if wt == WT_VARINT {
      if Scan(bs) > 0 {
        ScanLocal(bs, more);
        assert (bs + more)[Scan(bs)..] == bs[Scan(bs)..] + more;
      }
    } else if wt == WT_STRING {
      if TakeString(bs).Ok? {
        TakeStringLocal(bs, more);
      }
    } else {
      var n := if wt == WT_64BIT then 8 else 4;
      if n <= |bs| {
        TakeLocal(bs, more, n);
      }
    }
  }

  /** A part of a payload is not enough. */
  lemma PartOfPayload(fs: seq<Field>, p: Progress, r: Record, part: Bytes, more: Bytes)
    requires |p.m| == |fs| && WholeRecord(fs, r) && r.body == part + more && more != []
    ensures Continue(fs, p, Key(r), part) == Fail
  {
    hide DecFields;
    hide DecSlot;
    hide SkipField;
    hide WholePayload;
    hide Key;
    hide Put;
    hide Note;
    var i, wt := FindField(fs, Key(r) / 8), Key(r) % 8;
    if i == |fs| {
      SkipLocal(wt, part, more);
      SkipWhole(wt, r.body, []);
      assert r.body + [] == r.body;
    } else {
      SlotLocal(fs[i], p.m[i], wt, part, more);
      SlotWhole(fs[i], p.m[i], wt, r.body, []);
      assert r.body + [] == r.body;
    }
  }

  lemma {:induction false} PartOfRecord(fs: seq<Field>, p: Progress, r: Record, part: Bytes, more: Bytes)
    requires |p.m| == |fs| && WholeRecord(fs, r) && r.head + r.body == part + more && part != [] && more != []
    ensures DecFields(fs, p, part) == Fail
  {
    hide DecodeVarint32;
    hide Continue;
    hide WholePayload;
    var n := |r.head|;
    if |part| < n {
      assert r.head == part + r.head[|part|..] by {
        assert (r.head + r.body)[..|part|] == r.head[..|part|] && (part + more)[..|part|] == part;
      }
      if DecodeVarint32(part).Ok? {
        Dec32Local(part, r.head[|part|..]);
      }
    } else {
      assert part == r.head + part[n..] by {
        assert (r.head + r.body)[..n] == r.head && (part + more)[..n] == part[..n];
      }
      assert r.body == part[n..] + more by {
        assert (r.head + r.body)[n..] == r.body && (part + more)[n..] == part[n..] + more;
      }
      ReadHead(fs, p, r.head, Key(r), part[n..]);
      PartOfPayload(fs, p, r, part[n..], more);
    }
  }

  /** Whatever the table, a stream of whole records that breaks off inside the last one fails. */
  lemma {:induction false} CutShortFails(fs: seq<Field>, rs: seq<Record>, r: Record, part: Bytes, more: Bytes)
    requires WholeRecord(fs, r) && forall i :: 0 <= i < |rs| ==> WholeRecord(fs, rs[i])
    requires r.head + r.body == part + more && part != [] && more != []
    ensures Decode(fs, Flatten(rs) + part) == Fail
  {
    hide ApplyAll;
    hide WholeRecord;
    hide DecFields;
    hide Flatten;
    hide AllSeen;
    hide DefaultMessage;
    var p := Progress(DefaultMessage(fs), {});
    ReadRecordsThen(fs, p, rs, part);
    var q := ApplyAll(fs, p, rs);
    if q.Some? {
      PartOfRecord(fs, q.value, r, part, more);
    }
  }
}
