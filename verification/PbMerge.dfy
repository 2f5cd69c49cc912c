/** What repeating, leaving out or cutting short the records of a stream does: submessages merge, other single values
    are replaced, fields nobody sent keep their defaults, required fields have to be there, and a zero tag ends it. */
module PbMerge {
  import opened Octets
  import opened PbModel
  import opened PbParse
  import opened PbRoundTrip
  import opened PbVarint
  import opened PbWire

  // ---------------------------------------------------------------- required fields

  /** The required fields that a list of records brings. */
  function Noted(fs: seq<Field>, rs: seq<Record>): set<nat>
  {
    if rs == [] then {}
    else
      var i := FindField(fs, Key(rs[0]) / 8);
      (if i < |fs| then Note(fs, {}, i) else {}) + Noted(fs, rs[1..])
  }

  lemma {:induction false} SeenIsNoted(fs: seq<Field>, p: Progress, rs: seq<Record>)
    requires |p.m| == |fs| && ApplyAll(fs, p, rs).Some?
    ensures ApplyAll(fs, p, rs).value.seen == p.seen + Noted(fs, rs)
    decreases |rs|
  {
    hide DecSlot;
    hide Put;
    hide Key;
    if rs != [] {
      var q := Apply(fs, p, rs[0]).value;
      SeenIsNoted(fs, q, rs[1..]);
    }
  }

  lemma {:induction false} NotedJoin(fs: seq<Field>, rs: seq<Record>, qs: seq<Record>)
    ensures Noted(fs, rs + qs) == Noted(fs, rs) + Noted(fs, qs)
    decreases |rs|
  {
    hide Note;
    hide Key;
    if rs == [] {
      assert rs + qs == qs;
    } else {
      assert (rs + qs)[1..] == rs[1..] + qs;
      NotedJoin(fs, rs[1..], qs);
    }
  }

  predicate Sent(rs: seq<Record>, tag: nat)
  {
    exists j :: 0 <= j < |rs| && Key(rs[j]) / 8 == tag
  }

  lemma SentFirst(rs: seq<Record>, tag: nat)
    requires rs != []
    ensures Sent(rs, tag) <==> Key(rs[0]) / 8 == tag || Sent(rs[1..], tag)
  {
    hide Key;
    assert forall j :: 0 <= j < |rs[1..]| ==> rs[1..][j] == rs[j + 1];
  }

  /** Each of the first 64 required fields has a record. */
  predicate HasRequired(fs: seq<Field>, rs: seq<Record>)
  {
    forall i :: 0 <= i < |fs| && fs[i].htype.Required? && RequiredBefore(fs, i) < 64 ==> Sent(rs, fs[i].tag)
  }

  lemma {:induction false} RequiredRises(fs: seq<Field>, i: nat, j: nat)
    requires i < j <= |fs|
    ensures RequiredBefore(fs, i) + (if fs[i].htype.Required? then 1 else 0) <= RequiredBefore(fs, j)
    decreases j
  {
    if i < j - 1 {
      RequiredRises(fs, i, j - 1);
    }
  }

  /** Every number below the count belongs to a required field. */
  lemma {:induction false} RequiredAt(fs: seq<Field>, j: nat, n: nat) returns (i: nat)
    requires j <= |fs| && n < RequiredBefore(fs, j)
    ensures i < j && fs[i].htype.Required? && RequiredBefore(fs, i) == n
    decreases j
  {
    if n < RequiredBefore(fs, j - 1) {
      i := RequiredAt(fs, j - 1, n);
    } else {
      i := j - 1;
    }
  }

  lemma {:induction false} NotedIs(fs: seq<Field>, rs: seq<Record>, i: nat)
    requires DistinctTags(fs) && i < |fs| && fs[i].htype.Required?
    ensures RequiredBefore(fs, i) in Noted(fs, rs) <==> Sent(rs, fs[i].tag)
    decreases |rs|
  {
    hide Key;
    hide RequiredBefore;
    if rs != [] {
      NotedIs(fs, rs[1..], i);
      var k := FindField(fs, Key(rs[0]) / 8);
      if k < |fs| && k != i && fs[k].htype.Required? {
        RequiredRises(fs, if k < i then k else i, if k < i then i else k);
      }
      SentFirst(rs, fs[i].tag);
      FindItself(fs, i);
    }
  }

  lemma {:induction false} AllNoted(fs: seq<Field>, rs: seq<Record>)
    requires DistinctTags(fs)
    ensures AllSeen(fs, Noted(fs, rs)) <==> HasRequired(fs, rs)
  {
    hide Noted;
    hide Sent;
    hide RequiredBefore;
    forall i | 0 <= i < |fs| && fs[i].htype.Required?
      ensures RequiredBefore(fs, i) < RequiredBefore(fs, |fs|)
      ensures RequiredBefore(fs, i) in Noted(fs, rs) <==> Sent(rs, fs[i].tag)
    {
      RequiredRises(fs, i, |fs|);
      NotedIs(fs, rs, i);
    }
    if HasRequired(fs, rs) {
      forall n: nat | n < RequiredBefore(fs, |fs|) && n < 64
        ensures n in Noted(fs, rs)
      {
        var i := RequiredAt(fs, |fs|, n);
      }
    }
  }

  /** Decoding succeeds exactly when every record can be applied and each of the first 64 required fields was sent. */
  lemma {:induction false} RequiredMustBeSent(fs: seq<Field>, rs: seq<Record>)
    requires DistinctTags(fs) && forall i :: 0 <= i < |rs| ==> WholeRecord(fs, rs[i])
    ensures var q := ApplyAll(fs, Progress(DefaultMessage(fs), {}), rs);
            Decode(fs, Flatten(rs)) == if q.Some? && HasRequired(fs, rs) then Ok(q.value.m, []) else Fail
  {
    hide ApplyAll;
    hide Decode;
    hide HasRequired;
    hide AllSeen;
    hide WholeRecord;
    var p := Progress(DefaultMessage(fs), {});
    DecodeRecords(fs, rs);
    AllNoted(fs, rs);
    if ApplyAll(fs, p, rs).Some? {
      SeenIsNoted(fs, p, rs);
      assert p.seen + Noted(fs, rs) == Noted(fs, rs);
    }
  }

  // ---------------------------------------------------------------- submessages

  function SubRecord(f: Field, payload: Bytes): Record
  {
    Record(EncVarint(8 * f.tag + 2), EncString(payload))
  }

  /** A submessage that stands alone: neither an array entry nor a member of a union. */
  predicate Alone(f: Field)
  {
    f.ltype.LSubmessage? && (f.htype.Required? || f.htype.Optional?)
  }

  /** The slot holds a submessage of the right shape. */
  predicate Shaped(f: Field, s: Slot)
  {
    s.v.Sub? && |s.v.m| == |f.sub|
  }

  lemma SubKey(f: Field, payload: Bytes)
    requires 0 < f.tag < 0x2000_0000
    ensures Key(SubRecord(f, payload)) / 8 == f.tag && Key(SubRecord(f, payload)) % 8 == 2
  {
    hide EncVarint;
    hide DecodeVarint32;
    var t := 8 * f.tag + 2;
    Varint32RoundTrip(t, []);
    assert EncVarint(t) + [] == EncVarint(t);
    SplitKey(f.tag, 2);
  }

  lemma {:induction false} SubSlot(f: Field, s: Slot, payload: Bytes)
    requires Alone(f) && Shaped(f, s) && |payload| < U32
    ensures DecSlot(f, s, 2, EncString(payload))
         == (var r := DecMessage(f.sub, s.v.m, payload);
             if r.Fail? then Fail else Ok(s.(has := true, v := Sub(r.val)), []))
  {
    hide EncString;
    hide DecMessage;
    hide DecodeVarint32;
    TakeStringRoundTrip(payload, []);
    assert EncString(payload) + [] == EncString(payload);
  }

  function Stored(p: Progress, k: nat, m: Message, seen: set<nat>): (q: Progress)
    requires k < |p.m|
    ensures |q.m| == |p.m|
  {
    Progress(p.m[k := p.m[k].(has := true, v := Sub(m))], seen)
  }

  lemma {:induction false} ApplySub(fs: seq<Field>, p: Progress, k: nat, payload: Bytes)
    requires |p.m| == |fs| && k < |fs| && WellFormed(fs) && Alone(fs[k]) && Shaped(fs[k], p.m[k]) && |payload| < U32
    ensures Apply(fs, p, SubRecord(fs[k], payload))
         == (var r := DecMessage(fs[k].sub, p.m[k].v.m, payload);
             if r.Fail? then None else Some(Stored(p, k, r.val, Note(fs, p.seen, k))))
  {
    hide EncString;
    hide DecMessage;
    hide DecSlot;
    hide Key;
    hide Put;
    hide Note;
    var f := fs[k];
    assert WellFormedField(f);
    SubKey(f, payload);
    FindItself(fs, k);
    SubSlot(f, p.m[k], payload);
    var r := DecMessage(f.sub, p.m[k].v.m, payload);
    if r.Ok? {
      PutPlain(fs, p.m, k, p.m[k].(has := true, v := Sub(r.val)));
    }
  }

  /** Decoding whole records into any message. */
  lemma {:induction false} DecodeInto(fs: seq<Field>, m: Message, rs: seq<Record>)
    requires |m| == |fs| && DistinctTags(fs) && forall i :: 0 <= i < |rs| ==> WholeRecord(fs, rs[i])
    ensures var q := ApplyAll(fs, Progress(m, {}), rs);
            DecMessage(fs, m, Flatten(rs)) == if q.Some? && HasRequired(fs, rs) then Ok(q.value.m, []) else Fail
  {
    hide ApplyAll;
    hide DecFields;
    hide HasRequired;
    hide AllSeen;
    hide WholeRecord;
    var p := Progress(m, {});
    ReadRecords(fs, p, rs);
    AllNoted(fs, rs);
    if ApplyAll(fs, p, rs).Some? {
      SeenIsNoted(fs, p, rs);
      assert p.seen + Noted(fs, rs) == Noted(fs, rs);
    }
  }

  /** What was seen before does not change what records do to a message. */
  lemma {:induction false} ApplySameMessage(fs: seq<Field>, p: Progress, q: Progress, rs: seq<Record>)
    requires |p.m| == |fs| && p.m == q.m
    ensures ApplyAll(fs, p, rs).Some? <==> ApplyAll(fs, q, rs).Some?
    ensures ApplyAll(fs, p, rs).Some? ==> ApplyAll(fs, p, rs).value.m == ApplyAll(fs, q, rs).value.m
    decreases |rs|
  {
    hide DecSlot;
    hide Put;
    hide Key;
    if rs != [] && Apply(fs, p, rs[0]).Some? {
      ApplySameMessage(fs, Apply(fs, p, rs[0]).value, Apply(fs, q, rs[0]).value, rs[1..]);
    }
  }

  lemma {:induction false} DecodeTwice(fs: seq<Field>, m: Message, ra: seq<Record>, rb: seq<Record>)
    requires |m| == |fs| && DistinctTags(fs)
    requires forall i :: 0 <= i < |ra| ==> WholeRecord(fs, ra[i])
    requires forall i :: 0 <= i < |rb| ==> WholeRecord(fs, rb[i])
    ensures DecMessage(fs, m, Flatten(ra + rb)).Ok? && HasRequired(fs, ra) && HasRequired(fs, rb)
       <==> DecMessage(fs, m, Flatten(ra)).Ok? && DecMessage(fs, DecMessage(fs, m, Flatten(ra)).val, Flatten(rb)).Ok?
    ensures HasRequired(fs, ra) && HasRequired(fs, rb) && DecMessage(fs, m, Flatten(ra + rb)).Ok? ==>
            DecMessage(fs, DecMessage(fs, m, Flatten(ra)).val, Flatten(rb)) == DecMessage(fs, m, Flatten(ra + rb))
  {
    hide DecMessage;
    hide ApplyAll;
    hide WholeRecord;
    hide Sent;
    DecodeInto(fs, m, ra + rb);
    DecodeInto(fs, m, ra);
    ApplySplit(fs, Progress(m, {}), ra, rb);
    SentLonger(fs, ra, rb);
    var q := ApplyAll(fs, Progress(m, {}), ra);
    if q.Some? {
      DecodeInto(fs, q.value.m, rb);
      ApplySameMessage(fs, q.value, Progress(q.value.m, {}), rb);
    }
  }

  lemma SentLonger(fs: seq<Field>, ra: seq<Record>, rb: seq<Record>)
    ensures HasRequired(fs, ra) ==> HasRequired(fs, ra + rb)
  {
    if HasRequired(fs, ra) {
      forall i | 0 <= i < |fs| && fs[i].htype.Required? && RequiredBefore(fs, i) < 64
        ensures Sent(ra + rb, fs[i].tag)
      {
        var j :| 0 <= j < |ra| && Key(ra[j]) / 8 == fs[i].tag;
        assert (ra + rb)[j] == ra[j];
      }
    }
  }

  /** Two records for one submessage, in terms of decoding their payloads one into the other. */
  lemma {:induction false} ApplySubTwice(fs: seq<Field>, p: Progress, k: nat, a: Bytes, b: Bytes)
    requires |p.m| == |fs| && k < |fs| && WellFormed(fs) && Alone(fs[k]) && Shaped(fs[k], p.m[k])
    requires |a| < U32 && |b| < U32
    ensures var x := DecMessage(fs[k].sub, p.m[k].v.m, a);
            ApplyAll(fs, p, [SubRecord(fs[k], a), SubRecord(fs[k], b)])
            == if x.Fail? || DecMessage(fs[k].sub, x.val, b).Fail? then None
            else Some(Stored(p, k, DecMessage(fs[k].sub, x.val, b).val, Note(fs, p.seen, k)))
  {
    hide Apply;
    hide ApplyAll;
    hide DecMessage;
    hide WellFormed;
    var f := fs[k];
    TwoRecords(fs, p, SubRecord(f, a), SubRecord(f, b));
    ApplySub(fs, p, k, a);
    var x := DecMessage(f.sub, p.m[k].v.m, a);
    if x.Ok? {
      var q := Stored(p, k, x.val, Note(fs, p.seen, k));
      ApplySub(fs, q, k, b);
      assert Note(fs, q.seen, k) == q.seen;
      var y := DecMessage(f.sub, x.val, b);
      if y.Ok? {
        assert Stored(q, k, y.val, q.seen) == Stored(p, k, y.val, q.seen);
      }
    }
  }

  /** A submessage that comes in two records is merged: the second is read into what the first left, so that the two
      do what one record with both payloads does; except that each of them has to bring all the required fields. */
  lemma {:induction false} SubmessagesMerge(fs: seq<Field>, p: Progress, k: nat, ra: seq<Record>, rb: seq<Record>)
    requires |p.m| == |fs| && k < |fs| && WellFormed(fs) && Alone(fs[k]) && Shaped(fs[k], p.m[k])
    requires forall i :: 0 <= i < |ra| ==> WholeRecord(fs[k].sub, ra[i])
    requires forall i :: 0 <= i < |rb| ==> WholeRecord(fs[k].sub, rb[i])
    requires |Flatten(ra) + Flatten(rb)| < U32
    ensures ApplyAll(fs, p, [SubRecord(fs[k], Flatten(ra)), SubRecord(fs[k], Flatten(rb))])
         == if HasRequired(fs[k].sub, ra) && HasRequired(fs[k].sub, rb)
            then Apply(fs, p, SubRecord(fs[k], Flatten(ra) + Flatten(rb))) else None
  {
    hide Apply;
    hide ApplyAll;
    hide DecMessage;
    hide WholeRecord;
    hide HasRequired;
    hide Note;
    hide Stored;
    hide SubRecord;
    var f, a, b := fs[k], Flatten(ra), Flatten(rb);
    assert DistinctTags(f.sub) by { assert WellFormedField(f) && WellFormed(f.sub); }
    hide WellFormed;
    ApplySubTwice(fs, p, k, a, b);
    ApplySub(fs, p, k, a + b);
    FlattenJoin(ra, rb);
    DecodeTwice(f.sub, p.m[k].v.m, ra, rb);
  }

  /** An array entry or a member of a union starts afresh: it is what pb_decode makes of its payload. */
  lemma {:induction false} EntryStartsAfresh(f: Field, cur: Value, bs: Bytes)
    requires f.ltype.LSubmessage? && (f.htype.Repeated? || f.htype.Oneof?)
    ensures DecValue(f, cur, bs)
         == match TakeString(bs)
            case Fail => Fail
            case Ok(payload, rest) => match Decode(f.sub, payload) case Fail => Fail case Ok(sub, _) => Ok(Sub(sub), rest)
  {
  }

  /** Any other single value replaces the one before it: what the slot held does not matter. */
  lemma {:induction false} LastValueWins(f: Field, s: Slot, t: Slot, wt: nat, bs: Bytes)
    requires !f.htype.Repeated? && !Alone(f)
    ensures match DecSlot(f, s, wt, bs)
            case Fail => DecSlot(f, t, wt, bs) == Fail
            case Ok(u, rest) => u.has && DecSlot(f, t, wt, bs) == Ok(t.(has := true, v := u.v), rest)
  {
    hide DecMessage;
    hide TakeString;
    hide DecScalar;
    hide DecString;
    assert DecValue(f, s.v, bs) == DecValue(f, t.v, bs) by {
      if f.ltype.LSubmessage? {
        assert BaseMessage(f, s.v) == BaseMessage(f, t.v);
      }
    }
  }

  // ---------------------------------------------------------------- fields nobody sent

  /** A field as it is before anything was decoded: an array is empty, an optional field or a member of a union is not
      set, and a value is the table's default, or zero, or empty; a submessage is so throughout. */
  predicate Untouched(f: Field, s: Slot)
    decreases f, 1
  {
    if f.htype.Repeated? then s.vs == []
    else
      && (f.htype.Oneof? || (f.htype.Optional? && f.sizeOffset != 0) ==> !s.has)
      && (!f.htype.Oneof? ==> Preset(f, s.v))
  }

  predicate Preset(f: Field, v: Value)
    decreases f, 0
  {
    match f.ltype
    case LSubmessage => v.Sub? && |v.m| == |f.sub| && forall i :: 0 <= i < |f.sub| ==> Untouched(f.sub[i], v.m[i])
    case LBytes | LString => v == if f.default.Some? then f.default.value else Str([])
    case FixedLengthBytes =>
      if f.default.Some? then v == f.default.value
      else v.Str? && |v.b| == f.dataSize && forall i :: 0 <= i < |v.b| ==> v.b[i] == 0
    case _ => v == if f.default.Some? then f.default.value else Num(0)
  }

  lemma {:induction false} DefaultUntouched(f: Field)
    ensures Untouched(f, DefaultSlot(f))
    decreases f
  {
    if f.ltype.LSubmessage? {
      forall i | 0 <= i < |f.sub|
        ensures Untouched(f.sub[i], DefaultMessage(f.sub)[i])
      {
        DefaultAt(f.sub, i);
        DefaultUntouched(f.sub[i]);
      }
      assert Preset(f, DefaultValue(f));
    }
  }

  lemma {:induction false} OthersStay(fs: seq<Field>, p: Progress, rs: seq<Record>, i: nat)
    requires |p.m| == |fs| && i < |fs| && ApplyAll(fs, p, rs).Some?
    requires forall j :: 0 <= j < |rs| && Known(fs, rs[j]) ==> FindField(fs, Key(rs[j]) / 8) != i && !SameUnion(fs, FindField(fs, Key(rs[j]) / 8), i)
    ensures ApplyAll(fs, p, rs).value.m[i] == p.m[i]
    decreases |rs|
  {
    hide DecSlot;
    hide Key;
    hide SameUnion;
    if rs != [] {
      var q := Apply(fs, p, rs[0]).value;
      assert q.m[i] == p.m[i] by {
        assert Known(fs, rs[0]) ==> FindField(fs, Key(rs[0]) / 8) != i && !SameUnion(fs, FindField(fs, Key(rs[0]) / 8), i);
      }
      OthersStay(fs, q, rs[1..], i);
    }
  }

  /** A field for which, and for whose union, no record came is as it was at the beginning. */
  lemma {:induction false} UnsentStaysUntouched(fs: seq<Field>, rs: seq<Record>, i: nat)
    requires i < |fs| && forall j :: 0 <= j < |rs| ==> WholeRecord(fs, rs[j])
    requires forall j :: 0 <= j < |rs| && Known(fs, rs[j]) ==> FindField(fs, Key(rs[j]) / 8) != i && !SameUnion(fs, FindField(fs, Key(rs[j]) / 8), i)
    ensures Decode(fs, Flatten(rs)).Ok? ==>
      |Decode(fs, Flatten(rs)).val| == |fs| && Untouched(fs[i], Decode(fs, Flatten(rs)).val[i])
  {
    hide Decode;
    hide ApplyAll;
    hide WholeRecord;
    hide SameUnion;
    hide Key;
    hide Untouched;
    var p := Progress(DefaultMessage(fs), {});
    DecodeRecords(fs, rs);
    if ApplyAll(fs, p, rs).Some? {
      OthersStay(fs, p, rs, i);
      DefaultAt(fs, i);
      DefaultUntouched(fs[i]);
    }
  }

  // ---------------------------------------------------------------- where a stream ends

  lemma {:induction false} ReadRecordsThen(fs: seq<Field>, p: Progress, rs: seq<Record>, more: Bytes)
    requires |p.m| == |fs| && forall i :: 0 <= i < |rs| ==> WholeRecord(fs, rs[i])
    ensures DecFields(fs, p, Flatten(rs) + more)
         == (var q := ApplyAll(fs, p, rs); if q.None? then Fail else DecFields(fs, q.value, more))
    decreases |rs|
  {
    hide Apply;
    hide WholeRecord;
    hide DecFields;
    if rs == [] {
      assert Flatten(rs) + more == more;
    } else {
      assert Flatten(rs) + more == rs[0].head + rs[0].body + (Flatten(rs[1..]) + more);
      ReadRecord(fs, p, rs[0], Flatten(rs[1..]) + more);
      var q := Apply(fs, p, rs[0]);
      if q.Some? {
        ReadRecordsThen(fs, q.value, rs[1..], more);
      }
    }
  }

  /** A zero byte where a key should be ends the message; what follows it is left in the stream. */
  lemma {:induction false} ZeroEndsMessage(fs: seq<Field>, rs: seq<Record>, more: Bytes)
    requires forall i :: 0 <= i < |rs| ==> WholeRecord(fs, rs[i])
    ensures Decode(fs, Flatten(rs) + [0] + more)
         == (var d := Decode(fs, Flatten(rs)); if d.Fail? then Fail else Ok(d.val, more))
  {
    hide ApplyAll;
    hide WholeRecord;
    hide DecFields;
    hide Flatten;
    hide AllSeen;
    hide DefaultMessage;
    var p := Progress(DefaultMessage(fs), {});
    assert Flatten(rs) + [0] + more == Flatten(rs) + ([0] + more) && Flatten(rs) + [] == Flatten(rs);
    ReadRecordsThen(fs, p, rs, [0] + more);
    ReadRecordsThen(fs, p, rs, []);
    var q := ApplyAll(fs, p, rs);
    if q.Some? {
      ZeroKey(fs, q.value, more);
    }
  }

  lemma {:induction false} ZeroKey(fs: seq<Field>, p: Progress, more: Bytes)
    requires |p.m| == |fs|
    ensures DecFields(fs, p, [0] + more) == Ok(p, more) && DecFields(fs, p, []) == Ok(p, [])
  {
    assert ([0] + more)[1..] == more;
    assert DecodeVarint32([0] + more) == Ok(0, more);
  }
}
