/** Tables that grow: a reader with the old table and a writer with the new one, and the other way round. */
module PbEvolution {
  import opened Octets
  import opened PbFormat
  import opened PbModel
  import opened PbObserve
  import opened PbParse
  import opened PbRoundTrip
  import opened PbVarint
  import opened PbWire

  lemma {:induction false} OnlyKnown(fs: seq<Field>, rs: seq<Record>, qs: seq<Record>)
    requires forall i :: 0 <= i < |rs| ==> Known(fs, rs[i])
    requires forall i :: 0 <= i < |qs| ==> !Known(fs, qs[i])
    ensures KnownOnly(fs, rs + qs) == rs
    decreases |rs| + |qs|
  {
    hide Known;
    if rs != [] {
      assert (rs + qs)[1..] == rs[1..] + qs;
      OnlyKnown(fs, rs[1..], qs);
    } else if qs != [] {
      assert rs + qs == qs;
      assert [] + qs[1..] == qs[1..];
      OnlyKnown(fs, [], qs[1..]);
    }
  }

  lemma {:induction false} UnionStartPrefix(fs: seq<Field>, gs: seq<Field>, i: nat)
    requires i < |fs|
    ensures UnionStart(fs + gs, i) == UnionStart(fs, i)
  {
    if InsideUnion(fs, i) {
      UnionStartPrefix(fs, gs, i - 1);
    }
  }

  /** What holds of a table and a message holds of their first part. */
  lemma {:induction false} FirstPart(fs: seq<Field>, gs: seq<Field>, m: Message, n: Message)
    requires |m| == |fs| && WellFormed(fs + gs) && TypedMessage(fs + gs, m + n) && StorableMessage(fs + gs, m + n)
    ensures WellFormed(fs) && TypedMessage(fs, m) && StorableMessage(fs, m)
  {
    hide WellFormedField;
    hide TypedSlot;
    hide StorableSlot;
    var hs, ms := fs + gs, m + n;
    assert forall i :: 0 <= i < |fs| ==> hs[i] == fs[i] && ms[i] == m[i];
    assert DistinctTags(fs) by {
      assert forall i, j :: 0 <= i < j < |fs| ==> hs[i].tag != hs[j].tag;
    }
    forall i, j | 0 <= i < |fs| && 0 <= j < |fs| && i != j && SameUnion(fs, i, j) && m[i].has
      ensures !m[j].has
    {
      UnionStartPrefix(fs, gs, i);
      UnionStartPrefix(fs, gs, j);
      assert SameUnion(hs, i, j);
    }
  }

  /** A reader that knows only the first fields of a table reads a message written with all of it as if the others had
      never been there. */
  lemma {:induction false} OldReader(fs: seq<Field>, gs: seq<Field>, m: Message, n: Message)
    requires |m| == |fs| && WellFormed(fs + gs) && TypedMessage(fs + gs, m + n) && StorableMessage(fs + gs, m + n)
    ensures TypedMessage(fs, m) && EncMessage(fs + gs, m + n).Some?
    ensures Decode(fs, EncMessage(fs + gs, m + n).value) == Ok(Norm(fs, m), [])
  {
    hide Decode;
    hide EncMessage;
    hide StorableMessage;
    hide WholeRecord;
    hide Known;
    hide Norm;
    hide Carries;
    FirstPart(fs, gs, m, n);
    Parts(fs + gs, m + n);
    var hs, ms := fs + gs, m + n;
    Parts(fs, m);
    var rs := MessageRecords(fs, m);
    assert forall i :: 0 <= i < |gs| ==> gs[i] == hs[|fs| + i] && n[i] == ms[|fs| + i];
    var qs := MessageRecords(gs, n);
    EncodeJoin(fs, gs, m, n);
    FlattenJoin(rs, qs);
    forall i | 0 <= i < |rs|
      ensures WholeRecord(fs, rs[i]) && Known(fs, rs[i])
    {
      var k :| 0 <= k < |fs| && Carries(fs[k], rs[i]);
      RecordWhole(fs, fs[k], rs[i]);
    }
    forall i | 0 <= i < |qs|
      ensures WholeRecord(fs, qs[i]) && !Known(fs, qs[i])
    {
      var k :| 0 <= k < |gs| && Carries(gs[k], qs[i]);
      assert gs[k] == hs[|fs| + k];
      assert forall j :: 0 <= j < |fs| ==> hs[j] == fs[j] && hs[j].tag != hs[|fs| + k].tag;
      RecordWhole(fs, gs[k], qs[i]);
    }
    OnlyKnown(fs, rs, qs);
    UnknownFieldsIgnored(fs, rs + qs);
    MessageRoundTrip(fs, m);
  }

  lemma {:induction false} Parts(fs: seq<Field>, m: Message)
    requires WellFormed(fs) && TypedMessage(fs, m) && StorableMessage(fs, m)
    ensures forall i :: 0 <= i < |fs| ==>
      TypedSlot(fs[i], m[i]) && WellFormedField(fs[i]) && StorableSlot(fs[i], m[i]) && 0 < fs[i].tag < 0x2000_0000
    ensures DistinctTags(fs)
  {
    forall i | 0 <= i < |fs|
      ensures TypedSlot(fs[i], m[i]) && WellFormedField(fs[i]) && StorableSlot(fs[i], m[i]) && 0 < fs[i].tag < 0x2000_0000
    {
      assert WellFormedField(fs[i]);
    }
  }

  lemma {:induction false} EncodeJoin(fs: seq<Field>, gs: seq<Field>, m: Message, n: Message)
    requires TypedMessage(fs, m) && TypedMessage(gs, n) && TypedMessage(fs + gs, m + n)
    requires EncMessage(fs, m).Some? && EncMessage(gs, n).Some?
    ensures EncMessage(fs + gs, m + n) == Some(EncMessage(fs, m).value + EncMessage(gs, n).value)
    decreases |fs|
  {
    hide EncSlot;
    hide TypedSlot;
    if fs == [] {
      assert fs + gs == gs && m + n == n;
      assert [] + EncMessage(gs, n).value == EncMessage(gs, n).value;
    } else {
      assert (fs + gs)[1..] == fs[1..] + gs && (m + n)[1..] == m[1..] + n;
      EncodeJoin(fs[1..], gs, m[1..], n);
      var a, b, c := EncSlot(fs[0], m[0]).value, EncMessage(fs[1..], m[1..]).value, EncMessage(gs, n).value;
      assert a + (b + c) == a + b + c;
    }
  }

  lemma {:induction false} NormJoin(fs: seq<Field>, gs: seq<Field>, m: Message, n: Message)
    requires TypedMessage(fs, m) && TypedMessage(gs, n) && TypedMessage(fs + gs, m + n)
    ensures Norm(fs + gs, m + n) == Norm(fs, m) + Norm(gs, n)
    decreases |fs|
  {
    hide NormSlot;
    hide TypedSlot;
    if fs == [] {
      assert fs + gs == gs && m + n == n;
    } else {
      assert (fs + gs)[1..] == fs[1..] + gs && (m + n)[1..] == m[1..] + n;
      NormJoin(fs[1..], gs, m[1..], n);
    }
  }

  /** A reader whose table has more fields reads an old message and finds the others at their defaults, if the encoder
      leaves those out. */
  lemma {:induction false} NewReader(fs: seq<Field>, gs: seq<Field>, m: Message)
    requires WellFormed(fs + gs) && TypedMessage(fs, m) && StorableMessage(fs, m)
    requires TypedMessage(gs, DefaultMessage(gs)) && AllAbsent(gs, DefaultMessage(gs))
    ensures EncMessage(fs, m).Some?
    ensures Decode(fs + gs, EncMessage(fs, m).value) == Ok(Norm(fs, m) + DefaultMessage(gs), [])
  {
    hide Decode;
    hide EncMessage;
    hide Norm;
    hide DefaultMessage;
    hide TypedSlot;
    hide WellFormedField;
    var hs, ms := fs + gs, m + DefaultMessage(gs);
    assert TypedMessage(hs, ms);
    NewStorable(fs, gs, m);
    MessageRoundTrip(hs, ms);
    FirstPart(fs, gs, m, DefaultMessage(gs));
    MessageRoundTrip(fs, m);
    AbsentIsNothing(gs, DefaultMessage(gs));
    EncodeJoin(fs, gs, m, DefaultMessage(gs));
    assert EncMessage(fs, m).value + [] == EncMessage(fs, m).value;
    NormJoin(fs, gs, m, DefaultMessage(gs));
    AllAbsentIsDefault(gs, DefaultMessage(gs));
  }

  lemma {:induction false} NewStorable(fs: seq<Field>, gs: seq<Field>, m: Message)
    requires TypedMessage(fs, m) && StorableMessage(fs, m) && TypedMessage(fs + gs, m + DefaultMessage(gs))
    requires TypedMessage(gs, DefaultMessage(gs)) && AllAbsent(gs, DefaultMessage(gs))
    ensures StorableMessage(fs + gs, m + DefaultMessage(gs))
  {
    hide TypedSlot;
    hide Storable;
    var hs, ms := fs + gs, m + DefaultMessage(gs);
    forall i | 0 <= i < |hs|
      ensures StorableSlot(hs[i], ms[i])
    {
      if i < |fs| {
        assert StorableSlot(fs[i], m[i]);
      } else {
        assert Absent(gs[i - |fs|], DefaultMessage(gs)[i - |fs|]);
      }
    }
    forall i, j | 0 <= i < |hs| && 0 <= j < |hs| && i != j && SameUnion(hs, i, j) && ms[i].has
      ensures !ms[j].has
    {
      if i < |fs| && j < |fs| {
        UnionStartPrefix(fs, gs, i);
        UnionStartPrefix(fs, gs, j);
        assert SameUnion(fs, i, j);
      } else if j >= |fs| {
        assert Absent(gs[j - |fs|], DefaultMessage(gs)[j - |fs|]);
      }
    }
  }
}
