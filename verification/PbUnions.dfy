/** Unions: whatever bytes arrive, at most one member of each is set, at every depth of the message; setting one unsets
    the others and leaves every field outside the union alone. */
module PbUnions {
  import opened Octets
  import opened PbModel
  import opened PbParse
  import opened PbRoundTrip
  import opened PbVarint
  import opened PbWire

  /** Of every union of the message, and of the messages inside it, at most one member is set. */
  predicate OneEach(fs: seq<Field>, m: Message)
    decreases fs
  {
    |m| == |fs| && OneMemberSet(fs, m) && forall i :: 0 <= i < |fs| ==> OneEachSlot(fs[i], m[i])
  }

  predicate OneEachSlot(f: Field, s: Slot)
    decreases f, 1
  {
    OneEachValue(f, s.v) && forall i :: 0 <= i < |s.vs| ==> OneEachValue(f, s.vs[i])
  }

  predicate OneEachValue(f: Field, v: Value)
    decreases f, 0
  {
    f.ltype.LSubmessage? && v.Sub? ==> OneEach(f.sub, v.m)
  }

  lemma {:induction false} DefaultOneEach(fs: seq<Field>)
    ensures OneEach(fs, DefaultMessage(fs))
    decreases fs, 1
  {
    forall i | 0 <= i < |fs|
      ensures DefaultMessage(fs)[i] == DefaultSlot(fs[i]) && OneEachSlot(fs[i], DefaultSlot(fs[i]))
    {
      DefaultAt(fs, i);
      DefaultOneEach(fs[i].sub);
    }
  }

  lemma {:induction false} PutOneEach(fs: seq<Field>, m: Message, i: nat, s: Slot)
    requires OneEach(fs, m) && i < |fs| && OneEachSlot(fs[i], s)
    ensures OneEach(fs, Put(fs, m, i, s))
  {
    hide OneEachSlot;
    hide DefaultMessage;
    DefaultOneEach(fs);
    forall j | 0 <= j < |fs|
      ensures OneEachSlot(fs[j], Put(fs, m, i, s)[j])
    {
      DefaultAt(fs, j);
    }
    PutOneMember(fs, m, i, s);
  }

  lemma {:induction false} PutOneMember(fs: seq<Field>, m: Message, i: nat, s: Slot)
    requires i < |fs| == |m| && OneMemberSet(fs, m)
    ensures OneMemberSet(fs, Put(fs, m, i, s))
  {
    hide UnionStart;
    hide DefaultValue;
    var n := Put(fs, m, i, s);
    forall j, k | 0 <= j < |fs| && 0 <= k < |fs| && j != k && SameUnion(fs, j, k) && n[j].has
      ensures !n[k].has
    {
      assert SameUnion(fs, i, j) ==> SameUnion(fs, i, k);
      assert SameUnion(fs, i, k) ==> SameUnion(fs, i, j);
    }
  }

  lemma {:induction false} ValueOneEach(f: Field, cur: Value, bs: Bytes)
    requires OneEachValue(f, cur) && DecValue(f, cur, bs).Ok?
    ensures OneEachValue(f, DecValue(f, cur, bs).val)
    decreases f, 1
  {
    hide DecMessage;
    if f.ltype.LSubmessage? {
      DefaultOneEach(f.sub);
      MessageOneEach(f.sub, BaseMessage(f, cur), TakeString(bs).val);
    }
  }

  lemma {:induction false} SlotOneEach(f: Field, s: Slot, wt: nat, bs: Bytes)
    requires OneEachSlot(f, s) && DecSlot(f, s, wt, bs).Ok?
    ensures OneEachSlot(f, DecSlot(f, s, wt, bs).val)
    decreases f, 2
  {
    hide DecValue;
    hide DecPacked;
    if !f.htype.Repeated? {
      ValueOneEach(f, s.v, bs);
    } else if !(wt == WT_STRING && f.ltype.Packable()) {
      ValueOneEach(f, Num(0), bs);
    }
  }

  lemma {:induction false} FieldsOneEach(fs: seq<Field>, p: Progress, bs: Bytes)
    requires OneEach(fs, p.m) && DecFields(fs, p, bs).Ok?
    ensures OneEach(fs, DecFields(fs, p, bs).val.m)
    decreases fs, 3, |bs|
  {
    hide DecodeVarint32;
    hide SkipField;
    hide DecSlot;
    hide Put;
    hide OneMemberSet;
    hide OneEachSlot;
    if bs != [] && DecodeVarint32(bs).val != 0 {
      Decode32Shorter(bs);
      var t, rest := DecodeVarint32(bs).val, DecodeVarint32(bs).rest;
      var i := FindField(fs, t / 8);
      if i == |fs| {
        FieldsOneEach(fs, p, SkipField(t % 8, rest).rest);
      } else {
        var r := DecSlot(fs[i], p.m[i], t % 8, rest);
        SlotOneEach(fs[i], p.m[i], t % 8, rest);
        PutOneEach(fs, p.m, i, r.val);
        FieldsOneEach(fs, Progress(Put(fs, p.m, i, r.val), Note(fs, p.seen, i)), r.rest);
      }
    }
  }

  /** pb_decode_noinit keeps it, whatever the bytes. */
  lemma {:induction false} MessageOneEach(fs: seq<Field>, m: Message, bs: Bytes)
    requires OneEach(fs, m) && DecMessage(fs, m, bs).Ok?
    ensures OneEach(fs, DecMessage(fs, m, bs).val)
    decreases fs, 4
  {
    hide DecFields;
    FieldsOneEach(fs, Progress(m, {}), bs);
  }

  /** Whatever bytes pb_decode accepts, no two members of a union are set, in the message or in one inside it. */
  lemma {:induction false} DecodedOneEach(fs: seq<Field>, bs: Bytes)
    requires Decode(fs, bs).Ok?
    ensures OneEach(fs, Decode(fs, bs).val)
  {
    hide DecMessage;
    DefaultOneEach(fs);
    MessageOneEach(fs, DefaultMessage(fs), bs);
  }

  /** A record for a listed field sets that field, unsets the other members of its union and touches nothing else. */
  lemma {:induction false} RecordSets(fs: seq<Field>, p: Progress, r: Record, i: nat, j: nat)
    requires |p.m| == |fs| && FindField(fs, Key(r) / 8) == i < |fs| && j < |fs| && Apply(fs, p, r).Some?
    ensures var m := Apply(fs, p, r).value.m;
            && (!fs[i].htype.Repeated? ==> m[i].has)
            && (j != i ==> if SameUnion(fs, i, j) then !m[j].has else m[j] == p.m[j])
  {
    hide Key;
    hide DecValue;
    hide DecPacked;
    hide DefaultValue;
  }

  // ---------------------------------------------------------------- field number zero

  /** A key with field number 0 and a wire type fails in an empty table, whose terminator it matches; in any other table
      without a field 0 it is an unlisted field like every other. */
  lemma {:induction false} FieldNumberZero(fs: seq<Field>, p: Progress, t: nat, rest: Bytes)
    requires |p.m| == |fs| && 1 <= t <= 7 && forall i :: 0 <= i < |fs| ==> fs[i].tag != 0
    ensures DecFields(fs, p, [t] + rest)
         == (if fs == [] || SkipField(t, rest).Fail? then Fail else DecFields(fs, p, SkipField(t, rest).rest))
  {
    hide DecodeVarint32;
    hide SkipField;
    OneByte(t);
    assert EncVarint(t) == [t];
    Varint32RoundTrip(t, rest);
  }
}
