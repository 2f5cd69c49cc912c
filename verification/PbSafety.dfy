/** Whatever bytes arrive, decoding stays within the storage each field has. */
module PbSafety {
  import opened Octets
  import opened PbVarint
  import opened PbModel
  import opened PbParse

  /** The value is of the field's type and lies within its storage. */
  predicate Held(f: Field, v: Value)
    decreases f, 0
  {
    && Typed(f, v)
    && match f.ltype
       case LString => |v.b| + 1 <= f.dataSize
       case LBytes => |v.b| + BYTES_OFFSET <= f.dataSize
       case LSubmessage => HeldMessage(f.sub, v.m)
       case _ => true
  }

  predicate HeldSlot(f: Field, s: Slot)
    decreases f, 1
  {
    && TypedSlot(f, s)
    && if f.htype.Repeated? then |s.vs| <= f.arraySize && forall i :: 0 <= i < |s.vs| ==> Held(f, s.vs[i])
       else Held(f, s.v)
  }

  predicate HeldMessage(fs: seq<Field>, m: Message)
    decreases fs
  {
    |m| == |fs| && forall i :: 0 <= i < |fs| ==> HeldSlot(fs[i], m[i])
  }

  /** Tables whose default values are storable, all the way down. */
  predicate GoodDefaults(fs: seq<Field>)
    decreases fs
  {
    forall i :: 0 <= i < |fs| ==> GoodDefault(fs[i])
  }

  predicate GoodDefault(f: Field)
    decreases f
  {
    && f.dataSize <= PB_SIZE_MAX
    && (f.ltype.LSubmessage? || f.htype.Repeated? || Held(f, DefaultValue(f)))
    && GoodDefaults(f.sub)
  }

  lemma {:induction false} MessageTyped(fs: seq<Field>, m: Message)
    requires HeldMessage(fs, m)
    ensures TypedMessage(fs, m)
  {
    forall i | 0 <= i < |fs|
      ensures TypedSlot(fs[i], m[i])
    {
      assert HeldSlot(fs[i], m[i]);
    }
  }

  lemma {:induction false} DefaultHeld(fs: seq<Field>)
    requires GoodDefaults(fs)
    ensures HeldMessage(fs, DefaultMessage(fs))
    decreases fs, 1
  {
    if fs != [] {
      assert GoodDefault(fs[0]);
      if !fs[0].htype.Repeated? && fs[0].ltype.LSubmessage? {
        DefaultHeld(fs[0].sub);
        MessageTyped(fs[0].sub, DefaultMessage(fs[0].sub));
        assert Held(fs[0], Sub(DefaultMessage(fs[0].sub)));
      }
      assert fs[0].htype.Repeated? || Held(fs[0], DefaultValue(fs[0]));
      assert HeldSlot(fs[0], DefaultSlot(fs[0]));
      assert forall i :: 0 <= i < |fs[1..]| ==> GoodDefault(fs[1..][i]);
      DefaultHeld(fs[1..]);
    }
  }

  lemma {:induction false} FixedBelow(bs: Bytes)
    ensures |bs| == 4 ==> FromLittleEndian(bs) < U32
    ensures |bs| == 8 ==> FromLittleEndian(bs) < U64
  {
    BelowPow(bs);
    assert Pow256(4) == U32 && Pow256(8) == U64;
  }

  lemma {:induction false} BelowPow(bs: Bytes)
    ensures FromLittleEndian(bs) < Pow256(|bs|)
  {
    if bs != [] {
      BelowPow(bs[1..]);
    }
  }

  lemma {:induction false} ScalarHeld(f: Field, bs: Bytes)
    requires f.ltype.Packable() && DecScalar(f.ltype, f.dataSize, bs).Ok?
    ensures Held(f, DecScalar(f.ltype, f.dataSize, bs).val)
  {
    hide DecodeVarint;
    hide FromLittleEndian;
    hide FitsSigned;
    hide FitsUnsigned;
    if f.ltype.Fixed32? {
      FixedBelow(bs[..4]);
    } else if f.ltype.Fixed64? {
      FixedBelow(bs[..8]);
    }
  }

  lemma Dec32Below(bs: Bytes)
    requires DecodeVarint32(bs).Ok?
    ensures DecodeVarint32(bs).val < U32
  {
    if bs[0] >= 128 {
      Dec32FromBelow(bs[1..], bs[0] % 128, 7);
    }
  }

  lemma {:induction false} OrBelow(a: nat, b: nat, k: nat)
    requires a < Pow2(k) && b < Pow2(k)
    ensures Or(a, b) < Pow2(k)
  {
    if a > 0 && b > 0 {
      OrBelow(a / 2, b / 2, k - 1);
    }
  }

  lemma MergeBelow(result: nat, group: nat, bitpos: nat)
    requires result < U32
    ensures Merge(result, group, bitpos) < U32
  {
    hide Or;
    Width32();
    OrBelow(result, group * Pow2(bitpos) % U32, 32);
  }

  lemma {:induction false} Dec32FromBelow(bs: Bytes, result: nat, bitpos: nat)
    requires bitpos < 256 && result < U32 && Dec32From(bs, result, bitpos).Ok?
    ensures Dec32From(bs, result, bitpos).val < U32
    decreases |bs|
  {
    hide Merge;
    hide Overflows;
    if bitpos < 32 {
      MergeBelow(result, bs[0] % 128, bitpos);
    }
    if bs[0] >= 128 {
      var r := if bitpos >= 32 then result else Merge(result, bs[0] % 128, bitpos);
      Dec32FromBelow(bs[1..], r, (bitpos + 7) % 256);
    }
  }

  lemma {:induction false} TextHeld(f: Field, bs: Bytes)
    requires !f.ltype.Packable() && !f.ltype.LSubmessage? && f.dataSize <= PB_SIZE_MAX
    requires DecString(f.ltype, f.dataSize, bs).Ok?
    ensures Held(f, DecString(f.ltype, f.dataSize, bs).val)
  {
    hide DecodeVarint32;
    Dec32Below(bs);
  }

  lemma {:induction false} ValueHeld(f: Field, cur: Value, bs: Bytes)
    requires GoodDefault(f) && (f.htype.Repeated? || Held(f, cur))
    requires DecValue(f, cur, bs).Ok?
    ensures Held(f, DecValue(f, cur, bs).val)
    decreases f, 1
  {
    hide DecScalar;
    hide DecString;
    hide TakeString;
    if f.ltype.Packable() {
      ScalarHeld(f, bs);
    } else if !f.ltype.LSubmessage? {
      TextHeld(f, bs);
    } else {
      DefaultHeld(f.sub);
      var base, inner := BaseMessage(f, cur), TakeString(bs).val;
      MessageHeld(f.sub, base, inner);
      MessageTyped(f.sub, DecMessage(f.sub, base, inner).val);
    }
  }

  lemma {:induction false} PackedHeld(f: Field, vs: seq<Value>, bs: Bytes)
    requires f.ltype.Packable() && |vs| <= f.arraySize && forall i :: 0 <= i < |vs| ==> Held(f, vs[i])
    requires DecPacked(f, vs, bs).Some?
    ensures var ws := DecPacked(f, vs, bs).value;
            |ws| <= f.arraySize && forall i :: 0 <= i < |ws| ==> Held(f, ws[i])
    decreases |bs|
  {
    hide DecScalar;
    hide Held;
    if bs != [] {
      ScalarHeld(f, bs);
      var p := DecScalar(f.ltype, f.dataSize, bs);
      PackedHeld(f, vs + [p.val], p.rest);
    }
  }

  lemma {:induction false} SlotHeld(f: Field, s: Slot, wt: nat, bs: Bytes)
    requires GoodDefault(f) && HeldSlot(f, s) && DecSlot(f, s, wt, bs).Ok?
    ensures HeldSlot(f, DecSlot(f, s, wt, bs).val)
    decreases f, 2
  {
    hide DecValue;
    hide DecPacked;
    hide TakeString;
    hide Held;
    hide GoodDefault;
    if !f.htype.Repeated? {
      ValueHeld(f, s.v, bs);
      IsTyped(f, DecValue(f, s.v, bs).val);
    } else if wt == WT_STRING && f.ltype.Packable() {
      PackedHeld(f, s.vs, TakeString(bs).val);
      AllTyped(f, DecSlot(f, s, wt, bs).val.vs);
    } else {
      ValueHeld(f, Num(0), bs);
      AllTyped(f, DecSlot(f, s, wt, bs).val.vs);
    }
  }

  lemma {:induction false} IsTyped(f: Field, v: Value)
    requires Held(f, v)
    ensures Typed(f, v)
  {
  }

  lemma AllTyped(f: Field, vs: seq<Value>)
    requires forall i :: 0 <= i < |vs| ==> Held(f, vs[i])
    ensures forall i :: 0 <= i < |vs| ==> Typed(f, vs[i])
  {
  }

  lemma {:induction false} PutHeld(fs: seq<Field>, m: Message, i: nat, s: Slot)
    requires GoodDefaults(fs) && HeldMessage(fs, m) && i < |fs| && HeldSlot(fs[i], s)
    ensures HeldMessage(fs, Put(fs, m, i, s))
  {
    hide HeldSlot;
    hide DefaultSlot;
    hide DefaultMessage;
    DefaultHeld(fs);
    forall j | 0 <= j < |fs|
      ensures HeldSlot(fs[j], Put(fs, m, i, s)[j])
    {
      DefaultAt(fs, j);
    }
  }

  lemma {:induction false} FieldsHeld(fs: seq<Field>, p: Progress, bs: Bytes)
    requires GoodDefaults(fs) && HeldMessage(fs, p.m) && DecFields(fs, p, bs).Ok?
    ensures HeldMessage(fs, DecFields(fs, p, bs).val.m)
    decreases fs, 3, |bs|
  {
    hide DecodeVarint32;
    hide SkipField;
    hide DecSlot;
    hide Put;
    hide HeldSlot;
    hide GoodDefault;
    if bs != [] && DecodeVarint32(bs).val != 0 {
      Decode32Shorter(bs);
      var t, rest := DecodeVarint32(bs).val, DecodeVarint32(bs).rest;
      var i := FindField(fs, t / 8);
      if i == |fs| {
        FieldsHeld(fs, p, SkipField(t % 8, rest).rest);
      } else {
        var r := DecSlot(fs[i], p.m[i], t % 8, rest);
        SlotHeld(fs[i], p.m[i], t % 8, rest);
        PutHeld(fs, p.m, i, r.val);
        FieldsHeld(fs, Progress(Put(fs, p.m, i, r.val), Note(fs, p.seen, i)), r.rest);
      }
    }
  }

  /** Decoding any bytes into a well-typed struct leaves every value in range, every array within its
      entries and every string within its buffer. */
  lemma {:induction false} MessageHeld(fs: seq<Field>, m: Message, bs: Bytes)
    requires GoodDefaults(fs) && HeldMessage(fs, m) && DecMessage(fs, m, bs).Ok?
    ensures HeldMessage(fs, DecMessage(fs, m, bs).val)
    decreases fs, 4
  {
    hide DecFields;
    FieldsHeld(fs, Progress(m, {}), bs);
  }
}
