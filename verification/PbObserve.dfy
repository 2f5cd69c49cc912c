/** The round trip in terms of what a program sees of a message, and when encoding succeeds. */
module PbObserve {
  import opened Octets
  import opened PbModel
  import opened PbParse
  import opened PbRoundTrip

  // ---------------------------------------------------------------- what a program sees

  /** The same integer, the same bytes, the same C string, or submessages a program cannot tell apart. */
  predicate SameValue(f: Field, v: Value, w: Value)
    decreases f, 0
  {
    match f.ltype
    case LString => v.Str? && w.Str? && CString(v.b, f.dataSize) == CString(w.b, f.dataSize)
    case LSubmessage => v.Sub? && w.Sub? && SameMessage(f.sub, v.m, w.m)
    case _ => v == w
  }

  /** Arrays agree element by element, flags agree, and a value counts where its flag is set or there is no flag. */
  predicate SameSlot(f: Field, s: Slot, t: Slot)
    decreases f, 1
  {
    if f.htype.Repeated? then |s.vs| == |t.vs| && forall i :: 0 <= i < |s.vs| ==> SameValue(f, s.vs[i], t.vs[i])
    else if f.htype.Oneof? || (f.htype.Optional? && f.sizeOffset != 0) then s.has == t.has && (s.has ==> SameValue(f, s.v, t.v))
    else SameValue(f, s.v, t.v)
  }

  predicate SameMessage(fs: seq<Field>, m: Message, n: Message)
    decreases fs
  {
    |m| == |n| == |fs| && forall i :: 0 <= i < |fs| ==> SameSlot(fs[i], m[i], n[i])
  }

  lemma {:induction false} CStringTwice(b: Bytes, size: nat)
    ensures CString(CString(b, size), size) == CString(b, size)
  {
    if b != [] && size != 0 && b[0] != 0 {
      CStringTwice(b[1..], size - 1);
      assert CString(b, size)[1..] == CString(b[1..], size - 1);
    }
  }

  lemma {:induction false} ValueSame(f: Field, v: Value)
    requires WellFormedField(f) && Typed(f, v)
    ensures SameValue(f, v, NormValue(f, v))
    decreases f, 0
  {
    if f.ltype.LSubmessage? {
      NormSame(f.sub, v.m);
    } else if f.ltype.LString? {
      CStringTwice(v.b, f.dataSize);
    }
  }

  lemma {:induction false} NormAllAt(f: Field, vs: seq<Value>, i: nat)
    requires forall j :: 0 <= j < |vs| ==> Typed(f, vs[j])
    requires i < |vs|
    ensures NormAll(f, vs)[i] == NormValue(f, vs[i])
    decreases |vs|
  {
    hide Typed;
    hide NormValue;
    if i > 0 {
      NormAllAt(f, vs[1..], i - 1);
    }
  }

  lemma {:induction false} SlotSame(f: Field, s: Slot)
    requires WellFormedField(f) && TypedSlot(f, s)
    ensures SameSlot(f, s, NormSlot(f, s))
    decreases f, 1
  {
    hide NormValue;
    hide IsZero;
    if f.htype.Repeated? {
      forall i | 0 <= i < |s.vs|
        ensures SameValue(f, s.vs[i], NormAll(f, s.vs)[i])
      {
        NormAllAt(f, s.vs, i);
        ValueSame(f, s.vs[i]);
      }
    } else {
      ValueSame(f, s.v);
      if f.htype.Optional? && f.sizeOffset == 0 && IsZero(f, s.v) {
        ZeroIsDefault(f, s.v);
      }
    }
  }

  lemma {:induction false} NormSame(fs: seq<Field>, m: Message)
    requires WellFormed(fs) && TypedMessage(fs, m)
    ensures SameMessage(fs, m, Norm(fs, m))
    decreases fs
  {
    hide NormSlot;
    hide SameSlot;
    hide TypedSlot;
    forall i | 0 <= i < |fs|
      ensures SameSlot(fs[i], m[i], Norm(fs, m)[i])
    {
      NormAt(fs, m, i);
      assert WellFormedField(fs[i]);
      SlotSame(fs[i], m[i]);
    }
  }

  /** A program that decodes what another encoded sees the same message: every flag, every element of every array, and
      every value that counts. */
  lemma {:induction false} RoundTripIsSame(fs: seq<Field>, m: Message)
    requires WellFormed(fs) && TypedMessage(fs, m) && StorableMessage(fs, m)
    ensures EncMessage(fs, m).Some?
    ensures var d := Decode(fs, EncMessage(fs, m).value);
            d.Ok? && d.rest == [] && SameMessage(fs, m, d.val)
  {
    hide Decode;
    hide EncMessage;
    hide Norm;
    hide SameMessage;
    MessageRoundTrip(fs, m);
    NormSame(fs, m);
  }

  // ---------------------------------------------------------------- when encoding succeeds

  predicate EncodableValue(f: Field, v: Value)
    requires Typed(f, v)
    decreases f, 0
  {
    match f.ltype
    case LBytes => |v.b| + 4 <= f.dataSize
    case LSubmessage => Encodable(f.sub, v.m)
    case _ => true
  }

  predicate EncodableSlot(f: Field, s: Slot)
    requires TypedSlot(f, s)
    decreases f, 1
  {
    if f.htype.Repeated? then |s.vs| <= f.arraySize && forall i :: 0 <= i < |s.vs| ==> EncodableValue(f, s.vs[i])
    else Absent(f, s) || EncodableValue(f, s.v)
  }

  /** No array holds more than its size and no bytes are longer than their storage, in anything that is not left out. */
  predicate Encodable(fs: seq<Field>, m: Message)
    requires TypedMessage(fs, m)
    decreases fs
  {
    forall i :: 0 <= i < |fs| ==> EncodableSlot(fs[i], m[i])
  }

  lemma {:induction false} ValueEncodes(f: Field, v: Value)
    requires Typed(f, v)
    ensures EncValue(f, v).Some? <==> EncodableValue(f, v)
    decreases f, 0
  {
    if f.ltype.LSubmessage? {
      EncodesIff(f.sub, v.m);
    }
  }

  lemma {:induction false} ElementsEncode(f: Field, prefix: Bytes, vs: seq<Value>)
    requires forall i :: 0 <= i < |vs| ==> Typed(f, vs[i])
    ensures EncElements(f, prefix, vs).Some? <==> forall i :: 0 <= i < |vs| ==> EncodableValue(f, vs[i])
    decreases f, 1, |vs|
  {
    hide Typed;
    hide EncodableValue;
    hide EncValue;
    if vs != [] {
      ValueEncodes(f, vs[0]);
      ElementsEncode(f, prefix, vs[1..]);
      assert forall i :: 0 < i < |vs| ==> vs[1..][i - 1] == vs[i];
    }
  }

  lemma {:induction false} SlotEncodes(f: Field, s: Slot)
    requires TypedSlot(f, s)
    ensures EncSlot(f, s).Some? <==> EncodableSlot(f, s)
    decreases f, 2
  {
    hide Typed;
    hide EncValue;
    hide EncodableValue;
    if f.htype.Repeated? {
      ElementsEncode(f, if f.ltype.Packable() then [] else EncTag(WireType(f.ltype), f.tag), s.vs);
    } else {
      ValueEncodes(f, s.v);
    }
  }

  /** pb_encode fails for lack of anything but room exactly when an array or a byte string is too long. */
  lemma {:induction false} EncodesIff(fs: seq<Field>, m: Message)
    requires TypedMessage(fs, m)
    ensures EncMessage(fs, m).Some? <==> Encodable(fs, m)
    decreases fs
  {
    hide TypedSlot;
    hide EncSlot;
    hide EncodableSlot;
    if fs != [] {
      SlotEncodes(fs[0], m[0]);
      EncodesIff(fs[1..], m[1..]);
      assert forall i :: 0 < i < |fs| ==> fs[1..][i - 1] == fs[i] && m[1..][i - 1] == m[i];
    }
  }

  /** A proto3 singular integer, byte string or string takes no bytes exactly if a program sees zero or nothing in it. */
  lemma {:induction false} SingularLeftOut(f: Field, s: Slot)
    requires f.htype.Optional? && f.sizeOffset == 0 && !f.ltype.LSubmessage? && !f.ltype.FixedLengthBytes? && f.dataSize > 0
    requires TypedSlot(f, s)
    ensures EncSlot(f, s) == Some([]) <==> SeenEmpty(f, s.v)
  {
    hide EncValue;
    hide EncString;
    var tag := EncTag(WireType(f.ltype), f.tag);
    assert |tag| > 0;
    if !Absent(f, s) && EncValue(f, s.v).Some? {
      assert |tag + EncValue(f, s.v).value| > 0;
    }
    assert !Absent(f, s) <==> !IsZero(f, s.v);
    if f.ltype.LString? {
      if s.v.b != [] && s.v.b[0] != 0 {
        assert |CString(s.v.b, f.dataSize)| > 0;
      }
    } else if f.ltype.LBytes? {
    } else {
      assert s.v.Num?;
    }
  }

  predicate SeenEmpty(f: Field, v: Value)
  {
    match v
    case Num(n) => n == 0
    case Str(b) => if f.ltype.LString? then CString(b, f.dataSize) == [] else b == []
    case Sub(_) => false
  }

  // ---------------------------------------------------------------- the empty message

  /** Nothing has to be sent: no required field, at any depth of fields whose presence is not recorded. */
  predicate NothingRequired(fs: seq<Field>)
    decreases fs
  {
    forall i :: 0 <= i < |fs| ==>
      && !fs[i].htype.Required?
      && (Implicit(fs[i]) ==> fs[i].default.None? && (fs[i].ltype.LSubmessage? ==> NothingRequired(fs[i].sub)))
      && (fs[i].ltype.FixedLengthBytes? && Implicit(fs[i]) ==> fs[i].dataSize == 0)
  }

  lemma {:induction false} DefaultAbsent(fs: seq<Field>)
    requires NothingRequired(fs) && TypedMessage(fs, DefaultMessage(fs))
    ensures AllAbsent(fs, DefaultMessage(fs))
    decreases fs
  {
    forall i | 0 <= i < |fs|
      ensures Absent(fs[i], DefaultMessage(fs)[i])
    {
      DefaultAt(fs, i);
      assert TypedSlot(fs[i], DefaultMessage(fs)[i]);
      if Implicit(fs[i]) && fs[i].ltype.LSubmessage? {
        DefaultAbsent(fs[i].sub);
      }
    }
  }

  lemma {:induction false} AbsentIsNothing(fs: seq<Field>, m: Message)
    requires TypedMessage(fs, m) && AllAbsent(fs, m)
    ensures EncMessage(fs, m) == Some([])
    decreases |fs|
  {
    hide TypedSlot;
    if fs != [] {
      assert Absent(fs[0], m[0]) && EncSlot(fs[0], m[0]) == Some([]);
      forall i | 0 <= i < |fs[1..]|
        ensures TypedSlot(fs[1..][i], m[1..][i]) && Absent(fs[1..][i], m[1..][i])
      {
        assert TypedSlot(fs[i + 1], m[i + 1]) && Absent(fs[i + 1], m[i + 1]);
      }
      AbsentIsNothing(fs[1..], m[1..]);
      var none: Bytes := [];
      assert none + none == none;
    }
  }

  /** A message at its defaults takes no bytes. */
  lemma {:induction false} DefaultTakesNothing(fs: seq<Field>)
    requires NothingRequired(fs) && TypedMessage(fs, DefaultMessage(fs))
    ensures EncMessage(fs, DefaultMessage(fs)) == Some([])
  {
    hide EncMessage;
    DefaultAbsent(fs);
    AbsentIsNothing(fs, DefaultMessage(fs));
  }
}
