/** The field iterator (pb_common.c) and the required-field bitmap of pb_decode_noinit. */
module PbCommon {
  import opened Octets
  import opened PbVarint
  import opened PbModel
  import opened PbParse

  // ---------------------------------------------------------------- struct layout

  /** Bytes a field takes in its struct. */
  function StorageSize(f: Field): nat
  {
    if f.htype.Repeated? then f.dataSize * f.arraySize else f.dataSize
  }

  /** `off` gives the offset of every member of a struct, and the table's deltas were taken from it:
      the first from the struct's start, a union member's from nothing, any other from the end of the
      member before it. */
  ghost predicate DescribesLayout(fs: seq<Field>, off: seq<nat>)
  {
    && |off| == |fs|
    && (fs != [] ==> fs[0].dataOffset == off[0])
    && forall i :: 0 < i < |fs| ==>
         if InsideUnion(fs, i) then
           off[i] == off[i - 1] && off[i] + fs[i].sizeOffset == off[i - 1] + fs[i - 1].sizeOffset
         else off[i] == off[i - 1] + StorageSize(fs[i - 1]) + fs[i].dataOffset
  }

  ghost predicate HasLayout(fs: seq<Field>)
  {
    exists off :: DescribesLayout(fs, off)
  }

  ghost function LayoutOf(fs: seq<Field>): (off: seq<nat>)
    requires HasLayout(fs)
    ensures DescribesLayout(fs, off)
  {
    var off :| DescribesLayout(fs, off);
    off
  }

  /** Tables taken from structs, all the way down, with no tag used twice. */
  ghost predicate FromStruct(fs: seq<Field>)
    decreases fs
  {
    && HasLayout(fs)
    && (forall i, j :: 0 <= i < j < |fs| ==> fs[i].tag != fs[j].tag)
    && (forall i :: 0 <= i < |fs| ==> fs[i].tag > 0 && Counted(fs[i]) && FromStruct(fs[i].sub))
  }

  lemma {:induction false} StructHasLayout(fs: seq<Field>)
    requires FromStruct(fs)
    ensures HasLayout(fs)
  {
  }

  /** pb_field_iter_t; addresses are offsets from the start of the struct's memory. */
  class FieldIter {
    const fields: seq<Field>
    const dest: int
    ghost const layout: seq<nat>
    var pos: nat
    var requiredFieldIndex: nat
    var pData: int
    var pSize: int

    /** Wherever the iterator came from, its addresses and counter are those of field `pos`. */
    ghost predicate Valid()
      reads this
    {
      && DescribesLayout(fields, layout)
      && if fields == [] then pos == 0 && requiredFieldIndex == 0
         else
           && pos < |fields|
           && pData == dest + layout[pos]
           && pSize == pData + fields[pos].sizeOffset
           && requiredFieldIndex == RequiredBefore(fields, pos)
    }

    constructor (fs: seq<Field>, base: int, ghost off: seq<nat>)
      requires DescribesLayout(fs, off)
      ensures fields == fs && dest == base && layout == off && Valid() && pos == 0
    {
      fields, dest, layout := fs, base, off;
      pos, requiredFieldIndex := 0, 0;
      pData := if fs == [] then base else base + fs[0].dataOffset;
      pSize := if fs == [] then base else base + fs[0].dataOffset + fs[0].sizeOffset;
    }

    /** pb_field_iter_begin */
    method Begin() returns (ok: bool)
      requires Valid()
      modifies this
      ensures Valid() && pos == 0 && ok == (fields != [])
    {
      pos, requiredFieldIndex := 0, 0;
      pData := if fields == [] then dest else dest + fields[0].dataOffset;
      pSize := if fields == [] then pData else pData + fields[0].sizeOffset;
      return fields != [];
    }

    /** pb_field_iter_next */
    method Next() returns (ok: bool)
      requires Valid()
      modifies this
      ensures Valid()
      ensures fields != [] ==> pos == Around(old(pos), 1, |fields|)
      ensures ok == (old(pos) + 1 < |fields|)
    {
      hide DescribesLayout;
      hide RequiredBefore;
      if fields == [] {
        return false;
      }
      if pos + 1 == |fields| {
        var _ := Begin();
        return false;
      }
      ok := true;
      Advance();
    }

    /** The part of pb_field_iter_next that steps to the next entry of the table. */
    method Advance()
      requires Valid() && pos + 1 < |fields|
      modifies this
      ensures Valid() && pos == old(pos) + 1
    {
      hide DescribesLayout;
      hide RequiredBefore;
      LayoutStep(fields, layout, pos);
      var prev, cur := fields[pos], fields[pos + 1];
      pos := pos + 1;
      if prev.htype.Oneof? && cur.htype.Oneof? && cur.dataOffset == PB_SIZE_MAX {
        return;
      }
      var prevSize := prev.dataSize;
      if prev.htype.Repeated? {
        prevSize := prevSize * prev.arraySize;
      }
      if prev.htype.Required? {
        requiredFieldIndex := requiredFieldIndex + 1;
      }
      pData := pData + prevSize + cur.dataOffset;
      pSize := pData + cur.sizeOffset;
    }

    /** pb_field_iter_find: it searches from where it stands, around the end, back to where it stood. */
    method Find(tag: nat) returns (ok: bool)
      requires Valid()
      modifies this
      ensures Valid()
      ensures ok && fields != [] ==> pos < |fields| && fields[pos].tag == tag
      ensures ok <==> MatchesTerminator(fields, tag) || exists i :: 0 <= i < |fields| && fields[i].tag == tag
      ensures !ok ==> pos == old(pos)
    {
      hide DescribesLayout;
      hide RequiredBefore;
      if fields == [] {
        var _ := Next();
        return tag == 0;
      }
      var start, n := pos, |fields|;
      ghost var steps := 0;
      while true
        invariant Valid() && 0 <= steps < n && pos == Around(start, steps, n)
        invariant forall k :: 0 <= k < steps ==> fields[Around(start, k, n)].tag != tag
        decreases n - steps
      {
        if fields[pos].tag == tag {
          return true;
        }
        var _ := Next();
        steps := steps + 1;
        if pos == start {
          Everywhere(fields, start, tag);
          return false;
        }
      }
    }
  }

  /** `steps` positions on from `start` in a circle of `n`. */
  function Around(start: nat, steps: nat, n: nat): (p: nat)
    requires start < n && steps <= n
    ensures p < n
  {
    if start + steps < n then start + steps else start + steps - n
  }

  lemma LayoutStep(fs: seq<Field>, off: seq<nat>, i: nat)
    requires DescribesLayout(fs, off) && i + 1 < |fs|
    ensures if InsideUnion(fs, i + 1) then
              off[i + 1] == off[i] && off[i + 1] + fs[i + 1].sizeOffset == off[i] + fs[i].sizeOffset
            else off[i + 1] == off[i] + StorageSize(fs[i]) + fs[i + 1].dataOffset
    ensures RequiredBefore(fs, i + 1) == RequiredBefore(fs, i) + if fs[i].htype.Required? then 1 else 0
  {
  }

  lemma Everywhere(fs: seq<Field>, start: nat, tag: nat)
    requires start < |fs|
    requires forall k :: 0 <= k < |fs| ==> fs[Around(start, k, |fs|)].tag != tag
    ensures forall i :: 0 <= i < |fs| ==> fs[i].tag != tag
  {
    forall i | 0 <= i < |fs|
      ensures fs[i].tag != tag
    {
      var k := if i >= start then i - start else i + |fs| - start;
      assert Around(start, k, |fs|) == i;
    }
  }

  // ---------------------------------------------------------------- the required-field bitmap

  /** The `n`-bit word whose bit j says whether `base + j` was seen. */
  function Word(seen: set<nat>, base: nat, n: nat): (w: nat)
    decreases n
  {
    if n == 0 then 0 else (if base in seen then 1 else 0) + 2 * Word(seen, base + 1, n - 1)
  }

  /** Or-ing in `1 << j` records `base + j`. */
  lemma {:induction false} WordSet(seen: set<nat>, base: nat, n: nat, j: nat)
    requires j < n
    ensures Or(Word(seen, base, n), Pow2(j)) == Word(seen + {base + j}, base, n)
    decreases n
  {
    var w := Word(seen, base + 1, n - 1);
    if j == 0 {
      WordSame(seen, base + 1, n - 1, base);
      OrOne(w, base in seen);
    } else {
      WordSet(seen, base + 1, n - 1, j - 1);
      assert base + 1 + (j - 1) == base + j;
      OrEven(w, Pow2(j - 1), base in seen);
      assert Pow2(j) == 2 * Pow2(j - 1);
    }
  }

  lemma {:induction false} WordSame(seen: set<nat>, base: nat, n: nat, x: nat)
    requires x < base
    ensures Word(seen + {x}, base, n) == Word(seen, base, n)
    decreases n
  {
    if n > 0 {
      WordSame(seen, base + 1, n - 1, x);
    }
  }

  lemma {:induction false} WordOther(seen: set<nat>, base: nat, n: nat, x: nat)
    requires x < base || x >= base + n
    ensures Word(seen + {x}, base, n) == Word(seen, base, n)
    decreases n
  {
    if n > 0 {
      WordOther(seen, base + 1, n - 1, x);
    }
  }

  /** A word has its `k` low bits set and no other iff exactly those numbers of its range were seen. */
  lemma {:induction false} WordFull(seen: set<nat>, base: nat, n: nat, k: nat)
    requires k <= n
    requires forall x :: x in seen && base <= x < base + n ==> x < base + k
    ensures Word(seen, base, n) == Pow2(k) - 1 <==> forall x :: base <= x < base + k ==> x in seen
    decreases n
  {
    if k == 0 {
      WordEmpty(seen, base, n);
    } else {
      WordFull(seen, base + 1, n - 1, k - 1);
      assert Pow2(k) == 2 * Pow2(k - 1);
      if forall x :: base <= x < base + k ==> x in seen {
        assert base in seen;
      } else if base in seen {
        var x :| base <= x < base + k && x !in seen;
        assert base + 1 <= x < base + 1 + (k - 1);
      }
    }
  }

  lemma {:induction false} WordEmpty(seen: set<nat>, base: nat, n: nat)
    requires forall x :: x in seen ==> !(base <= x < base + n)
    ensures Word(seen, base, n) == 0
    decreases n
  {
    if n > 0 {
      WordEmpty(seen, base + 1, n - 1);
    }
  }

  /** fields_seen: two words for the first 64 required fields. */
  class RequiredBitmap {
    const words: array<nat>
    ghost var seen: set<nat>

    ghost predicate Valid()
      reads this, words
    {
      words.Length == 2 && words[0] == Word(seen, 0, 32) && words[1] == Word(seen, 32, 32)
    }

    constructor ()
      ensures Valid() && seen == {} && fresh(words)
    {
      words := new nat[2] [0, 0];
      seen := {};
      new;
      WordEmpty({}, 0, 32);
      WordEmpty({}, 32, 32);
    }

    /** `fields_seen[index >> 5] |= 1 << (index & 31)`, for the fields that are tracked. */
    method Mark(index: nat)
      requires Valid()
      modifies this, words
      ensures Valid() && seen == old(seen) + {index}
    {
      hide Word;
      hide Or;
      if index < PB_MAX_REQUIRED_FIELDS {
        var w, j := index / 32, index % 32;
        MarkWords(seen, index);
        words[w] := Or(words[w], Pow2(j));
      } else {
        WordOther(seen, 0, 32, index);
        WordOther(seen, 32, 32, index);
      }
      seen := seen + {index};
    }

    /** The check at the end of pb_decode_noinit: whole words, then the remaining bits. */
    method Complete(reqFieldCount: nat) returns (ok: bool)
      requires Valid() && forall x :: x in seen ==> x < reqFieldCount
      ensures ok <==> forall k :: 0 <= k < reqFieldCount && k < PB_MAX_REQUIRED_FIELDS ==> k in seen
    {
      hide Word;
      hide Pow2;
      var count := if reqFieldCount > PB_MAX_REQUIRED_FIELDS then PB_MAX_REQUIRED_FIELDS else reqFieldCount;
      Width32();
      var i := 0;
      while i < count / 32
        invariant 0 <= i <= count / 32
        invariant forall k :: 0 <= k < 32 * i ==> k in seen
      {
        WordFull(seen, 32 * i, 32, 32);
        if words[i] != U32 - 1 {
          assert !forall x :: 32 * i <= x < 32 * i + 32 ==> x in seen;
          return false;
        }
        i := i + 1;
      }
      if count % 32 != 0 {
        WordFull(seen, 32 * i, 32, count % 32);
        if words[i] != Pow2(count % 32) - 1 {
          return false;
        }
      }
      return true;
    }
  }

  lemma {:induction false} MarkWords(seen: set<nat>, index: nat)
    requires index < 64
    ensures var w, j := index / 32, index % 32;
            && Or(Word(seen, 32 * w, 32), Pow2(j)) == Word(seen + {index}, 32 * w, 32)
            && Word(seen, 32 * (1 - w), 32) == Word(seen + {index}, 32 * (1 - w), 32)
  {
    hide Word;
    hide Or;
    var w, j := index / 32, index % 32;
    WordSet(seen, 32 * w, 32, j);
    assert 32 * w + j == index;
    WordOther(seen, 32 * (1 - w), 32, index);
  }

}
