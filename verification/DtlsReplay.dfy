/** The replay window of received DTLS records (dtls_record.cc; section 4.1.2.6 of RFC 6347). */
module DtlsReplay {
  import opened Octets

  const WINDOW: nat := 64

  // ---------------------------------------------------------------- record numbers

  /** The number a big-endian byte string stands for. */
  function BigEndian(bs: Bytes): nat
  {
    if bs == [] then 0 else 256 * BigEndian(bs[..|bs| - 1]) + bs[|bs| - 1]
  }

  lemma {:induction false} BigEndianBound(bs: Bytes)
    ensures BigEndian(bs) < Pow256(|bs|)
  {
    if bs != [] {
      BigEndianBound(bs[..|bs| - 1]);
    }
  }

  /** to_u64_be */
  method ToU64(input: array<Byte>) returns (ret: nat)
    requires input.Length == 8
    ensures ret == BigEndian(input[..]) < U64
  {
    ret := 0;
    var i := 0;
    while i < 8
      invariant 0 <= i <= 8
      invariant ret == BigEndian(input[..i])
    {
      assert input[..i + 1][..i] == input[..i];
      ret := ret * 256 + input[i];
      i := i + 1;
    }
    assert input[..8] == input[..];
    BigEndianBound(input[..]);
    assert Pow256(8) == U64;
  }

  // ---------------------------------------------------------------- the window as a word

  /** The word whose bit i says whether `top - i` was seen. */
  function Window(seen: set<nat>, top: int, n: nat): nat
    decreases n
  {
    if n == 0 then 0 else (if top >= 0 && top in seen then 1 else 0) + 2 * Window(seen, top - 1, n - 1)
  }

  predicate TestBit(w: nat, i: nat)
  {
    w / Pow2(i) % 2 == 1
  }

  lemma {:induction false} WindowBound(seen: set<nat>, top: int, n: nat)
    ensures Window(seen, top, n) < Pow2(n)
    decreases n
  {
    if n > 0 {
      WindowBound(seen, top - 1, n - 1);
    }
  }

  lemma HalveTwice(w: nat, p: nat)
    requires p > 0
    ensures w / (2 * p) == w / 2 / p
  {
    var q, r := w / 2 / p, w / 2 % p;
    assert w / 2 == p * q + r;
    assert w == 2 * (w / 2) + w % 2;
    assert w == (2 * p) * q + (2 * r + w % 2) by { assert 2 * (p * q) == (2 * p) * q; }
    QuotientIs(w, 2 * p, q, 2 * r + w % 2);
  }

  lemma QuotientIs(w: nat, d: nat, q: nat, r: nat)
    requires r < d && w == d * q + r
    ensures w / d == q
  {
    if w / d < q {
      assert d * (w / d) <= d * (q - 1) by { MulLe(w / d, q - 1, d); }
    } else if w / d > q {
      assert d * (w / d) >= d * (q + 1) by { MulLe(q + 1, w / d, d); }
    }
  }

  lemma MulLe(a: int, b: int, d: nat)
    requires a <= b
    ensures d * a <= d * b
  {
  }

  lemma {:induction false} WindowBit(seen: set<nat>, top: int, n: nat, i: nat)
    requires i < n
    ensures TestBit(Window(seen, top, n), i) <==> top - i >= 0 && top - i in seen
    decreases n
  {
    var w := Window(seen, top - 1, n - 1);
    if i == 0 {
      assert ((if top >= 0 && top in seen then 1 else 0) + 2 * w) % 2 == if top >= 0 && top in seen then 1 else 0;
    } else {
      WindowBit(seen, top - 1, n - 1, i - 1);
      HalveTwice(Window(seen, top, n), Pow2(i - 1));
      assert Window(seen, top, n) / 2 == w;
    }
  }

  /** Or-ing in `1 << i` records `top - i`. */
  lemma {:induction false} WindowSet(seen: set<nat>, top: int, n: nat, i: nat)
    requires i < n && top - i >= 0
    ensures Or(Window(seen, top, n), Pow2(i)) == Window(seen + {top - i}, top, n)
    decreases n
  {
    var w := Window(seen, top - 1, n - 1);
    var b := top >= 0 && top in seen;
    if i == 0 {
      WindowAbove(seen, top, top - 1, n - 1);
      OrOne(w, b);
    } else {
      WindowSet(seen, top - 1, n - 1, i - 1);
      assert top - 1 - (i - 1) == top - i;
      OrEven(w, Pow2(i - 1), b);
    }
  }

  /** Numbers above the window do not show in it. */
  lemma {:induction false} WindowAbove(seen: set<nat>, x: nat, top: int, n: nat)
    requires top < x
    ensures Window(seen + {x}, top, n) == Window(seen, top, n)
    decreases n
  {
    if n > 0 {
      WindowAbove(seen, x, top - 1, n - 1);
    }
  }

  /** Numbers below the window do not show in it either. */
  lemma {:induction false} WindowBelow(seen: set<nat>, x: nat, top: int, n: nat)
    requires x <= top - n
    ensures Window(seen + {x}, top, n) == Window(seen, top, n)
    decreases n
  {
    if n > 0 {
      WindowBelow(seen, x, top - 1, n - 1);
    }
  }

  lemma {:induction false} WindowLast(seen: set<nat>, top: int, n: nat)
    requires n > 0
    ensures Window(seen, top, n)
         == Window(seen, top, n - 1) + (if top - (n - 1) >= 0 && top - (n - 1) in seen then Pow2(n - 1) else 0)
    decreases n
  {
    if n > 1 {
      WindowLast(seen, top - 1, n - 1);
    }
  }

  /** Sliding by one, past a number nothing was seen at, is doubling modulo the width. */
  lemma WindowSlide(seen: set<nat>, top: int, n: nat)
    requires n > 0 && (top + 1 < 0 || top + 1 !in seen)
    ensures 2 * Window(seen, top, n) % Pow2(n) == Window(seen, top + 1, n)
  {
    WindowLast(seen, top, n);
    WindowBound(seen, top, n - 1);
    var w, p := Window(seen, top, n - 1), Pow2(n - 1);
    assert Window(seen, top + 1, n) == 2 * w && Pow2(n) == 2 * p;
    hide Window;
    hide Pow2;
    if top - (n - 1) >= 0 && top - (n - 1) in seen {
      Wraps(2 * w, 2 * p);
    } else {
      Reduced(2 * w, 2 * p);
    }
  }

  lemma Wraps(x: nat, m: nat)
    requires x < m
    ensures (x + m) % m == x
  {
  }

  lemma ModDouble(x: nat, m: nat)
    requires m > 0
    ensures 2 * (x % m) % m == 2 * x % m
  {
    var q := x / m;
    assert x == m * q + x % m;
    assert 2 * x == 2 * (x % m) + m * (2 * q) by { assert 2 * (m * q) == m * (2 * q); }
    AddMultiples(2 * (x % m), m, 2 * q);
  }

  lemma {:induction false} AddMultiples(x: nat, m: nat, k: nat)
    requires m > 0
    ensures (x + m * k) % m == x % m
    decreases k
  {
    if k > 0 {
      AddMultiples(x, m, k - 1);
      var y := x + m * (k - 1);
      assert x + m * k == y + m;
      var q := y / m;
      assert y + m == m * (q + 1) + y % m by { assert m * (q + 1) == m * q + m; }
      QuotientIs(y + m, m, q + 1, y % m);
    }
  }

  lemma Reduced(x: nat, m: nat)
    requires x < m
    ensures x % m == x
  {
  }

  lemma DoublePow(w: nat, s: nat)
    requires s > 0
    ensures w * Pow2(s) == 2 * (w * Pow2(s - 1))
  {
  }

  /** `bits <<= shift` moves the window up when nothing above the old top was seen. */
  lemma {:induction false} WindowShift(seen: set<nat>, top: int, n: nat, shift: nat)
    requires n > 0 && forall x :: x in seen ==> x <= top
    ensures Window(seen, top, n) * Pow2(shift) % Pow2(n) == Window(seen, top + shift, n)
    decreases shift
  {
    hide Window;
    var w, m := Window(seen, top, n), Pow2(n);
    if shift == 0 {
      WindowBound(seen, top, n);
      assert w * Pow2(0) == w;
      Reduced(w, m);
    } else {
      hide Pow2;
      WindowShift(seen, top, n, shift - 1);
      DoublePow(w, shift);
      ModDouble(w * Pow2(shift - 1), m);
      assert top + (shift - 1) + 1 == top + shift;
      WindowSlide(seen, top + (shift - 1), n);
    }
  }

  /** Shifting by at least the width leaves nothing. */
  lemma {:induction false} WindowEmpty(seen: set<nat>, top: int, n: nat)
    requires forall x :: x in seen ==> x <= top - n
    ensures Window(seen, top, n) == 0
    decreases n
  {
    if n > 0 {
      WindowEmpty(seen, top - 1, n - 1);
    }
  }

  // ---------------------------------------------------------------- the bitmap

  /** Whether `s` counts as seen or stale once `seen` was recorded with maximum `max`. */
  predicate Stale(seen: set<nat>, max: nat, s: nat)
  {
    s <= max && (max - s >= WINDOW || s in seen)
  }

  /** The largest number recorded so far, 0 when there is none. */
  ghost predicate IsMax(seen: set<nat>, max: nat)
  {
    (forall x :: x in seen ==> x <= max) && (max in seen || (max == 0 && seen == {}))
  }

  /** DTLS1_BITMAP */
  class Bitmap {
    var bits: nat
    var maxSeqNum: nat
    /** Every number recorded since the last reset. */
    ghost var seen: set<nat>

    ghost predicate Valid()
      reads this
    {
      bits == Window(seen, maxSeqNum, WINDOW) && IsMax(seen, maxSeqNum) && maxSeqNum < U64
    }

    constructor ()
      ensures Valid() && seen == {}
    {
      bits, maxSeqNum, seen := 0, 0, {};
      new;
      WindowEmptySet(0, WINDOW);
    }

    /** The memset of dtls1_set_read_state. */
    method Reset()
      modifies this
      ensures Valid() && seen == {}
    {
      bits, maxSeqNum, seen := 0, 0, {};
      WindowEmptySet(0, WINDOW);
    }

    /** dtls1_bitmap_should_discard */
    method ShouldDiscard(seqNum: array<Byte>) returns (discard: bool)
      requires Valid() && seqNum.Length == 8
      ensures discard == Stale(seen, maxSeqNum, BigEndian(seqNum[..]))
    {
      hide Window;
      hide TestBit;
      var s := ToU64(seqNum);
      if s > maxSeqNum {
        return false;
      }
      var idx := maxSeqNum - s;
      if idx >= WINDOW {
        return true;
      }
      WindowBit(seen, maxSeqNum, WINDOW, idx);
      return TestBit(bits, idx);
    }

    /** dtls1_bitmap_record */
    method Record(seqNum: array<Byte>)
      requires Valid() && seqNum.Length == 8
      modifies this
      ensures Valid()
      ensures seen == old(seen) + {BigEndian(seqNum[..])}
      ensures maxSeqNum == if BigEndian(seqNum[..]) > old(maxSeqNum) then BigEndian(seqNum[..]) else old(maxSeqNum)
    {
      hide Window;
      hide Or;
      hide Pow2;
      var s := ToU64(seqNum);
      if s > maxSeqNum {
        var shift := s - maxSeqNum;
        Slide(s);
      }
      var idx := maxSeqNum - s;
      if idx < WINDOW {
        WindowSet(seen, maxSeqNum, WINDOW, idx);
        bits := Or(bits, Pow2(idx));
      } else {
        WindowBelow(seen, s, maxSeqNum, WINDOW);
      }
      seen := seen + {s};
    }

    /** The part of dtls1_bitmap_record that moves the window up. */
    method Slide(s: nat)
      requires Valid() && maxSeqNum < s < U64
      modifies this`bits, this`maxSeqNum
      ensures maxSeqNum == s && bits == Window(seen, s, WINDOW)
    {
      hide Window;
      hide Pow2;
      var shift := s - maxSeqNum;
      if shift >= WINDOW {
        WindowEmpty(seen, s, WINDOW);
        bits := 0;
      } else {
        WindowShift(seen, maxSeqNum, WINDOW, shift);
        Width64();
        bits := bits * Pow2(shift) % U64;
      }
      maxSeqNum := s;
    }
  }

  lemma {:induction false} WindowEmptySet(top: int, n: nat)
    ensures Window({}, top, n) == 0
  {
    WindowEmpty({}, top, n);
  }

  lemma Width64()
    ensures Pow2(64) == U64
  {
    assert Pow2(4) == 16;
    hide Pow2;
    PowSum(4, 4);
    PowSum(8, 8);
    PowSum(16, 16);
    PowSum(32, 32);
  }

  lemma {:induction false} PowSum(a: nat, b: nat)
    ensures Pow2(a + b) == Pow2(a) * Pow2(b)
    decreases b
  {
    if b > 0 {
      PowSum(a, b - 1);
      assert Pow2(a) * (2 * Pow2(b - 1)) == 2 * (Pow2(a) * Pow2(b - 1));
    }
  }

  // ---------------------------------------------------------------- runs of records

  /** What the window filters out of a run of records: `s` is handed on unless it is stale, and what is
      handed on is recorded if it turns out authentic. */
  datatype Filter = Filter(seen: set<nat>, max: nat)
  {
    function Accept(s: nat): Filter
    {
      Filter(seen + {s}, if s > max then s else max)
    }
  }

  datatype Arrival = Arrival(number: nat, authentic: bool)

  /** The numbers accepted from a run of arrivals, in order. */
  function Accepted(f: Filter, run: seq<Arrival>): seq<nat>
    decreases |run|
  {
    if run == [] then []
    else
      var a := run[0];
      if !Stale(f.seen, f.max, a.number) && a.authentic then [a.number] + Accepted(f.Accept(a.number), run[1..])
      else Accepted(f, run[1..])
  }

  function After(f: Filter, run: seq<Arrival>): Filter
    decreases |run|
  {
    if run == [] then f
    else
      var a := run[0];
      if !Stale(f.seen, f.max, a.number) && a.authentic then After(f.Accept(a.number), run[1..])
      else After(f, run[1..])
  }

  predicate Distinct(xs: seq<nat>)
  {
    forall i, j :: 0 <= i < j < |xs| ==> xs[i] != xs[j]
  }

  predicate NoneIn(xs: seq<nat>, seen: set<nat>)
  {
    forall i :: 0 <= i < |xs| ==> xs[i] !in seen
  }

  /** No number is accepted twice, in any run. */
  lemma {:induction false} NoReplay(f: Filter, run: seq<Arrival>)
    requires IsMax(f.seen, f.max)
    ensures Distinct(Accepted(f, run)) && NoneIn(Accepted(f, run), f.seen)
    decreases |run|
  {
    if run != [] {
      var a := run[0];
      if !Stale(f.seen, f.max, a.number) && a.authentic {
        var g, tail := f.Accept(a.number), Accepted(f.Accept(a.number), run[1..]);
        NoReplay(g, run[1..]);
        assert a.number in g.seen && f.seen <= g.seen;
        assert Accepted(f, run) == [a.number] + tail;
      } else {
        NoReplay(f, run[1..]);
      }
    }
  }

  /** The filter's state after a run is exactly what it accepted, with its maximum. */
  lemma {:induction false} SeenIsAccepted(f: Filter, run: seq<Arrival>)
    requires IsMax(f.seen, f.max)
    ensures var g := After(f, run);
            IsMax(g.seen, g.max) && g.max >= f.max
            && forall x :: x in g.seen <==> x in f.seen || x in Accepted(f, run)
    decreases |run|
  {
    if run != [] {
      var a := run[0];
      if !Stale(f.seen, f.max, a.number) && a.authentic {
        SeenIsAccepted(f.Accept(a.number), run[1..]);
        assert Accepted(f, run)[0] == a.number;
      } else {
        SeenIsAccepted(f, run[1..]);
      }
    }
  }

  /** After any run from an empty window, an authentic record is accepted iff its number is new and not
      64 or more below the largest number accepted. */
  lemma {:induction false} FreshIsAccepted(run: seq<Arrival>, s: nat)
    ensures var g := After(Filter({}, 0), run);
            var acc := Accepted(Filter({}, 0), run);
            Accepted(g, [Arrival(s, true)]) == [s] <==> s !in acc && s + WINDOW > g.max
  {
    var f := Filter({}, 0);
    SeenIsAccepted(f, run);
    var g := After(f, run);
    assert [Arrival(s, true)][1..] == [];
    assert Accepted(g, [Arrival(s, true)]) == if Stale(g.seen, g.max, s) then [] else [s] + [];
  }
}
