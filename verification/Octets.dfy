/** Bytes, powers of two and bitwise operations on naturals of explicit width. */
module Octets {
  type Byte = x: int | 0 <= x < 256
  type Bytes = seq<Byte>

  const U16: nat := 0x1_0000
  const U32: nat := 0x1_0000_0000
  const U64: nat := 0x1_0000_0000_0000_0000

  datatype Option<+T> = None | Some(value: T)

  function Pow2(n: nat): (p: nat)
    ensures p > 0
  {
    if n == 0 then 1 else 2 * Pow2(n - 1)
  }

  function Pow256(n: nat): (p: nat)
    ensures p > 0
  {
    if n == 0 then 1 else 256 * Pow256(n - 1)
  }

  function Zeros(n: nat): (bs: Bytes)
    ensures |bs| == n
  {
    seq(n, _ => 0)
  }

  lemma Width32()
    ensures Pow2(32) == U32
  {
    assert Pow2(8) == 0x100;
    assert Pow2(16) == 0x1_0000;
    assert Pow2(24) == 0x100_0000;
  }

  /** Bitwise or of two naturals. */
  function Or(a: nat, b: nat): nat
  {
    if a == 0 then b
    else if b == 0 then a
    else 2 * Or(a / 2, b / 2) + if a % 2 == 1 || b % 2 == 1 then 1 else 0
  }

  /** Or-ing in bits that lie above every bit of `a` is addition. */
  lemma {:induction false} OrAbove(a: nat, q: nat, k: nat)
    requires a < Pow2(k)
    ensures Or(a, q * Pow2(k)) == a + q * Pow2(k)
  {
    if k > 0 && a > 0 && q > 0 {
      var b := q * Pow2(k);
      var h := q * Pow2(k - 1);
      assert b == 2 * h by { assert Pow2(k) == 2 * Pow2(k - 1); Regroup(q, Pow2(k - 1)); }
      assert b > 0 by { ProductPositive(q, Pow2(k)); }
      assert b / 2 == h && b % 2 == 0;
      OrAbove(a / 2, q, k - 1);
    }
  }

  lemma Regroup(q: nat, p: nat)
    ensures q * (2 * p) == 2 * (q * p)
  {
  }

  lemma ProductPositive(q: nat, p: nat)
    requires q > 0 && p > 0
    ensures q * p > 0
  {
  }

  lemma {:induction false} OrOne(w: nat, b: bool)
    ensures Or((if b then 1 else 0) + 2 * w, 1) == 1 + 2 * w
  {
    var a := (if b then 1 else 0) + 2 * w;
    assert a / 2 == w && Or(w, 0) == w;
  }

  lemma OrEven(w: nat, p: nat, b: bool)
    requires p > 0
    ensures Or((if b then 1 else 0) + 2 * w, 2 * p) == (if b then 1 else 0) + 2 * Or(w, p)
  {
    var a := (if b then 1 else 0) + 2 * w;
    assert a / 2 == w && (2 * p) / 2 == p && (2 * p) % 2 == 0;
  }
}
