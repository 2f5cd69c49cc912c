/** Base-128 varints as nanopb writes and reads them (pb_encode.c, pb_decode.c), on byte sequences. */
module PbVarint {
  import opened Octets

  /** What a reader makes of a byte sequence: a value and the bytes it left, or an error. */
  datatype Parse<+T> = Ok(val: T, rest: Bytes) | Fail

  function Pow128(n: nat): (p: nat)
    ensures p > 0
  {
    if n == 0 then 1 else 128 * Pow128(n - 1)
  }

  lemma {:induction false} Pow2Is128(n: nat)
    ensures Pow2(7 * n) == Pow128(n)
  {
    if n > 0 {
      Pow2Is128(n - 1);
      var m := 7 * (n - 1);
      assert Pow2(m + 7) == 2 * Pow2(m + 6) == 4 * Pow2(m + 5) == 8 * Pow2(m + 4);
      assert Pow2(m + 4) == 2 * Pow2(m + 3) == 4 * Pow2(m + 2) == 8 * Pow2(m + 1) == 16 * Pow2(m);
    }
  }

  // ---------------------------------------------------------------- encoding

  function EncVarint(v: nat): (bs: Bytes)
    ensures |bs| > 0
  {
    if v < 128 then [v] else [v % 128 + 128] + EncVarint(v / 128)
  }

  // ---------------------------------------------------------------- decoding

  /** Length of the varint at the front of `bs`: everything up to and including the first byte
      without its continuation bit; 0 when there is no such byte. */
  function Scan(bs: Bytes): (n: nat)
    ensures n <= |bs|
  {
    if bs == [] then 0
    else if bs[0] < 128 then 1
    else
      var r := Scan(bs[1..]);
      if r == 0 then 0 else r + 1
  }

  /** The number whose little-endian base-128 digits are the low seven bits of each byte. */
  function Groups(bs: Bytes): nat
  {
    if bs == [] then 0 else bs[0] % 128 + 128 * Groups(bs[1..])
  }

  /** The 64-bit reader: at most ten bytes, value modulo 2^64. */
  function DecodeVarint(bs: Bytes): Parse<nat>
  {
    var n := Scan(bs);
    if n == 0 || n > 10 then Fail else Ok(Groups(bs[..n]) % U64, bs[n..])
  }

  /** `result |= group << bitpos` on a 32-bit result. */
  function Merge(result: nat, group: nat, bitpos: nat): nat
  {
    Or(result, group * Pow2(bitpos) % U32)
  }

  /** A byte at or above bit 32 is padding, or sign extension of a result whose bit 31 is set. */
  predicate Overflows(result: nat, byte: Byte, bitpos: nat)
  {
    && bitpos >= 32
    && byte % 128 != 0
    && (result < 0x8000_0000 || byte != if bitpos < 63 then 0xFF else 0x01)
  }

  /** One round of the 32-bit reader's loop and everything after it. `bitpos` is an 8-bit counter. */
  function Dec32From(bs: Bytes, result: nat, bitpos: nat): Parse<nat>
    requires bitpos < 256
    decreases |bs|
  {
    if bs == [] || Overflows(result, bs[0], bitpos) then Fail
    else
      var r := if bitpos >= 32 then result else Merge(result, bs[0] % 128, bitpos);
      var next := (bitpos + 7) % 256;
      if bs[0] >= 128 then Dec32From(bs[1..], r, next)
      else if next == 35 && (bs[0] / 16) % 8 != 0 then Fail
      else Ok(r, bs[1..])
  }

  function DecodeVarint32(bs: Bytes): Parse<nat>
  {
    if bs == [] then Fail
    else if bs[0] < 128 then Ok(bs[0], bs[1..])
    else Dec32From(bs[1..], bs[0] % 128, 7)
  }

  lemma {:induction false} Dec32Shorter(bs: Bytes, result: nat, bitpos: nat)
    requires bitpos < 256
    ensures var p := Dec32From(bs, result, bitpos);
            p.Ok? ==> |p.rest| < |bs| && p.rest == bs[|bs| - |p.rest|..]
    decreases |bs|
  {
    if bs != [] && bs[0] >= 128 {
      var r := if bitpos >= 32 then result else Merge(result, bs[0] % 128, bitpos);
      Dec32Shorter(bs[1..], r, (bitpos + 7) % 256);
    }
  }

  lemma Decode32Shorter(bs: Bytes)
    ensures var p := DecodeVarint32(bs);
            p.Ok? ==> |p.rest| < |bs| && p.rest == bs[|bs| - |p.rest|..]
  {
    if bs != [] && bs[0] >= 128 {
      Dec32Shorter(bs[1..], bs[0] % 128, 7);
    }
  }

  // ---------------------------------------------------------------- round trip

  lemma ContinuationByte(g: nat)
    requires g < 128
    ensures (g + 128) % 128 == g && (g + 128) % 16 == g % 16
  {
  }

  lemma HeadDigits(v: nat, b: nat)
    requires b == if v >= 128 then v % 128 + 128 else v
    ensures b % 128 == v % 128 && b % 16 == v % 128 % 16
  {
    if v >= 128 {
      ContinuationByte(v % 128);
    }
  }

  /** The first byte of an encoded value, and what follows it. */
  lemma {:induction false} EncHead(v: nat, rest: Bytes)
    ensures var bs := EncVarint(v) + rest;
            && bs[0] == EncVarint(v)[0] == (if v >= 128 then v % 128 + 128 else v)
            && bs[1..] == (if v >= 128 then EncVarint(v / 128) + rest else rest)
  {
    var bs := EncVarint(v) + rest;
    if v >= 128 {
      assert bs[1..] == EncVarint(v / 128) + rest;
    } else {
      assert bs[1..] == rest;
    }
  }

  lemma {:induction false} EncDigit(v: nat)
    ensures var b: nat := EncVarint(v)[0];
            b % 128 == v % 128 && b % 16 == v % 128 % 16
  {
    HeadDigits(v, EncVarint(v)[0]);
  }

  lemma {:induction false} ScanEnc(v: nat, rest: Bytes)
    ensures Scan(EncVarint(v) + rest) == |EncVarint(v)|
    decreases v
  {
    EncHead(v, rest);
    if v >= 128 {
      ScanEnc(v / 128, rest);
    }
  }

  lemma {:induction false} GroupsEnc(v: nat)
    ensures Groups(EncVarint(v)) == v
    decreases v
  {
    if v >= 128 {
      GroupsEnc(v / 128);
      assert EncVarint(v)[1..] == EncVarint(v / 128);
    }
  }

  lemma {:induction false} EncLen(v: nat, n: nat)
    requires v < Pow128(n) && n > 0
    ensures |EncVarint(v)| <= n
    decreases n
  {
    if v >= 128 {
      EncLen(v / 128, n - 1);
    }
  }

  /** Reading back what was written, for every 64-bit value and whatever follows it. */
  lemma {:induction false} VarintRoundTrip(v: nat, rest: Bytes)
    requires v < U64
    ensures DecodeVarint(EncVarint(v) + rest) == Ok(v, rest)
  {
    ScanEnc(v, rest);
    GroupsEnc(v);
    assert Pow128(10) >= U64;
    EncLen(v, 10);
    var e := EncVarint(v);
    assert (e + rest)[..|e|] == e && (e + rest)[|e|..] == rest;
  }

  lemma Powers128()
    ensures Pow128(1) == 0x80 && Pow128(2) == 0x4000 && Pow128(3) == 0x20_0000 && Pow128(4) == 0x1000_0000
  {
  }

  /** A group merged above every bit of `result` is added, as far as it fits in 32 bits. */
  lemma {:induction false} MergeAbove(result: nat, group: nat, i: nat)
    requires 1 <= i <= 4 && result < Pow128(i) && group < 128
    ensures Merge(result, group, 7 * i) == result + (if i < 4 then group else group % 16) * Pow128(i)
  {
    hide Or;
    Powers128();
    Pow2Is128(i);
    var g := if i < 4 then group else group % 16;
    MulMono(g, 127, Pow128(i));
    OrAbove(result, g, 7 * i);
    if i == 4 {
      assert group * 0x1000_0000 % U32 == g * 0x1000_0000;
    }
  }

  /** Bits 4 to 6 of a final byte at bit 28 would be lost. */
  lemma TopBits(b: nat)
    requires b < 128
    ensures (b / 16) % 8 != 0 <==> b >= 16
  {
  }

  /** One round below bit 32. */
  lemma {:induction false} Dec32Round(bs: Bytes, result: nat, i: nat)
    requires bs != [] && 1 <= i <= 4 && result < Pow128(i)
    ensures var b: nat := bs[0];
            var r := result + (if i < 4 then b % 128 else b % 128 % 16) * Pow128(i);
            Dec32From(bs, result, 7 * i) ==
              if b >= 128 then Dec32From(bs[1..], r, 7 * i + 7)
              else if i == 4 && b >= 16 then Fail
              else Ok(r, bs[1..])
  {
    hide Merge;
    hide Pow128;
    var b: nat := bs[0];
    MergeAbove(result, b % 128, i);
    if b < 128 {
      TopBits(b);
    }
  }

  lemma SmallProduct(v: nat, i: nat)
    requires 1 <= i <= 4 && v * Pow128(i) < U32
    ensures i == 4 ==> v < 16
    ensures v >= 128 ==> i < 4 && v / 128 * Pow128(i + 1) < U32
    ensures v * Pow128(i) == v % 128 * Pow128(i) + v / 128 * Pow128(i + 1)
  {
    Powers128();
    Distribute(v % 128, v / 128, Pow128(i));
    MulMono(v / 128 * 128, v, Pow128(i));
    assert Pow128(i + 1) == 128 * Pow128(i);
  }

  lemma Fits(r: nat, g: nat, i: nat)
    requires r < Pow128(i) && g < 128
    ensures r + g * Pow128(i) < Pow128(i + 1)
  {
    MulMono(g, 127, Pow128(i));
  }

  /** The reader's 32-bit loop started in the middle of an encoded value below 2^32. */
  lemma {:induction false} Dec32Enc(v: nat, rest: Bytes, result: nat, i: nat)
    requires 1 <= i <= 4 && result < Pow128(i) && v * Pow128(i) < U32
    ensures Dec32From(EncVarint(v) + rest, result, 7 * i) == Ok(result + v * Pow128(i), rest)
    decreases v
  {
    hide Dec32From;
    hide EncVarint;
    hide Pow128;
    EncHead(v, rest);
    EncDigit(v);
    SmallProduct(v, i);
    Dec32Round(EncVarint(v) + rest, result, i);
    if v >= 128 {
      Fits(result, v % 128, i);
      Dec32Enc(v / 128, rest, result + v % 128 * Pow128(i), i + 1);
    }
  }

  lemma MulMono(a: nat, b: nat, p: nat)
    requires a <= b
    ensures a * p <= b * p
  {
  }

  lemma Distribute(g: nat, q: nat, p: nat)
    ensures (g + 128 * q) * p == g * p + q * (128 * p)
  {
  }

  lemma {:induction false} FirstByte(v: nat, rest: Bytes)
    ensures DecodeVarint32(EncVarint(v) + rest)
         == if v >= 128 then Dec32From(EncVarint(v / 128) + rest, v % 128, 7) else Ok(v, rest)
  {
    hide Dec32From;
    EncHead(v, rest);
    EncDigit(v);
  }

  lemma {:induction false} Varint32RoundTrip(v: nat, rest: Bytes)
    requires v < U32
    ensures DecodeVarint32(EncVarint(v) + rest) == Ok(v, rest)
  {
    hide DecodeVarint32;
    hide EncVarint;
    FirstByte(v, rest);
    if v >= 128 {
      Powers128();
      Dec32Enc(v / 128, rest, v % 128, 1);
    }
  }

  // ---------------------------------------------------------------- the two readers compared

  lemma {:induction false} ScanWithin(bs: Bytes, n: nat)
    requires n <= |bs| && n > 0
    requires forall j :: 0 <= j < n - 1 ==> bs[j] >= 128
    requires bs[n - 1] < 128
    ensures Scan(bs) == n
  {
    if n > 1 {
      ScanWithin(bs[1..], n - 1);
    }
  }

  lemma {:induction false} ScanPrefix(bs: Bytes, n: nat)
    requires n <= |bs|
    requires forall j :: 0 <= j < n ==> bs[j] >= 128
    ensures Scan(bs) == 0 || Scan(bs) > n
  {
    if n > 0 {
      ScanPrefix(bs[1..], n - 1);
    }
  }

  lemma {:induction false} GroupsSnoc(bs: Bytes, b: Byte)
    ensures Groups(bs + [b]) == Groups(bs) + b % 128 * Pow128(|bs|)
  {
    if bs == [] {
      assert [b][1..] == [];
      assert Groups([b][1..]) == 0;
    } else {
      assert (bs + [b])[1..] == bs[1..] + [b];
      GroupsSnoc(bs[1..], b);
      var g, p := b % 128, Pow128(|bs| - 1);
      assert 128 * (Groups(bs[1..]) + g * p) == 128 * Groups(bs[1..]) + g * (128 * p);
    }
  }

  lemma {:induction false} GroupsBelow(bs: Bytes)
    ensures Groups(bs) < Pow128(|bs|)
  {
    if bs != [] {
      GroupsBelow(bs[1..]);
    }
  }

  lemma FivePowers(i: nat)
    requires i >= 5
    ensures Pow128(i) == U32 * (8 * Pow128(i - 5))
  {
    var k, a, b, c, d := Pow128(i - 5), Pow128(i - 1), Pow128(i - 2), Pow128(i - 3), Pow128(i - 4);
    assert d == 128 * k && c == 128 * d && b == 128 * c && a == 128 * b && Pow128(i) == 128 * a;
  }

  lemma SwapFactors(g: nat, m: nat, k: nat)
    ensures g * (m * k) == m * (g * k)
  {
  }

  /** Digits from the sixth on do not reach the low 32 bits. */
  lemma {:induction false} HighGroupsVanish(r: nat, g: nat, i: nat)
    requires i >= 5
    ensures (r + g * Pow128(i)) % U32 == r % U32
  {
    FivePowers(i);
    var k := 8 * Pow128(i - 5);
    hide Pow128;
    SwapFactors(g, U32, k);
    AddMultiple(r, g * k);
  }

  lemma AddMultiple(r: nat, m: nat)
    ensures (r + U32 * m) % U32 == r % U32
  {
  }

  /** Past bit 32 the 32-bit loop only checks; it never changes its result. */
  lemma {:induction false} Dec32Tail(bs: Bytes, result: nat, i: nat)
    requires 5 <= i && i + Scan(bs) <= 10 && Scan(bs) > 0
    requires Dec32From(bs, result, 7 * i).Ok?
    ensures Dec32From(bs, result, 7 * i) == Ok(result, bs[Scan(bs)..])
    decreases |bs|
  {
    if bs[0] >= 128 {
      Dec32Tail(bs[1..], result, i + 1);
    }
  }

  lemma GroupsCons(bs: Bytes, n: nat)
    requires 0 < n <= |bs|
    ensures Groups(bs[..n]) == bs[0] % 128 + 128 * Groups(bs[1..][..n - 1])
  {
    assert bs[..n][1..] == bs[1..][..n - 1];
  }

  lemma Low32(r: nat, b: nat)
    requires r < 0x1000_0000 && b < 256
    ensures (r + b % 128 * 0x1000_0000) % U32 == r + b % 128 % 16 * 0x1000_0000
  {
  }

  lemma {:induction false} Dec32At28(bs: Bytes, result: nat)
    requires 4 + Scan(bs) <= 10 && Scan(bs) > 0 && result < 0x1000_0000
    requires Dec32From(bs, result, 28).Ok?
    ensures Dec32From(bs, result, 28)
         == Ok((result + Groups(bs[..Scan(bs)]) * 0x1000_0000) % U32, bs[Scan(bs)..])
  {
    hide Dec32From;
    hide Groups;
    var n := Scan(bs);
    var b: nat := bs[0];
    var G := Groups(bs[1..][..n - 1]);
    Powers128();
    GroupsCons(bs, n);
    Dec32Round(bs, result, 4);
    Low32(result, b);
    if b >= 128 {
      Dec32Tail(bs[1..], result + b % 128 % 16 * 0x1000_0000, 5);
      assert Pow128(5) == 0x8_0000_0000;
      HighGroupsVanish(result + b % 128 * 0x1000_0000, G, 5);
    } else {
      assert n == 1 && G == 0 by { EmptyGroups(); assert bs[1..][..0] == []; }
    }
  }

  lemma EmptyGroups()
    ensures Groups([]) == 0
  {
  }

  lemma {:induction false} Dec32Low(bs: Bytes, result: nat, i: nat)
    requires 1 <= i <= 4 && i + Scan(bs) <= 10 && Scan(bs) > 0 && result < Pow128(i)
    requires Dec32From(bs, result, 7 * i).Ok?
    ensures Dec32From(bs, result, 7 * i)
         == Ok((result + Groups(bs[..Scan(bs)]) * Pow128(i)) % U32, bs[Scan(bs)..])
    decreases |bs|
  {
    hide Merge;
    hide Overflows;
    Powers128();
    if i == 4 {
      Dec32At28(bs, result);
    } else {
      var n, p := Scan(bs), Pow128(i);
      var g: nat, G := bs[0] % 128, Groups(bs[1..][..n - 1]);
      GroupsCons(bs, n);
      Distribute(g, G, p);
      assert Pow128(i + 1) == 128 * p;
      MulMono(g, 127, p);
      Dec32Round(bs, result, i);
      if bs[0] >= 128 {
        Dec32Low(bs[1..], result + g * p, i + 1);
      }
    }
  }

  /** On every stream both readers accept they consume the same bytes, and the 32-bit value is the
      64-bit one modulo 2^32. */
  lemma Varint32Agrees(bs: Bytes)
    requires DecodeVarint(bs).Ok? && DecodeVarint32(bs).Ok?
    ensures DecodeVarint32(bs) == Ok(DecodeVarint(bs).val % U32, DecodeVarint(bs).rest)
  {
    hide Dec32From;
    hide Groups;
    var n := Scan(bs);
    GroupsCons(bs, n);
    ModMod(Groups(bs[..n]));
    if bs[0] >= 128 {
      Powers128();
      Dec32Low(bs[1..], bs[0] % 128, 1);
    } else {
      EmptyGroups();
      assert bs[1..][..0] == [];
    }
  }

  lemma ModMod(x: nat)
    ensures x % U64 % U32 == x % U32
  {
  }

  // ---------------------------------------------------------------- which 64-bit values the 32-bit reader takes

  /** Bits 31 and 63 are set and each seven-bit group at 35, 42, 49 and 56 is all zeros or all ones;
      bits 32 to 34 are free. */
  predicate SignExtended(v: nat)
  {
    && v / 0x8000_0000 % 2 == 1
    && v / 0x8000_0000_0000_0000 % 2 == 1
    && v / 0x8_0000_0000 % 128 in {0, 127}
    && v / 0x400_0000_0000 % 128 in {0, 127}
    && v / 0x2_0000_0000_0000 % 128 in {0, 127}
    && v / 0x100_0000_0000_0000 % 128 in {0, 127}
  }

  /** The same condition read off one group at a time, from group `i` up. */
  predicate TailFits(w: nat, i: nat)
    requires i <= 9
    decreases 9 - i
  {
    if i == 9 then w == 1 else w % 128 in {0, 127} && TailFits(w / 128, i + 1)
  }

  lemma {:induction false} ZeroTail(i: nat)
    requires i <= 9
    ensures !TailFits(0, i)
    decreases 9 - i
  {
    if i < 9 {
      ZeroTail(i + 1);
    }
  }

  lemma {:induction false} Dec32TailFits(w: nat, rest: Bytes, result: nat, i: nat)
    requires 5 <= i <= 9 && 0 < w < 2 * Pow128(9 - i)
    ensures Dec32From(EncVarint(w) + rest, result, 7 * i).Ok? <==> result >= 0x8000_0000 && TailFits(w, i)
    decreases w
  {
    var bs := EncVarint(w) + rest;
    assert bs[0] % 128 == w % 128;
    if w >= 128 {
      assert bs[1..] == EncVarint(w / 128) + rest;
      assert i < 9 by { assert Pow128(0) == 1; }
      assert w / 128 < 2 * Pow128(9 - (i + 1)) by { assert Pow128(9 - i) == 128 * Pow128(8 - i); }
      Dec32TailFits(w / 128, rest, result, i + 1);
    } else {
      assert bs[1..] == rest;
      if i < 9 {
        ZeroTail(i + 1);
      } else {
        assert Pow128(0) == 1;
      }
    }
  }

  lemma {:induction false} Dec32Peel(v: nat, rest: Bytes, result: nat, i: nat)
    requires 1 <= i <= 3 && v >= 128 && result < Pow128(i)
    ensures Dec32From(EncVarint(v) + rest, result, 7 * i)
         == Dec32From(EncVarint(v / 128) + rest, result + v % 128 * Pow128(i), 7 * i + 7)
  {
    hide Dec32From;
    hide EncVarint;
    EncHead(v, rest);
    EncDigit(v);
    Dec32Round(EncVarint(v) + rest, result, i);
  }

  /** The first four bytes of a value of at least 2^28 carry its low 28 bits. */
  lemma {:induction false} Dec32ReachesBit28(v: nat, rest: Bytes)
    requires v >= 0x1000_0000
    ensures DecodeVarint32(EncVarint(v) + rest)
         == Dec32From(EncVarint(v / 0x1000_0000) + rest, v % 0x1000_0000, 28)
  {
    hide Dec32From;
    hide EncVarint;
    hide DecodeVarint32;
    var v1, v2, v3 := v / 0x80, v / 0x4000, v / 0x20_0000;
    assert v1 / 128 == v2 && v2 / 128 == v3 && v3 / 128 == v / 0x1000_0000;
    assert v % 0x4000 == v % 128 + v1 % 128 * 0x80;
    assert v % 0x20_0000 == v % 0x4000 + v2 % 128 * 0x4000;
    assert v % 0x1000_0000 == v % 0x20_0000 + v3 % 128 * 0x20_0000;
    Powers128();
    FirstByte(v, rest);
    Dec32Peel(v1, rest, v % 128, 1);
    Dec32Peel(v2, rest, v % 0x4000, 2);
    Dec32Peel(v3, rest, v % 0x20_0000, 3);
  }

  lemma {:induction false} TailIsSignExtended(v: nat)
    requires U32 <= v < U64 && v >= 0x8_0000_0000
    ensures v % U32 >= 0x8000_0000 && TailFits(v / 0x8_0000_0000, 5) <==> SignExtended(v)
  {
    var w5 := v / 0x8_0000_0000;
    var w6, w7, w8, w9 := w5 / 128, w5 / 128 / 128, w5 / 128 / 128 / 128, w5 / 128 / 128 / 128 / 128;
    assert w6 == v / 0x400_0000_0000 && w7 == v / 0x2_0000_0000_0000;
    assert w8 == v / 0x100_0000_0000_0000 && w9 == v / 0x8000_0000_0000_0000;
    assert TailFits(w9, 9) == (w9 == 1);
    assert TailFits(w8, 8) == (w8 % 128 in {0, 127} && TailFits(w9, 9));
    assert TailFits(w7, 7) == (w7 % 128 in {0, 127} && TailFits(w8, 8));
    assert TailFits(w6, 6) == (w6 % 128 in {0, 127} && TailFits(w7, 7));
    assert TailFits(w5, 5) == (w5 % 128 in {0, 127} && TailFits(w6, 6));
    assert w9 % 2 == 1 <==> w9 == 1;
    assert v % U32 >= 0x8000_0000 <==> v / 0x8000_0000 % 2 == 1;
  }

  lemma Mod16(h: nat)
    ensures h % 128 % 16 == h % 16
  {
  }

  lemma {:induction false} Dec32At28Enc(h: nat, rest: Bytes, low: nat)
    requires low < 0x1000_0000 && 16 <= h
    ensures Dec32From(EncVarint(h) + rest, low, 28)
         == if h >= 128 then Dec32From(EncVarint(h / 128) + rest, low + h % 16 * 0x1000_0000, 35) else Fail
  {
    hide Merge;
    hide Overflows;
    hide EncVarint;
    Powers128();
    EncHead(h, rest);
    EncDigit(h);
    Mod16(h);
    Dec32Round(EncVarint(h) + rest, low, 4);
  }

  lemma Remainder32(v: nat, q: nat, r: nat)
    requires v == q * U32 + r && r < U32
    ensures v % U32 == r
  {
  }

  lemma SplitAt28(v: nat)
    ensures v % 0x1000_0000 + v / 0x1000_0000 % 16 * 0x1000_0000 == v % U32
    ensures v / 0x1000_0000 / 128 == v / 0x8_0000_0000
  {
    var h, low := v / 0x1000_0000, v % 0x1000_0000;
    assert v == h * 0x1000_0000 + low;
    assert h == 16 * (h / 16) + h % 16;
    Remainder32(v, h / 16, low + h % 16 * 0x1000_0000);
  }

  lemma {:induction false} Varint32AcceptsBig(v: nat, rest: Bytes)
    requires U32 <= v < U64
    ensures DecodeVarint32(EncVarint(v) + rest).Ok?
       <==> v >= 0x8_0000_0000 && v % U32 >= 0x8000_0000 && TailFits(v / 0x8_0000_0000, 5)
  {
    hide Dec32From;
    hide TailFits;
    hide DecodeVarint32;
    hide EncVarint;
    var h, low := v / 0x1000_0000, v % 0x1000_0000;
    Dec32ReachesBit28(v, rest);
    Dec32At28Enc(h, rest, low);
    SplitAt28(v);
    if h >= 128 {
      assert Pow128(4) == 0x1000_0000 by { Powers128(); }
      Dec32TailFits(h / 128, rest, v % U32, 5);
    }
  }

  /** Exactly which encoded 64-bit values the 32-bit reader accepts. */
  lemma {:induction false} Varint32Accepts(v: nat, rest: Bytes)
    requires v < U64
    ensures DecodeVarint32(EncVarint(v) + rest).Ok? <==> v < U32 || SignExtended(v)
  {
    if v < U32 {
      Varint32RoundTrip(v, rest);
    } else {
      Varint32AcceptsBig(v, rest);
      if v >= 0x8_0000_0000 {
        TailIsSignExtended(v);
      }
    }
  }
}
