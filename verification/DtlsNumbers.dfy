/** Record numbers and nonces: no (epoch, number) pair is sealed twice, and no nonce repeats under one key
    (dtls_record.cc, dtls_method.cc, tls_record.cc, ssl_aead_ctx.cc). */
module DtlsNumbers {
  import opened DtlsReplay
  import opened Octets

  /** Record numbers are 48 bits, epochs 16. */
  const U48: nat := 0x1_0000_0000_0000

  // ---------------------------------------------------------------- incrementing a number in place

  /** Incrementing the last byte that is not 0xff and zeroing those after it adds one. */
  lemma {:induction false} Carry(a: Bytes, b: Bytes, k: nat)
    requires k <= |a| == |b|
    requires k > 0 ==> a[..k - 1] == b[..k - 1] && a[k - 1] < 255 && b[k - 1] == a[k - 1] + 1
    requires forall j :: k <= j < |a| ==> a[j] == 255 && b[j] == 0
    ensures k > 0 ==> BigEndian(b) == BigEndian(a) + 1
    ensures k == 0 ==> BigEndian(b) == 0 && BigEndian(a) + 1 == Pow256(|a|)
    decreases |a|
  {
    var n := |a| - 1;
    if |a| > k {
      assert a[..n][..k] == a[..k] && b[..n][..k] == b[..k];
      if k > 0 {
        assert a[..n][..k - 1] == a[..k - 1] && b[..n][..k - 1] == b[..k - 1];
      }
      Carry(a[..n], b[..n], k);
    } else if k > 0 {
      assert a[..n] == b[..n];
    }
  }

  /** ssl_record_sequence_update on the bytes from `from`. */
  method SequenceUpdate(s: array<Byte>, from: nat) returns (ok: bool)
    requires from < s.Length
    modifies s
    ensures s[..from] == old(s[..from])
    ensures ok <==> BigEndian(old(s[from..])) + 1 < Pow256(s.Length - from)
    ensures BigEndian(s[from..]) == if ok then BigEndian(old(s[from..])) + 1 else 0
  {
    hide BigEndian;
    hide Pow256;
    var i := s.Length;
    while i > from
      invariant from <= i <= s.Length
      invariant s[..i] == old(s[..i])
      invariant forall j :: i <= j < s.Length ==> old(s[j]) == 255 && s[j] == 0
    {
      i := i - 1;
      s[i] := if s[i] == 255 then 0 else s[i] + 1;
      if s[i] != 0 {
        assert old(s[from..])[..i - from] == s[from..][..i - from];
        Carry(old(s[from..]), s[from..], i - from + 1);
        BigEndianBound(s[from..]);
        return true;
      }
    }
    Carry(old(s[from..]), s[from..], 0);
    return false;
  }

  // ---------------------------------------------------------------- runs of seals and cipher changes

  /** The epoch, the next number in it, and the next number in the epoch before. */
  datatype Numbers = Numbers(epoch: nat, next: nat, lastNext: nat)
  {
    predicate Fits() { epoch < U16 && next < U48 && lastNext < U48 }

    /** The pair dtls_seal_record puts on a record. */
    function Pair(previous: bool): (nat, nat)
    {
      if previous && epoch >= 1 then (epoch - 1, lastNext) else (epoch, next)
    }

    /** The counter after it was used, zero if it wrapped. */
    function Used(previous: bool): Numbers
    {
      if previous then this.(lastNext := (lastNext + 1) % U48) else this.(next := (next + 1) % U48)
    }

    predicate Wraps(previous: bool)
    {
      (if previous then lastNext else next) + 1 == U48
    }

    /** dtls1_set_write_state */
    function Changed(): Numbers
    {
      Numbers((epoch + 1) % U16, 0, next)
    }
  }

  datatype Op = Seal(previous: bool) | ChangeCipher

  /** The pairs used by a run, up to the first seal that reports a wrapped counter. The previous epoch is
      used only when there is one. */
  function Sealed(n: Numbers, ops: seq<Op>): seq<(nat, nat)>
    decreases |ops|
  {
    if ops == [] then []
    else
      match ops[0]
      case ChangeCipher => Sealed(n.Changed(), ops[1..])
      case Seal(previous) =>
        if previous && n.epoch == 0 then Sealed(n, ops[1..])
        else [n.Pair(previous)] + if n.Wraps(previous) then [] else Sealed(n.Used(previous), ops[1..])
  }

  function Changes(ops: seq<Op>): nat
  {
    if ops == [] then 0 else (if ops[0].ChangeCipher? then 1 else 0) + Changes(ops[1..])
  }

  predicate Unique(ps: seq<(nat, nat)>)
  {
    forall i, j :: 0 <= i < j < |ps| ==> ps[i] != ps[j]
  }

  /** A pair not used yet, when `n` is reached without an epoch coming round again. */
  predicate Unused(n: Numbers, p: (nat, nat))
  {
    p.0 > n.epoch || (p.0 == n.epoch && p.1 >= n.next) || (p.0 + 1 == n.epoch && p.1 >= n.lastNext)
  }

  ghost predicate AllUnused(n: Numbers, ps: seq<(nat, nat)>)
  {
    forall i :: 0 <= i < |ps| ==> Unused(n, ps[i])
  }

  lemma {:induction false} SealedUnique(n: Numbers, ops: seq<Op>)
    requires n.Fits() && n.epoch + Changes(ops) < U16
    ensures Unique(Sealed(n, ops)) && AllUnused(n, Sealed(n, ops))
    decreases |ops|
  {
    if ops != [] {
      match ops[0]
      case ChangeCipher =>
        SealedUnique(n.Changed(), ops[1..]);
        var ps := Sealed(n, ops);
        forall i | 0 <= i < |ps|
          ensures Unused(n, ps[i])
        {
          assert Unused(n.Changed(), ps[i]);
        }
      case Seal(previous) =>
        if previous && n.epoch == 0 {
          SealedUnique(n, ops[1..]);
        } else if !n.Wraps(previous) {
          SealedUnique(n.Used(previous), ops[1..]);
          Prepend(n, previous, Sealed(n.Used(previous), ops[1..]));
        }
    }
  }

  lemma Prepend(n: Numbers, previous: bool, ps: seq<(nat, nat)>)
    requires n.Fits() && !n.Wraps(previous) && (previous ==> n.epoch > 0)
    requires Unique(ps) && AllUnused(n.Used(previous), ps)
    ensures Unique([n.Pair(previous)] + ps) && AllUnused(n, [n.Pair(previous)] + ps)
  {
    forall i | 0 <= i < |ps|
      ensures Unused(n, ps[i]) && ps[i] != n.Pair(previous)
    {
      assert Unused(n.Used(previous), ps[i]);
    }
  }

  const START: Numbers := Numbers(0, 0, 0)

  /** Any number of cipher changes in a row. */
  function Switches(k: nat): (ops: seq<Op>)
    ensures |ops| == k
  {
    if k == 0 then [] else [ChangeCipher] + Switches(k - 1)
  }

  lemma {:induction false} SwitchesRun(n: Numbers, k: nat, rest: seq<Op>)
    requires n.Fits()
    ensures Changes(Switches(k) + rest) == k + Changes(rest)
    ensures k > 1 ==> Sealed(n, Switches(k) + rest) == Sealed(Numbers((n.epoch + k) % U16, 0, 0), rest)
    ensures k == 1 ==> Sealed(n, Switches(k) + rest) == Sealed(n.Changed(), rest)
    decreases k
  {
    var ops := Switches(k) + rest;
    if k == 0 {
      assert ops == rest;
    } else {
      assert ops[0] == ChangeCipher && ops[1..] == Switches(k - 1) + rest;
      SwitchesRun(n.Changed(), k - 1, rest);
      if k == 1 {
        assert Switches(0) + rest == rest;
      } else {
        EpochSum(n.epoch, k);
      }
    }
  }

  lemma EpochSum(e: nat, k: nat)
    requires k >= 1
    ensures ((e + 1) % U16 + (k - 1)) % U16 == (e + k) % U16
  {
  }

  /** A run that seals, changes the cipher 65536 times and seals again. */
  function EpochRoundTrip(k: nat): seq<Op>
    requires k >= U16
  {
    [Seal(false)] + (Switches(U16) + ([Seal(false)] + Switches(k - U16)))
  }

  lemma {:induction false} SealsFirst(n: Numbers, rest: seq<Op>)
    requires !n.Wraps(false)
    ensures Sealed(n, [Seal(false)] + rest) == [(n.epoch, n.next)] + Sealed(n.Used(false), rest)
    ensures Changes([Seal(false)] + rest) == Changes(rest)
  {
    assert ([Seal(false)] + rest)[1..] == rest;
  }

  lemma EpochComesRound(k: nat)
    requires k >= U16
    ensures Changes(EpochRoundTrip(k)) == k && !Unique(Sealed(START, EpochRoundTrip(k)))
  {
    hide Switches;
    hide Sealed;
    hide Changes;
    var rest := Switches(k - U16);
    var tail := [Seal(false)] + rest;
    SealsFirst(START, Switches(U16) + tail);
    SwitchesRun(START.Used(false), U16, tail);
    SealsFirst(START, rest);
    assert rest + [] == rest;
    SwitchesRun(START, k - U16, []);
    NoChanges();
    var ps := Sealed(START, EpochRoundTrip(k));
    assert ps[0] == (0, 0) && ps[1] == (0, 0);
  }

  lemma NoChanges()
    ensures Changes([]) == 0
  {
  }

  /** Over all runs with `k` cipher changes no pair is sealed twice before a counter reports that it wrapped,
      exactly when `k` is below 65536: the 16-bit epoch comes round without any report. */
  lemma NumbersNeverRepeat(k: nat)
    ensures k < U16 <==> forall ops | Changes(ops) == k :: Unique(Sealed(START, ops))
  {
    if k < U16 {
      forall ops | Changes(ops) == k
        ensures Unique(Sealed(START, ops))
      {
        SealedUnique(START, ops);
      }
    } else {
      EpochComesRound(k);
    }
  }

  // ---------------------------------------------------------------- the eight bytes of a record number

  function ToBytes(n: nat, len: nat): (bs: Bytes)
    ensures |bs| == len
  {
    if len == 0 then [] else ToBytes(n / 256, len - 1) + [n % 256]
  }

  lemma {:induction false} BigEndianToBytes(n: nat, len: nat)
    requires n < Pow256(len)
    ensures BigEndian(ToBytes(n, len)) == n
  {
    if len > 0 {
      BigEndianToBytes(n / 256, len - 1);
      assert ToBytes(n, len)[..len - 1] == ToBytes(n / 256, len - 1);
    }
  }

  lemma Powers()
    ensures Pow256(2) == U16 && Pow256(6) == U48
  {
    assert Pow256(1) == 256;
  }

  /** The epoch and number as they stand in a record's header. */
  function SequenceBytes(p: (nat, nat)): (bs: Bytes)
    ensures |bs| == 8
  {
    ToBytes(p.0, 2) + ToBytes(p.1, 6)
  }

  lemma SequenceBytesInjective(p: (nat, nat), q: (nat, nat))
    requires p.0 < U16 && q.0 < U16 && p.1 < U48 && q.1 < U48
    requires SequenceBytes(p) == SequenceBytes(q)
    ensures p == q
  {
    hide ToBytes;
    hide Pow256;
    Powers();
    BigEndianToBytes(p.0, 2);
    BigEndianToBytes(q.0, 2);
    BigEndianToBytes(p.1, 6);
    BigEndianToBytes(q.1, 6);
    assert SequenceBytes(p)[..2] == SequenceBytes(q)[..2] && SequenceBytes(p)[2..] == SequenceBytes(q)[2..];
  }

  // ---------------------------------------------------------------- nonces

  /** How a cipher makes its nonces: the fields of SSLAEADContext. */
  datatype NonceRule = NonceRule(fixed: Bytes, variableLen: nat, included: bool, random: bool, xor: bool)
  {
    /** The combinations Create sets up. */
    predicate Valid()
    {
      && (xor ==> |fixed| >= variableLen && !included)
      && (!included ==> variableLen == 8)
      && (!random ==> variableLen == 8)
      && (random ==> included)
    }

    /** The nonce that a variable part gives. */
    function Nonce(variable: Bytes): (nonce: Bytes)
      requires Valid() && |variable| == variableLen
    {
      if xor then XorBytes(Zeros(|fixed| - variableLen) + variable, fixed) else fixed + variable
    }
  }

  /** Exclusive or of the `n` low bits. */
  function XorBits(a: nat, b: nat, n: nat): (c: nat)
    ensures c < Pow2(n)
  {
    if n == 0 then 0 else 2 * XorBits(a / 2, b / 2, n - 1) + if a % 2 != b % 2 then 1 else 0
  }

  function XorByte(a: Byte, b: Byte): Byte
  {
    assert Pow2(4) == 16 && Pow2(8) == 256;
    XorBits(a, b, 8)
  }

  lemma BitBelow(a: nat, i: nat)
    requires i > 0
    ensures TestBit(a, i) <==> TestBit(a / 2, i - 1)
  {
    HalveTwice(a, Pow2(i - 1));
  }

  lemma XorHalf(a: nat, b: nat, n: nat)
    requires n > 0
    ensures XorBits(a, b, n) / 2 == XorBits(a / 2, b / 2, n - 1)
    ensures XorBits(a, b, n) % 2 == if a % 2 != b % 2 then 1 else 0
  {
  }

  /** Each bit of the result is set where exactly one of the two is. */
  lemma {:induction false} XorBitwise(a: nat, b: nat, n: nat, i: nat)
    requires i < n
    ensures TestBit(XorBits(a, b, n), i) <==> TestBit(a, i) != TestBit(b, i)
    decreases n
  {
    hide XorBits;
    XorHalf(a, b, n);
    if i > 0 {
      hide TestBit;
      XorBitwise(a / 2, b / 2, n - 1, i - 1);
      BitBelow(a, i);
      BitBelow(b, i);
      BitBelow(XorBits(a, b, n), i);
    }
  }

  lemma {:induction false} XorTwice(a: nat, k: nat, n: nat)
    requires a < Pow2(n)
    ensures XorBits(XorBits(a, k, n), k, n) == a
    decreases n
  {
    if n > 0 {
      XorTwice(a / 2, k / 2, n - 1);
    }
  }

  lemma XorByteTwice(a: Byte, k: Byte)
    ensures XorByte(XorByte(a, k), k) == a
  {
    assert Pow2(4) == 16 && Pow2(8) == 256;
    XorTwice(a, k, 8);
  }

  lemma {:induction false} XorCancels(a: nat, b: nat, k: nat, n: nat)
    requires a < Pow2(n) && b < Pow2(n) && XorBits(a, k, n) == XorBits(b, k, n)
    ensures a == b
  {
    if n > 0 {
      Halves(XorBits(a / 2, k / 2, n - 1), a % 2 != k % 2, XorBits(b / 2, k / 2, n - 1), b % 2 != k % 2);
      XorCancels(a / 2, b / 2, k / 2, n - 1);
    }
  }

  lemma Halves(x: nat, p: bool, y: nat, q: bool)
    requires 2 * x + (if p then 1 else 0) == 2 * y + if q then 1 else 0
    ensures x == y && p == q
  {
  }

  lemma XorByteCancels(a: Byte, b: Byte, k: Byte)
    requires XorByte(a, k) == XorByte(b, k)
    ensures a == b
  {
    assert Pow2(4) == 16 && Pow2(8) == 256;
    XorCancels(a, b, k, 8);
  }

  function XorBytes(a: Bytes, b: Bytes): (c: Bytes)
    requires |a| == |b|
    ensures |c| == |a|
  {
    seq(|a|, i requires 0 <= i < |a| => XorByte(a[i], b[i]))
  }

  /** Where the two parts of a nonce lie: one after the other, or the variable part against the end of the fixed one,
      both undone by a second exclusive or. */
  lemma NonceParts(rule: NonceRule, variable: Bytes)
    requires rule.Valid() && |variable| == rule.variableLen
    ensures var nonce, n := rule.Nonce(variable), |rule.fixed|;
            if !rule.xor then n <= |nonce| && nonce[..n] == rule.fixed && nonce[n..] == variable
            else |nonce| == n && XorBytes(nonce, rule.fixed) == seq(n - |variable|, _ => 0) + variable
  {
    hide XorByte;
    if rule.xor {
      var padded := Zeros(|rule.fixed| - rule.variableLen) + variable;
      forall i | 0 <= i < |rule.fixed|
        ensures XorByte(rule.Nonce(variable)[i], rule.fixed[i]) == padded[i]
      {
        XorByteTwice(padded[i], rule.fixed[i]);
      }
    }
  }

  /** The nonce in SealScatter and Open: the fixed part or zeros, the variable part, then the exclusive or. */
  method AssembleNonce(rule: NonceRule, variable: Bytes) returns (nonce: array<Byte>)
    requires rule.Valid() && |variable| == rule.variableLen
    ensures fresh(nonce) && nonce[..] == rule.Nonce(variable)
    ensures !rule.xor ==> nonce.Length == |rule.fixed| + |variable| && nonce[..|rule.fixed|] == rule.fixed && nonce[|rule.fixed|..] == variable
    ensures rule.xor ==> XorBytes(nonce[..], rule.fixed) == seq(|rule.fixed| - |variable|, _ => 0) + variable
  {
    hide XorByte;
    var start := if rule.xor then |rule.fixed| - rule.variableLen else |rule.fixed|;
    nonce := new Byte[start + rule.variableLen];
    forall i | 0 <= i < start {
      nonce[i] := if rule.xor then 0 else rule.fixed[i];
    }
    forall i | 0 <= i < rule.variableLen {
      nonce[start + i] := variable[i];
    }
    ghost var padded := nonce[..];
    assert padded == (if rule.xor then Zeros(start) else rule.fixed) + variable;
    if rule.xor {
      var i := 0;
      while i < |rule.fixed|
        invariant 0 <= i <= |rule.fixed|
        invariant forall k :: 0 <= k < i ==> nonce[k] == XorByte(padded[k], rule.fixed[k])
        invariant forall k :: i <= k < |rule.fixed| ==> nonce[k] == padded[k]
      {
        nonce[i] := XorByte(nonce[i], rule.fixed[i]);
        i := i + 1;
      }
    }
    NonceParts(rule, variable);
    assert nonce[..] == rule.Nonce(variable);
  }

  /** The variable part SealScatter uses: fresh random bytes or the record number. */
  function Variable(rule: NonceRule, sequence: Bytes, random: Bytes): Bytes
  {
    if rule.random then random else sequence
  }

  /** What SealScatter puts before the ciphertext. */
  function NoncePrefix(rule: NonceRule, variable: Bytes): Bytes
  {
    if rule.included then variable else []
  }

  /** The variable part Open uses: the record's first bytes or the record number. */
  function OpenVariable(rule: NonceRule, sequence: Bytes, input: Bytes): Option<(Bytes, Bytes)>
  {
    if !rule.included then Some((sequence, input))
    else if |input| < rule.variableLen then None
    else Some((input[..rule.variableLen], input[rule.variableLen..]))
  }

  /** Opening a record finds the variable part, and so the nonce, that sealing it used. */
  lemma OpenFindsNonce(rule: NonceRule, sequence: Bytes, random: Bytes, ciphertext: Bytes)
    requires rule.Valid() && |sequence| == 8 && |random| == rule.variableLen
    ensures var v := Variable(rule, sequence, random);
            |v| == rule.variableLen
            && OpenVariable(rule, sequence, NoncePrefix(rule, v) + ciphertext) == Some((v, ciphertext))
  {
    var v := Variable(rule, sequence, random);
    assert [] + ciphertext == ciphertext;
    if rule.included {
      assert (v + ciphertext)[..rule.variableLen] == v;
      assert (v + ciphertext)[rule.variableLen..] == ciphertext;
    }
  }

  lemma NonceInjective(rule: NonceRule, s: Bytes, t: Bytes)
    requires rule.Valid() && |s| == rule.variableLen == |t|
    requires rule.Nonce(s) == rule.Nonce(t)
    ensures s == t
  {
    hide XorByte;
    var n := if rule.xor then |rule.fixed| - rule.variableLen else |rule.fixed|;
    forall i | 0 <= i < |s|
      ensures s[i] == t[i]
    {
      assert rule.Nonce(s)[n + i] == rule.Nonce(t)[n + i];
      if rule.xor {
        XorByteCancels(s[i], t[i], rule.fixed[n + i]);
      }
    }
  }

  lemma {:induction false} SealedFits(n: Numbers, ops: seq<Op>, i: nat)
    requires n.Fits() && i < |Sealed(n, ops)|
    ensures Sealed(n, ops)[i].0 < U16 && Sealed(n, ops)[i].1 < U48
    decreases |ops|
  {
    match ops[0]
    case ChangeCipher => SealedFits(n.Changed(), ops[1..], i);
    case Seal(previous) =>
      if previous && n.epoch == 0 {
        SealedFits(n, ops[1..], i);
      } else if i > 0 {
        SealedFits(n.Used(previous), ops[1..], i - 1);
      }
  }

  /** Under a cipher whose nonces are not random, no two records of a run share a nonce. */
  lemma {:induction false} NoncesNeverRepeat(rule: NonceRule, ops: seq<Op>, i: nat, j: nat)
    requires rule.Valid() && !rule.random && Changes(ops) < U16
    requires i < j < |Sealed(START, ops)|
    ensures var ps := Sealed(START, ops);
            rule.Nonce(SequenceBytes(ps[i])) != rule.Nonce(SequenceBytes(ps[j]))
  {
    hide NonceRule.Nonce;
    hide SequenceBytes;
    var ps := Sealed(START, ops);
    SealedUnique(START, ops);
    SealedFits(START, ops, i);
    SealedFits(START, ops, j);
    if rule.Nonce(SequenceBytes(ps[i])) == rule.Nonce(SequenceBytes(ps[j])) {
      NonceInjective(rule, SequenceBytes(ps[i]), SequenceBytes(ps[j]));
      SequenceBytesInjective(ps[i], ps[j]);
    }
  }
}
