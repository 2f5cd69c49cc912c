/** What opening records does to the replay window: only authentic records count (dtls_record.cc; section 4.1.2.6 of
    RFC 6347). */
module DtlsOpen {
  import opened DtlsNumbers
  import opened DtlsRecord
  import opened DtlsReplay
  import opened DtlsWire
  import opened Octets
  import opened RecordTypes

  /** The 16-bit number at a position. */
  function Number(input: Bytes, i: nat): (n: nat)
    requires i + 1 < |input|
    ensures n < 0x1_0000
  {
    256 * (input[i] as int) + input[i + 1] as int
  }

  /** A whole record stands at the front of the packet: thirteen bytes of header, of a version that will do, and as many
      bytes as the last two say, at most 16704. */
  predicate Framed(aead: Aead, input: Bytes)
  {
    && |input| >= 13
    && var n := Number(input, 11);
       && 13 + n <= |input| && n <= 16704
       && (if aead.nullCipher then input[1] == 254 else Number(input, 1) == aead.version)
  }

  /** What the cipher makes of it, if it is in the reader's epoch. */
  function Decrypted(aead: Aead, input: Bytes): Option<Bytes>
    requires Framed(aead, input)
  {
    aead.open(input[0], Number(input, 1), input[3..11], input[13..13 + Number(input, 11)])
  }

  predicate InEpoch(epoch: nat, input: Bytes)
    requires |input| >= 13
  {
    Number(input, 3) == epoch
  }

  /** The record is authentic and its plaintext not too long. */
  predicate Genuine(aead: Aead, input: Bytes)
    requires Framed(aead, input)
  {
    Decrypted(aead, input).Some? && |Decrypted(aead, input).value| <= 16384
  }

  lemma HeadVersion(aead: Aead, input: Bytes)
    requires |input| >= 13
    ensures BodyLength(input).Some? && aead.VersionOk(Get16(input[1], input[2])) <==> Framed(aead, input)
    ensures BodyLength(input).Some? ==> BodyLength(input).value == Number(input, 11)
  {
    assert Number(input, 1) / 256 == input[1];
  }

  /** For every input: what is handed on and when, what else can come of it, and that the window takes note of exactly the
      numbers of records that are handed on. */
  lemma OpenVerdict(f: Filter, epoch: nat, aead: Aead, input: Bytes)
    ensures var (r, g) := OpenRecord(f, epoch, aead, input);
            if input == [] then r.verdict == NoInput && g == f
            else if !Framed(aead, input) then r.verdict == Dropped && r.consumed == |input| && g == f
            else
              var number := BigEndian(input[3..11]);
              && r.consumed == 13 + Number(input, 11)
              && if InEpoch(epoch, input) && !Stale(f.seen, f.max, number) && Genuine(aead, input) then
                   && r.verdict == (if input[0] == 21 then Alerted else Opened)
                   && r.ty == input[0] && Decrypted(aead, input) == Some(r.body)
                   && g == Filter(f.seen + {number}, if number > f.max then number else f.max)
                 else
                   && g == f
                   && r.verdict == if InEpoch(epoch, input) && !Stale(f.seen, f.max, number) && Decrypted(aead, input).Some?
                                   then TooLong else Dropped
  {
    hide BigEndian;
    hide Stale;
    if |input| >= 13 {
      HeadVersion(aead, input);
    }
  }

  // ---------------------------------------------------------------- runs

  /** The results of opening one input after another, and the window at the end. */
  ghost function OpenAll(f: Filter, epoch: nat, aead: Aead, inputs: seq<Bytes>): (seq<OpenResult>, Filter)
    decreases |inputs|
  {
    if inputs == [] then ([], f)
    else
      var (r, g) := OpenRecord(f, epoch, aead, inputs[0]);
      var (rs, h) := OpenAll(g, epoch, aead, inputs[1..]);
      ([r] + rs, h)
  }

  /** What the window sees of the inputs: the framed ones of its epoch. */
  function Arrivals(epoch: nat, aead: Aead, inputs: seq<Bytes>): seq<Arrival>
  {
    if inputs == [] then []
    else
      (if Framed(aead, inputs[0]) && InEpoch(epoch, inputs[0])
       then [Arrival(BigEndian(inputs[0][3..11]), Genuine(aead, inputs[0]))] else [])
      + Arrivals(epoch, aead, inputs[1..])
  }

  /** The numbers of the records handed on, in order. */
  function HandedOn(inputs: seq<Bytes>, rs: seq<OpenResult>): seq<nat>
    requires |inputs| == |rs|
  {
    if inputs == [] then []
    else
      (if (rs[0].verdict.Opened? || rs[0].verdict.Alerted?) && |inputs[0]| >= 13 then [BigEndian(inputs[0][3..11])] else [])
      + HandedOn(inputs[1..], rs[1..])
  }

  lemma {:induction false} OpenAllIs(f: Filter, epoch: nat, aead: Aead, inputs: seq<Bytes>)
    ensures |OpenAll(f, epoch, aead, inputs).0| == |inputs|
    ensures OpenAll(f, epoch, aead, inputs).1 == After(f, Arrivals(epoch, aead, inputs))
    ensures HandedOn(inputs, OpenAll(f, epoch, aead, inputs).0) == Accepted(f, Arrivals(epoch, aead, inputs))
    decreases |inputs|
  {
    hide OpenRecord;
    hide BigEndian;
    hide Stale;
    hide InEpoch;
    hide Genuine;
    if inputs != [] {
      OpenVerdict(f, epoch, aead, inputs[0]);
      var (r, g) := OpenRecord(f, epoch, aead, inputs[0]);
      var (rs, h) := OpenAll(g, epoch, aead, inputs[1..]);
      OpenAllIs(g, epoch, aead, inputs[1..]);
      assert ([r] + rs)[1..] == rs;
      var run, tail := Arrivals(epoch, aead, inputs), Arrivals(epoch, aead, inputs[1..]);
      if Framed(aead, inputs[0]) && InEpoch(epoch, inputs[0]) {
        assert run[1..] == tail;
      } else {
        assert run == tail;
      }
    }
  }

  /** Whatever came before, no number is handed on twice; and a sealed record of the reader's epoch opens exactly if its
      number was not handed on yet and is less than 64 below every number that was. */
  lemma {:induction false} OpensUnlessSeen(epoch: nat, aead: Aead, inputs: seq<Bytes>, ty: Byte, version: nat, p: (nat, nat), ciphertext: Bytes,
                        plaintext: Bytes, rest: Bytes)
    requires version < U16 && p.0 == epoch < U16 && |ciphertext| <= MAX_ENCRYPTED_LENGTH && ty != RT_ALERT
    requires aead.VersionOk(version) && |plaintext| <= MAX_PLAIN_LENGTH
    requires aead.open(ty, version, SequenceBytes(p), ciphertext) == Some(plaintext)
    ensures var (rs, g) := OpenAll(Filter({}, 0), epoch, aead, inputs);
            |rs| == |inputs| &&
            var handed, s := HandedOn(inputs, rs), FullNumber(p);
            && Distinct(handed)
            && (OpenRecord(g, epoch, aead, SealedBytes(ty, version, p, ciphertext) + rest).0
                == OpenResult(Opened, 13 + |ciphertext|, ty, plaintext)
                <==> s !in handed && forall x :: x in handed ==> x < s + 64)
  {
    hide OpenRecord;
    hide OpenAll;
    hide HandedOn;
    hide Accepted;
    hide After;
    hide Arrivals;
    hide SealedBytes;
    hide SequenceBytes;
    hide FullNumber;
    var f := Filter({}, 0);
    OpenAllIs(f, epoch, aead, inputs);
    NoReplay(f, Arrivals(epoch, aead, inputs));
    SeenIsAccepted(f, Arrivals(epoch, aead, inputs));
    SealedOpens(OpenAll(f, epoch, aead, inputs).1, epoch, aead, ty, version, p, ciphertext, plaintext, rest);
  }

  /** Records that do not authenticate, however many and whatever their numbers, leave the window alone. */
  lemma {:induction false} ForgeriesDoNothing(f: Filter, epoch: nat, aead: Aead, inputs: seq<Bytes>)
    requires forall i :: 0 <= i < |inputs| && Framed(aead, inputs[i]) && InEpoch(epoch, inputs[i]) ==> !Genuine(aead, inputs[i])
    ensures OpenAll(f, epoch, aead, inputs).1 == f
    decreases |inputs|
  {
    hide OpenRecord;
    hide BigEndian;
    hide Stale;
    hide InEpoch;
    hide Genuine;
    if inputs != [] {
      OpenVerdict(f, epoch, aead, inputs[0]);
      ForgeriesDoNothing(f, epoch, aead, inputs[1..]);
    }
  }
}
