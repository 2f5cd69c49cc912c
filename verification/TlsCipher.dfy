/** How a server picks the cipher: its preferences come in groups of equal rank, within which the client's order
    decides (ssl3_choose_cipher in handshake_server.cc). */
module TlsCipher {
  import opened Octets

  /** The parts of SSL_CIPHER that matter here. */
  datatype Suite = Suite(id: nat, minVersion: nat, maxVersion: nat, mkey: bv32, auth: bv32)

  /** The negotiated version and what the server's configuration supports. */
  datatype Limits = Limits(version: nat, maskK: bv32, maskA: bv32)
  {
    predicate Usable(c: Suite)
    {
      c.minVersion <= version <= c.maxVersion && c.mkey & maskK != 0 && c.auth & maskA != 0
    }
  }

  /** The list that decides, the list that must also hold the cipher, and for each entry of the first whether
      the next one is in the same group. */
  datatype Lists = Lists(prio: seq<Suite>, allow: seq<Suite>, flags: Option<seq<bool>>)
  {
    predicate Valid() { flags.Some? ==> |flags.value| == |prio| }

    /** The last group is closed. */
    predicate Closed() { flags.Some? && prio != [] && Valid() ==> !flags.value[|prio| - 1] }
  }

  /** sk_SSL_CIPHER_find: the first place of a cipher. */
  function Find(allow: seq<Suite>, c: Suite): (n: Option<nat>)
    ensures n.Some? ==> n.value < |allow| && allow[n.value] == c && c !in allow[..n.value]
    ensures n.None? ==> c !in allow
  {
    if allow == [] then None
    else if allow[0] == c then Some(0)
    else
      var n := Find(allow[1..], c);
      if n.None? then None else Some(n.value + 1)
  }

  /** Where entry `k` stands in the allowed list, if it can be chosen at all. */
  function Place(l: Limits, ls: Lists, k: nat): (n: Option<nat>)
    requires k < |ls.prio|
    ensures n.Some? ==> n.value < |ls.allow|
  {
    if l.Usable(ls.prio[k]) then Find(ls.allow, ls.prio[k]) else None
  }

  function Better(a: Option<nat>, b: Option<nat>): Option<nat>
  {
    if a.None? then b else if b.None? then a else if a.value < b.value then a else b
  }

  // ---------------------------------------------------------------- what the choice means

  /** The end of the group that begins at `s`. */
  function GroupEnd(ls: Lists, s: nat): (e: nat)
    requires ls.Valid() && s < |ls.prio|
    ensures s < e <= |ls.prio|
    decreases |ls.prio| - s
  {
    if ls.flags.None? || !ls.flags.value[s] || s + 1 == |ls.prio| then s + 1 else GroupEnd(ls, s + 1)
  }

  /** The best place among the entries from `s` to `e`. */
  function Best(l: Limits, ls: Lists, s: nat, e: nat): (n: Option<nat>)
    requires e <= |ls.prio|
    ensures n.Some? ==> n.value < |ls.allow|
    decreases e
  {
    if e <= s then None else Better(Best(l, ls, s, e - 1), Place(l, ls, e - 1))
  }

  /** The best of the first group, from the one that begins at `s` on, that has any. */
  function Choice(l: Limits, ls: Lists, s: nat): Option<Suite>
    requires ls.Valid() && s <= |ls.prio|
    decreases |ls.prio| - s
  {
    if s == |ls.prio| then None
    else
      var n := Best(l, ls, s, GroupEnd(ls, s));
      if n.Some? then Some(ls.allow[n.value]) else Choice(l, ls, GroupEnd(ls, s))
  }

  /** `Best` is the smallest place there is. */
  lemma {:induction false} BestIsSmallest(l: Limits, ls: Lists, s: nat, e: nat)
    requires e <= |ls.prio|
    ensures forall k :: s <= k < e && Place(l, ls, k).Some? ==>
      Best(l, ls, s, e).Some? && Best(l, ls, s, e).value <= Place(l, ls, k).value
    ensures Best(l, ls, s, e).Some? ==> exists k :: s <= k < e && Place(l, ls, k) == Best(l, ls, s, e)
    decreases e
  {
    if e > s {
      BestIsSmallest(l, ls, s, e - 1);
      var b := Best(l, ls, s, e - 1);
      if Best(l, ls, s, e).Some? {
        if Best(l, ls, s, e) == b {
          var k :| s <= k < e - 1 && Place(l, ls, k) == b;
          assert s <= k < e && Place(l, ls, k) == Best(l, ls, s, e);
        } else {
          assert Place(l, ls, e - 1) == Best(l, ls, s, e);
        }
      }
    }
  }

  /** No choice is made exactly when no entry can be chosen. */
  lemma {:induction false} ChoiceIffAny(l: Limits, ls: Lists, s: nat)
    requires ls.Valid() && s <= |ls.prio|
    ensures Choice(l, ls, s).None? <==> forall k :: s <= k < |ls.prio| ==> Place(l, ls, k).None?
    decreases |ls.prio| - s
  {
    if s < |ls.prio| {
      var e := GroupEnd(ls, s);
      BestIsSmallest(l, ls, s, e);
      if Best(l, ls, s, e).None? {
        ChoiceIffAny(l, ls, e);
      }
    }
  }

  /** What is chosen stands in some group; nothing can be chosen in the entries before that group, and in the
      group nothing that the allowed list puts earlier. */
  lemma {:induction false} ChoiceIsPreferred(l: Limits, ls: Lists, from: nat) returns (s: nat, k: nat)
    requires ls.Valid() && from <= |ls.prio| && Choice(l, ls, from).Some?
    ensures from <= s <= k < |ls.prio| && k < GroupEnd(ls, s) && Choice(l, ls, from) == Some(ls.prio[k]) && Place(l, ls, k).Some?
    ensures forall j :: from <= j < s ==> Place(l, ls, j).None?
    ensures forall j :: s <= j < GroupEnd(ls, s) && Place(l, ls, j).Some? ==> Place(l, ls, k).value <= Place(l, ls, j).value
    decreases |ls.prio| - from
  {
    var e := GroupEnd(ls, from);
    BestIsSmallest(l, ls, from, e);
    if Best(l, ls, from, e).Some? {
      var m :| from <= m < e && Place(l, ls, m) == Best(l, ls, from, e);
      return from, m;
    }
    s, k := ChoiceIsPreferred(l, ls, e);
  }

  // ---------------------------------------------------------------- what the loop computes

  predicate InGroup(ls: Lists, i: nat)
    requires ls.Valid() && i < |ls.prio|
  {
    ls.flags.Some? && ls.flags.value[i]
  }

  /** The loop from entry `i` on, with the best place found so far in the group. */
  function Scan(l: Limits, ls: Lists, i: nat, groupMin: Option<nat>): Option<Suite>
    requires ls.Valid() && i <= |ls.prio| && (groupMin.Some? ==> groupMin.value < |ls.allow|)
    decreases |ls.prio| - i
  {
    if i == |ls.prio| then None
    else
      var n := Place(l, ls, i);
      if n.Some? && InGroup(ls, i) then Scan(l, ls, i + 1, Better(groupMin, n))
      else if n.Some? then Some(ls.allow[Better(groupMin, n).value])
      else if ls.flags.Some? && !InGroup(ls, i) && groupMin.Some? then Some(ls.allow[groupMin.value])
      else Scan(l, ls, i + 1, groupMin)
  }

  /** Inside a group the loop goes on to its end. */
  lemma {:induction false} ScanGroup(l: Limits, ls: Lists, s: nat, i: nat)
    requires ls.Valid() && s <= i < |ls.prio| && GroupEnd(ls, i) == GroupEnd(ls, s)
    requires ls.Closed() && (s < i ==> ls.flags.Some?)
    ensures Scan(l, ls, i, Best(l, ls, s, i))
         == var e := GroupEnd(ls, s);
            var n := Best(l, ls, s, e);
            if n.Some? then Some(ls.allow[n.value]) else Scan(l, ls, e, None)
    decreases |ls.prio| - i
  {
    assert Best(l, ls, s, i + 1) == Better(Best(l, ls, s, i), Place(l, ls, i));
    if InGroup(ls, i) && i + 1 < |ls.prio| {
      ScanGroup(l, ls, s, i + 1);
      hide Best;
      hide GroupEnd;
    } else {
      assert GroupEnd(ls, s) == i + 1;
      hide Best;
      hide GroupEnd;
      if Place(l, ls, i).Some? {
      } else {
      }
    }
  }

  /** With the last group closed, the loop chooses what it should. */
  lemma {:induction false} ScanIsChoice(l: Limits, ls: Lists, s: nat)
    requires ls.Valid() && ls.Closed() && s <= |ls.prio|
    ensures Scan(l, ls, s, None) == Choice(l, ls, s)
    decreases |ls.prio| - s
  {
    if s < |ls.prio| {
      ScanGroup(l, ls, s, s);
      ScanIsChoice(l, ls, GroupEnd(ls, s));
    }
  }

  const NEVER: Suite := Suite(0, 1, 0, 0, 0)
  const ALWAYS: Suite := Suite(1, 0, 0, 1, 1)
  const LIMITS: Limits := Limits(0, 1, 1)

  /** Only the last of these ciphers can be used. */
  function LastOnly(flags: seq<bool>): Lists
    requires flags != []
  {
    Lists(seq(|flags| - 1, _ => NEVER) + [ALWAYS], [ALWAYS], Some(flags))
  }

  lemma {:induction false} OpenGroupMisses(flags: seq<bool>, i: nat, groupMin: Option<nat>)
    requires flags != [] && flags[|flags| - 1] && i <= |flags| && (groupMin.Some? ==> i == |flags| && groupMin.value == 0)
    ensures Scan(LIMITS, LastOnly(flags), i, groupMin).None?
    decreases |flags| - i
  {
    var ls := LastOnly(flags);
    assert !LIMITS.Usable(NEVER) && LIMITS.Usable(ALWAYS);
    if i < |flags| - 1 {
      assert ls.prio[i] == NEVER;
      OpenGroupMisses(flags, i + 1, None);
    } else if i == |flags| - 1 {
      assert ls.prio[i] == ALWAYS;
      OpenGroupMisses(flags, i + 1, Some(0));
    }
  }

  /** For group flags as given, the loop chooses right on all lists exactly when the last flag is clear. */
  lemma ScanIsChoiceIff(flags: seq<bool>)
    ensures (flags == [] || !flags[|flags| - 1])
       <==> forall l, ls: Lists | ls.flags == Some(flags) && ls.Valid() :: Scan(l, ls, 0, None) == Choice(l, ls, 0)
  {
    if flags == [] || !flags[|flags| - 1] {
      forall l, ls: Lists | ls.flags == Some(flags) && ls.Valid()
        ensures Scan(l, ls, 0, None) == Choice(l, ls, 0)
      {
        ScanIsChoice(l, ls, 0);
      }
    } else {
      var ls := LastOnly(flags);
      OpenGroupMisses(flags, 0, None);
      ChoiceIffAny(LIMITS, ls, 0);
      assert LIMITS.Usable(ALWAYS) && ls.prio[|flags| - 1] == ALWAYS;
      assert Place(LIMITS, ls, |flags| - 1).Some?;
      assert Scan(LIMITS, ls, 0, None) != Choice(LIMITS, ls, 0);
    }
  }

  // ---------------------------------------------------------------- the choice in plain terms

  /** The cipher is for this version, its key exchange and its authentication are supported, and both sides list it. */
  predicate Acceptable(l: Limits, c: Suite, clientPref: seq<Suite>, serverPref: seq<Suite>)
  {
    && c.minVersion <= l.version && l.version <= c.maxVersion
    && c.mkey & l.maskK != 0 && c.auth & l.maskA != 0
    && c in clientPref && c in serverPref
  }

  /** All entries from `j` up to `k` say that the next one is in the same group. */
  predicate Grouped(flags: seq<bool>, j: nat, k: nat)
    requires k <= |flags|
  {
    forall i :: j <= i < k ==> flags[i]
  }

  lemma PlaceIs(l: Limits, ls: Lists, k: nat)
    requires k < |ls.prio|
    ensures Place(l, ls, k).Some? <==> Acceptable(l, ls.prio[k], ls.prio, ls.allow)
    ensures Place(l, ls, k).Some? <==> Acceptable(l, ls.prio[k], ls.allow, ls.prio)
    ensures Place(l, ls, k).Some? ==> var n := Place(l, ls, k).value; ls.allow[n] == ls.prio[k] && ls.prio[k] !in ls.allow[..n]
  {
  }

  lemma {:induction false} GroupEndIs(ls: Lists, s: nat, k: nat)
    requires ls.Valid() && ls.flags.Some? && s <= k < |ls.prio|
    ensures k < GroupEnd(ls, s) <==> Grouped(ls.flags.value, s, k)
    decreases k - s
  {
    if s < k {
      if ls.flags.value[s] {
        GroupEndIs(ls, s + 1, k);
        assert Grouped(ls.flags.value, s, k) <==> Grouped(ls.flags.value, s + 1, k);
      }
    }
  }

  /** Without server preference: the first cipher of the client's list that is acceptable, or none if none is. */
  lemma {:induction false} ClientChoice(l: Limits, clientPref: seq<Suite>, serverPref: seq<Suite>)
    ensures match Choice(l, Lists(clientPref, serverPref, None), 0)
            case None => forall c :: c in clientPref ==> !Acceptable(l, c, clientPref, serverPref)
            case Some(c) =>
              && Acceptable(l, c, clientPref, serverPref)
              && exists k :: 0 <= k < |clientPref| && clientPref[k] == c
                             && forall j :: 0 <= j < k ==> !Acceptable(l, clientPref[j], clientPref, serverPref)
  {
    hide Choice;
    hide Place;
    hide Acceptable;
    var ls := Lists(clientPref, serverPref, None);
    forall k | 0 <= k < |clientPref|
      ensures Place(l, ls, k).Some? <==> Acceptable(l, clientPref[k], clientPref, serverPref)
    {
      PlaceIs(l, ls, k);
    }
    ChoiceIffAny(l, ls, 0);
    if Choice(l, ls, 0).Some? {
      ClientOrder(l, ls, 0);
    }
  }

  /** With server preference: an acceptable cipher; every acceptable one the server lists before it is in its group; and of
      those in its group none stands before it in the client's list. None only if none is acceptable. */
  lemma {:induction false} ServerChoice(l: Limits, clientPref: seq<Suite>, serverPref: seq<Suite>, flags: seq<bool>)
    requires |flags| == |serverPref|
    ensures match Choice(l, Lists(serverPref, clientPref, Some(flags)), 0)
            case None => forall c :: c in serverPref ==> !Acceptable(l, c, clientPref, serverPref)
            case Some(c) =>
              && Acceptable(l, c, clientPref, serverPref)
              && exists k, n :: 0 <= k < |serverPref| && 0 <= n < |clientPref| && serverPref[k] == c == clientPref[n]
                   && (forall j :: 0 <= j < k && Acceptable(l, serverPref[j], clientPref, serverPref) ==> Grouped(flags, j, k))
                   && (forall j :: 0 <= j < |serverPref| && Acceptable(l, serverPref[j], clientPref, serverPref)
                                   && (if j <= k then Grouped(flags, j, k) else Grouped(flags, k, j)) ==>
                         serverPref[j] !in clientPref[..n])
  {
    hide Choice;
    hide Place;
    hide Acceptable;
    hide GroupEnd;
    hide Grouped;
    var ls := Lists(serverPref, clientPref, Some(flags));
    forall k | 0 <= k < |serverPref|
      ensures Place(l, ls, k).Some? <==> Acceptable(l, serverPref[k], clientPref, serverPref)
    {
      PlaceIs(l, ls, k);
    }
    ChoiceIffAny(l, ls, 0);
    if Choice(l, ls, 0).Some? {
      var s, k := ChoiceIsPreferred(l, ls, 0);
      PlaceIs(l, ls, k);
      var n := Place(l, ls, k).value;
      forall j | 0 <= j < |serverPref| && Place(l, ls, j).Some?
        ensures j < k ==> Grouped(flags, j, k)
        ensures (if j <= k then Grouped(flags, j, k) else Grouped(flags, k, j)) ==> serverPref[j] !in clientPref[..n]
      {
        InItsGroup(ls, s, k, j);
        PlaceIs(l, ls, j);
      }
      assert serverPref[k] == clientPref[n];
    }
  }

  /** In a group that begins at `s` and holds `k`, the entries that hang together with `k` are those of the group. */
  lemma {:induction false} InItsGroup(ls: Lists, s: nat, k: nat, j: nat)
    requires ls.Valid() && ls.flags.Some? && s < |ls.prio| && s <= k < GroupEnd(ls, s) && s <= j < |ls.prio|
    ensures j <= k ==> Grouped(ls.flags.value, j, k) && j < GroupEnd(ls, s)
    ensures k < j && Grouped(ls.flags.value, k, j) ==> j < GroupEnd(ls, s)
  {
    GroupEndIs(ls, s, k);
    GroupEndIs(ls, s, j);
  }

  // ---------------------------------------------------------------- the loop itself

  /** ssl3_choose_cipher, once the client's list is parsed and the masks are known. */
  method ChooseCipher(l: Limits, clientPref: seq<Suite>, serverPref: seq<Suite>, inGroupFlags: Option<seq<bool>>,
                      serverPreference: bool) returns (r: Option<Suite>)
    requires inGroupFlags.Some? ==> |inGroupFlags.value| == |serverPref|
    ensures var ls := if serverPreference then Lists(serverPref, clientPref, inGroupFlags)
                      else Lists(clientPref, serverPref, None);
            r == Scan(l, ls, 0, None) && (ls.Closed() ==> r == Choice(l, ls, 0))
  {
    var prio, allow, flags := clientPref, serverPref, None;
    if serverPreference {
      prio, allow, flags := serverPref, clientPref, inGroupFlags;
    }
    ghost var ls := Lists(prio, allow, flags);
    if ls.Closed() {
      ScanIsChoice(l, ls, 0);
    }
    var groupMin := -1;
    var i := 0;
    while i < |prio|
      invariant 0 <= i <= |prio| && -1 <= groupMin < |allow|
      invariant Scan(l, ls, 0, None) == Scan(l, ls, i, if groupMin == -1 then None else Some(groupMin))
    {
      var n := if l.Usable(prio[i]) then Find(allow, prio[i]) else None;
      if n.Some? {
        var cipherIndex := n.value;
        if flags.Some? && flags.value[i] {
          if groupMin == -1 || groupMin > cipherIndex {
            groupMin := cipherIndex;
          }
        } else {
          if groupMin != -1 && groupMin < cipherIndex {
            cipherIndex := groupMin;
          }
          return Some(allow[cipherIndex]);
        }
      }
      if flags.Some? && !flags.value[i] && groupMin != -1 {
        return Some(allow[groupMin]);
      }
      i := i + 1;
    }
    return None;
  }

  /** Without server preference the choice is the first acceptable cipher of the client's list. */
  lemma {:induction false} ClientOrder(l: Limits, ls: Lists, s: nat)
    requires ls.flags.None? && s <= |ls.prio| && Choice(l, ls, s).Some?
    ensures exists k :: s <= k < |ls.prio| && Place(l, ls, k).Some? && Choice(l, ls, s) == Some(ls.prio[k])
                        && forall j :: s <= j < k ==> Place(l, ls, j).None?
    decreases |ls.prio| - s
  {
    assert Best(l, ls, s, s + 1) == Place(l, ls, s);
    if Place(l, ls, s).None? {
      ClientOrder(l, ls, s + 1);
      var k :| s + 1 <= k < |ls.prio| && Place(l, ls, k).Some? && Choice(l, ls, s + 1) == Some(ls.prio[k])
               && forall j :: s + 1 <= j < k ==> Place(l, ls, j).None?;
      assert forall j :: s <= j < k ==> Place(l, ls, j).None?;
      assert Place(l, ls, k).Some? && Choice(l, ls, s) == Some(ls.prio[k]);
    }
  }
}
