/** Handshake messages of TLS 1.0 to 1.2 with cryptography made symbolic: a MAC or a signature is the list of
    messages it was made over (handshake.cc; sections 7.3 and 7.4 of RFC 5246). */
module TlsMessageTypes {
  import opened Octets

  datatype MsgType =
    | ClientHello | ServerHello | Certificate | CertificateStatus | ServerKeyExchange | CertificateRequest
    | ServerHelloDone | ClientKeyExchange | CertificateVerify | NextProto | ChannelId | NewSessionTicket | Finished

  /** What the two hellos settle. */
  datatype Params = Params(
    resumed: bool,        // a session is resumed
    certAuth: bool,       // ssl_cipher_uses_certificate_auth
    status: bool,         // certificate_status_expected
    skeRequired: bool,    // ssl_cipher_requires_server_key_exchange
    hint: bool,           // the server has a PSK identity hint to send
    certRequest: bool,    // the server asks for a client certificate
    npn: bool,            // next_proto_neg_seen
    channelId: bool,      // tlsext_channel_id_valid
    ticket: bool)         // ticket_expected
  {
    /** CertificateRequest may only be sent in certificate-based ciphers. */
    predicate Valid() { certRequest ==> certAuth && !resumed }

    predicate Ske() { skeRequired || hint }
  }

  datatype Msg =
    | Plain(ty: MsgType, data: nat)
    | Hello(params: Params, data: nat)
    | Chain(empty: bool, data: nat)
    | Signature(over: seq<Msg>)
    | Mac(fromServer: bool, over: seq<Msg>)

  function TypeOf(m: Msg): MsgType
  {
    match m
    case Plain(ty, _) => ty
    case Hello(_, _) => ServerHello
    case Chain(_, _) => Certificate
    case Signature(_) => CertificateVerify
    case Mac(_, _) => Finished
  }

  /** What the channel carries, record boundaries aside. */
  datatype Item = Handshake(m: Msg) | Ccs

  /** What a machine waits for when it returns (ssl_hs_wait_t). */
  datatype Wait = Running | Flush | ReadMessage | ReadCcs | Retry | EarlyReturn | Failed

  /** What the world answers one turn of a machine: the next item of the channel, whether a callback that may be
      slow is ready, whether every parse and every cryptographic check of the turn succeeds, and, if the flight is
      flushed, how many items the transport takes and whether it can then be drained. */
  datatype Env = Env(head: Option<Item>, ready: bool, ok: bool, sent: nat, drained: bool)

  /** What the world answers a machine that reads the items a peer sends one after the other: whether the next is here
      yet, and the rest as in Env. */
  datatype Answer = Answer(here: bool, ready: bool, ok: bool, sent: nat, drained: bool)

  function Facing(inbox: seq<Item>, a: Answer): Env
  {
    Env(if a.here && inbox != [] then Some(inbox[0]) else None, a.ready, a.ok, a.sent, a.drained)
  }

  function TypesOf(ms: seq<Msg>): (ts: seq<MsgType>)
    ensures |ts| == |ms|
  {
    seq(|ms|, i requires 0 <= i < |ms| => TypeOf(ms[i]))
  }

  /** An item by its type. */
  datatype Kind = Of(ty: MsgType) | OfCcs

  function KindOf(i: Item): Kind
  {
    if i.Ccs? then OfCcs else Of(TypeOf(i.m))
  }

  function KindsOf(items: seq<Item>): (ks: seq<Kind>)
    ensures |ks| == |items|
  {
    seq(|items|, i requires 0 <= i < |items| => KindOf(items[i]))
  }

  function Kinds(ts: seq<MsgType>): (ks: seq<Kind>)
    ensures |ks| == |ts|
  {
    seq(|ts|, i requires 0 <= i < |ts| => Of(ts[i]))
  }

  lemma KindsJoin(a: seq<Item>, b: seq<Item>)
    ensures KindsOf(a + b) == KindsOf(a) + KindsOf(b)
  {
  }

  lemma TypesJoin(a: seq<Msg>, b: seq<Msg>)
    ensures TypesOf(a + b) == TypesOf(a) + TypesOf(b) && Kinds(TypesOf(a + b)) == Kinds(TypesOf(a)) + Kinds(TypesOf(b))
  {
  }

  lemma HandshakeKinds(ms: seq<Msg>)
    ensures KindsOf(Handshakes(ms)) == Kinds(TypesOf(ms))
  {
  }

  /** Every MAC and every signature in the transcript is over exactly what stands before it. */
  ghost predicate Covering(hashed: seq<Msg>)
  {
    forall i :: 0 <= i < |hashed| ==>
      && (hashed[i].Mac? ==> hashed[i].over == hashed[..i])
      && (hashed[i].Signature? ==> hashed[i].over == hashed[..i])
  }

  lemma CoveringGrows(hashed: seq<Msg>, m: Msg)
    requires Covering(hashed)
    requires (m.Mac? ==> m.over == hashed) && (m.Signature? ==> m.over == hashed)
    ensures Covering(hashed + [m])
  {
    forall i | 0 <= i < |hashed + [m]|
      ensures (hashed + [m])[..i] == if i < |hashed| then hashed[..i] else hashed
    {
    }
  }

  lemma OneType(m: Msg)
    ensures TypesOf([m]) == [TypeOf(m)]
  {
  }

  lemma KindsOfTypes(a: seq<MsgType>, b: seq<MsgType>)
    ensures Kinds(a + b) == Kinds(a) + Kinds(b)
  {
  }

  lemma PlainMessage(m: Msg)
    requires TypeOf(m) != Finished && TypeOf(m) != CertificateVerify
    ensures !m.Mac? && !m.Signature?
  {
  }

  lemma {:induction false} CoveringPlain(hashed: seq<Msg>, ms: seq<Msg>)
    requires Covering(hashed) && forall i :: 0 <= i < |ms| ==> !ms[i].Mac? && !ms[i].Signature?
    ensures Covering(hashed + ms)
    decreases |ms|
  {
    if ms == [] {
      assert hashed + ms == hashed;
    } else {
      CoveringGrows(hashed, ms[0]);
      CoveringPlain(hashed + [ms[0]], ms[1..]);
      assert hashed + [ms[0]] + ms[1..] == hashed + ms;
    }
  }

  /** How many items of a pending flight one call of flush_flight gets rid of. */
  function Flushed(flight: seq<Item>, e: Env): (n: nat)
    ensures n <= |flight|
  {
    if e.sent > |flight| then |flight| else e.sent
  }

  /** flush_flight succeeds: everything is out. A call that does not succeed may still have sent a part. */
  predicate FlushDone(flight: seq<Item>, e: Env)
  {
    Flushed(flight, e) == |flight| && e.drained
  }

  function Handshakes(ms: seq<Msg>): (items: seq<Item>)
    ensures |items| == |ms| && forall i :: 0 <= i < |ms| ==> items[i] == Handshake(ms[i])
  {
    seq(|ms|, i requires 0 <= i < |ms| => Handshake(ms[i]))
  }

  function Opt<T>(b: bool, x: T): seq<T>
  {
    if b then [x] else []
  }

  /** ssl_get_message with ssl_check_message_type: the next message, if it is there and of this type. */
  datatype Peek = NoMessage | Wrong | Got(m: Msg)

  function PeekAny(e: Env): (p: Peek)
    ensures p.NoMessage? <==> e.head.None?
  {
    match e.head
    case None => NoMessage
    case Some(Ccs) => Wrong
    case Some(Handshake(m)) => Got(m)
  }

  function PeekType(e: Env, ty: MsgType): (p: Peek)
    ensures p.NoMessage? <==> e.head.None?
    ensures p.Got? <==> e.head.Some? && e.head.value.Handshake? && TypeOf(e.head.value.m) == ty
  {
    var p := PeekAny(e);
    if p.Got? && TypeOf(p.m) != ty then Wrong else p
  }

  /** All but the last message. */
  function Before(hashed: seq<Msg>): seq<Msg>
  {
    if hashed == [] then [] else hashed[..|hashed| - 1]
  }

  /** The transcript holds a Finished that covers exactly what came before it. */
  ghost predicate HasMac(hashed: seq<Msg>, fromServer: bool)
  {
    exists i :: 0 <= i < |hashed| && hashed[i] == Mac(fromServer, hashed[..i])
  }

  lemma MacStays(hashed: seq<Msg>, more: seq<Msg>, fromServer: bool)
    requires HasMac(hashed, fromServer)
    ensures HasMac(hashed + more, fromServer)
  {
    var i :| 0 <= i < |hashed| && hashed[i] == Mac(fromServer, hashed[..i]);
    assert (hashed + more)[..i] == hashed[..i] && (hashed + more)[i] == hashed[i];
  }

  lemma MacAdded(hashed: seq<Msg>, fromServer: bool)
    ensures HasMac(hashed + [Mac(fromServer, hashed)], fromServer)
  {
    var all := hashed + [Mac(fromServer, hashed)];
    assert all[..|hashed|] == hashed && all[|hashed|] == Mac(fromServer, hashed);
  }
}
