/** The script of a TLS 1.0 to 1.2 handshake whose sides agree on the flags settled in the hellos: what client
    and server read, write and hash in each state (handshake_client.cc, handshake_server.cc; sections 7.3 and
    7.4.9 of RFC 5246). */
module TlsScript {
  import opened Octets
  import opened TlsMessageTypes
  import C = TlsClient
  import S = TlsServer

  /** What a handshake is about: the server's parameters, whether the client has a certificate, and what stands
      for the contents of either side's messages. */
  datatype World = World(p: Params, hasCert: bool, cd: nat, sd: nat)
  {
    predicate Valid() { p.Valid() }
  }

  datatype Event = In(i: Item) | Out(i: Item)

  // ---------------------------------------------------------------- the transcript, stage by stage

  function HelloPair(w: World): seq<Msg>
  {
    [Plain(ClientHello, w.cd), Hello(w.p, w.sd)]
  }

  /** Up to CertificateStatus, ServerKeyExchange, CertificateRequest and ServerHelloDone. */
  function UpToCertificates(w: World): seq<Msg>
  {
    HelloPair(w) + S.CertificateFlight(w.p, w.sd)
  }

  function UpToKeyExchange(w: World): seq<Msg>
  {
    UpToCertificates(w) + Opt(w.p.Ske(), Plain(ServerKeyExchange, w.sd))
  }

  function UpToRequest(w: World): seq<Msg>
  {
    UpToKeyExchange(w) + Opt(w.p.certRequest, Plain(CertificateRequest, w.sd))
  }

  function UpToHelloDone(w: World): seq<Msg>
  {
    UpToRequest(w) + [Plain(ServerHelloDone, w.sd)]
  }

  function UpToClientCertificate(w: World): seq<Msg>
  {
    UpToHelloDone(w) + Opt(w.p.certRequest, Chain(!w.hasCert, w.cd))
  }

  function UpToClientKey(w: World): seq<Msg>
  {
    UpToClientCertificate(w) + [Plain(ClientKeyExchange, w.cd)]
  }

  function UpToVerify(w: World): seq<Msg>
  {
    UpToClientKey(w) + Opt(w.p.certRequest && w.hasCert, Signature(UpToClientKey(w)))
  }

  function Ticket(w: World): seq<Msg>
  {
    Opt(w.p.ticket, Plain(NewSessionTicket, w.sd))
  }

  /** What the client's Finished covers, apart from NextProto and ChannelID. */
  function BeforeClientLast(w: World): seq<Msg>
  {
    if w.p.resumed then HelloPair(w) + Ticket(w) + [Mac(true, HelloPair(w) + Ticket(w))] else UpToVerify(w)
  }

  function UpToProto(w: World): seq<Msg>
  {
    BeforeClientLast(w) + Opt(w.p.npn, Plain(NextProto, w.cd))
  }

  function ClientFinishedCovers(w: World): seq<Msg>
  {
    BeforeClientLast(w) + C.Extras(w.p, w.cd)
  }

  function UpToClientFinished(w: World): seq<Msg>
  {
    ClientFinishedCovers(w) + [Mac(false, ClientFinishedCovers(w))]
  }

  function ServerFinishedCovers(w: World): seq<Msg>
  {
    (if w.p.resumed then HelloPair(w) else UpToClientFinished(w)) + Ticket(w)
  }

  function UpToServerFinished(w: World): seq<Msg>
  {
    ServerFinishedCovers(w) + [Mac(true, ServerFinishedCovers(w))]
  }

  function Whole(w: World): seq<Msg>
  {
    if w.p.resumed then UpToClientFinished(w) else UpToServerFinished(w)
  }

  // ---------------------------------------------------------------- what the client does, state by state

  function Writes(items: seq<Item>): (es: seq<Event>)
    ensures |es| == |items|
  {
    seq(|items|, i requires 0 <= i < |items| => Out(items[i]))
  }

  function ClientSucc(w: World, st: C.State): C.State
  {
    match st
    case StartConnect => C.EnterEarlyData
    case EnterEarlyData => C.ReadServerHello
    case ReadServerHello => if w.p.resumed then C.ReadSessionTicket else C.ReadServerCertificate
    case ReadServerCertificate => C.ReadCertificateStatus
    case ReadCertificateStatus => C.VerifyServerCertificate
    case VerifyServerCertificate => C.ReadServerKeyExchange
    case ReadServerKeyExchange => C.ReadCertificateRequest
    case ReadCertificateRequest => C.ReadServerHelloDone
    case ReadServerHelloDone => C.SendClientCertificate
    case SendClientCertificate => C.SendClientKeyExchange
    case SendClientKeyExchange => C.SendClientCertificateVerify
    case SendClientCertificateVerify => C.SendClientFinished
    case SendClientFinished => C.FinishFlight
    case FinishFlight => if w.p.resumed then C.FinishClientHandshake else C.ReadSessionTicket
    case ReadSessionTicket => C.ProcessChangeCipherSpec
    case ProcessChangeCipherSpec => C.ReadServerFinished
    case ReadServerFinished => if w.p.resumed then C.SendClientFinished else C.FinishClientHandshake
    case FinishClientHandshake => C.Done
    case Done => C.Done
  }

  /** The items a state reads and writes. */
  function ClientSeg(w: World, st: C.State): seq<Event>
  {
    match st
    case StartConnect => [Out(Handshake(Plain(ClientHello, w.cd)))]
    case ReadServerHello => [In(Handshake(Hello(w.p, w.sd)))]
    case ReadServerCertificate => Opt(w.p.certAuth, In(Handshake(Chain(false, w.sd))))
    case ReadCertificateStatus => Opt(w.p.certAuth && w.p.status, In(Handshake(Plain(CertificateStatus, w.sd))))
    case ReadServerKeyExchange => Opt(w.p.Ske(), In(Handshake(Plain(ServerKeyExchange, w.sd))))
    case ReadCertificateRequest => Opt(w.p.certRequest, In(Handshake(Plain(CertificateRequest, w.sd))))
    case ReadServerHelloDone => [In(Handshake(Plain(ServerHelloDone, w.sd)))]
    case SendClientCertificate => Opt(w.p.certRequest, Out(Handshake(Chain(!w.hasCert, w.cd))))
    case SendClientKeyExchange => [Out(Handshake(Plain(ClientKeyExchange, w.cd)))]
    case SendClientCertificateVerify =>
      Opt(w.p.certRequest && w.hasCert, Out(Handshake(Signature(UpToClientKey(w)))))
    case SendClientFinished => Writes(ClientLast(w))
    case ReadSessionTicket => Opt(w.p.ticket, In(Handshake(Plain(NewSessionTicket, w.sd)))) + [In(Ccs)]
    case ReadServerFinished => [In(Handshake(Mac(true, ServerFinishedCovers(w))))]
    case _ => []
  }

  /** ChangeCipherSpec, NextProto, ChannelID, Finished. */
  function ClientLast(w: World): seq<Item>
  {
    [Ccs] + Handshakes(C.Extras(w.p, w.cd)) + [Handshake(Mac(false, ClientFinishedCovers(w)))]
  }

  function ClientScript(w: World, st: C.State): seq<Event>
    decreases C.Rank(st, w.p.resumed)
  {
    if st.Done? then [] else ClientSeg(w, st) + ClientScript(w, ClientSucc(w, st))
  }

  /** The transcript in each state. */
  function ClientHash(w: World, st: C.State): seq<Msg>
  {
    match st
    case StartConnect => []
    case EnterEarlyData => [Plain(ClientHello, w.cd)]
    case ReadServerHello => [Plain(ClientHello, w.cd)]
    case ReadServerCertificate => HelloPair(w)
    case ReadCertificateStatus => HelloPair(w) + Opt(w.p.certAuth, Chain(false, w.sd))
    case VerifyServerCertificate => UpToCertificates(w)
    case ReadServerKeyExchange => UpToCertificates(w)
    case ReadCertificateRequest => UpToKeyExchange(w)
    case ReadServerHelloDone => UpToRequest(w)
    case SendClientCertificate => UpToHelloDone(w)
    case SendClientKeyExchange => UpToClientCertificate(w)
    case SendClientCertificateVerify => UpToClientKey(w)
    case SendClientFinished => BeforeClientLast(w)
    case FinishFlight => UpToClientFinished(w)
    case ReadSessionTicket => if w.p.resumed then HelloPair(w) else UpToClientFinished(w)
    case ProcessChangeCipherSpec => ServerFinishedCovers(w)
    case ReadServerFinished => ServerFinishedCovers(w)
    case FinishClientHandshake => Whole(w)
    case Done => Whole(w)
  }

  /** What the client has still to do. */
  function ClientRest(w: World, c: C.Client): seq<Event>
  {
    if c.wait.ReadCcs? then [In(Ccs)] + ClientScript(w, C.ProcessChangeCipherSpec) else ClientScript(w, c.state)
  }

  predicate ClientPath(w: World, st: C.State)
  {
    st.StartConnect? || st.EnterEarlyData? || st.ReadServerHello? || (w.p.resumed ==> C.OnResumedPath(st))
  }

  predicate BeforeRequest(st: C.State)
  {
    C.BeforeVerify(st) || st.ReadServerKeyExchange? || st.ReadCertificateRequest?
  }

  /** The client is where the script says. */
  ghost predicate ClientAt(w: World, c: C.Client)
  {
    && !c.wait.Failed? && (c.wait.ReadCcs? ==> c.state.ProcessChangeCipherSpec?)
    && c.data == w.cd && c.hasCert == w.hasCert && (w.p.resumed ==> c.offered)
    && ClientPath(w, c.state)
    && (c.state.StartConnect? || c.state.EnterEarlyData? || c.state.ReadServerHello? || c.params == w.p)
    && c.certRequest == (w.p.certRequest && !BeforeRequest(c.state))
    && c.hashed == ClientHash(w, c.state)
  }

  // ---------------------------------------------------------------- what the server does, state by state

  function ServerSucc(w: World, st: S.State): S.State
  {
    match st
    case StartAccept => S.ReadClientHello
    case ReadClientHello => S.SelectCertificate
    case SelectCertificate => S.SelectParameters
    case SelectParameters => S.SendServerHello
    case SendServerHello => if w.p.resumed then S.SendServerFinished else S.SendServerCertificate
    case SendServerCertificate => S.SendServerKeyExchange
    case SendServerKeyExchange => S.SendServerHelloDone
    case SendServerHelloDone => S.ReadClientCertificate
    case ReadClientCertificate => S.VerifyClientCertificate
    case VerifyClientCertificate => S.ReadClientKeyExchange
    case ReadClientKeyExchange => S.ReadClientCertificateVerify
    case ReadClientCertificateVerify => S.ReadChangeCipherSpec
    case ReadChangeCipherSpec => S.ProcessChangeCipherSpec
    case ProcessChangeCipherSpec => S.ReadNextProto
    case ReadNextProto => S.ReadChannelId
    case ReadChannelId => S.ReadClientFinished
    case ReadClientFinished => if w.p.resumed then S.FinishServerHandshake else S.SendServerFinished
    case SendServerFinished => if w.p.resumed then S.ReadChangeCipherSpec else S.FinishServerHandshake
    case FinishServerHandshake => S.Done
    case Done => S.Done
  }

  function ServerSeg(w: World, st: S.State): seq<Event>
  {
    match st
    case SelectParameters => [In(Handshake(Plain(ClientHello, w.cd)))]
    case SendServerHello => [Out(Handshake(Hello(w.p, w.sd)))]
    case SendServerCertificate => Writes(Handshakes(S.CertificateFlight(w.p, w.sd)))
    case SendServerKeyExchange => Opt(w.p.Ske(), Out(Handshake(Plain(ServerKeyExchange, w.sd))))
    case SendServerHelloDone => Writes(Handshakes(S.HelloDoneFlight(w.p, w.sd)))
    case ReadClientCertificate => Opt(w.p.certRequest, In(Handshake(Chain(!w.hasCert, w.cd))))
    case ReadClientKeyExchange => [In(Handshake(Plain(ClientKeyExchange, w.cd)))]
    case ReadClientCertificateVerify =>
      Opt(w.p.certRequest && w.hasCert, In(Handshake(Signature(UpToClientKey(w)))))
    case ReadChangeCipherSpec => [In(Ccs)]
    case ReadNextProto => Opt(w.p.npn, In(Handshake(Plain(NextProto, w.cd))))
    case ReadChannelId => Opt(w.p.channelId, In(Handshake(Plain(ChannelId, w.cd))))
    case ReadClientFinished => [In(Handshake(Mac(false, ClientFinishedCovers(w))))]
    case SendServerFinished => Writes(ServerLast(w))
    case _ => []
  }

  /** NewSessionTicket, ChangeCipherSpec, Finished. */
  function ServerLast(w: World): seq<Item>
  {
    Handshakes(Ticket(w)) + [Ccs] + [Handshake(Mac(true, ServerFinishedCovers(w)))]
  }

  function ServerScript(w: World, st: S.State): seq<Event>
    decreases S.Rank(st, w.p.resumed)
  {
    if st.Done? then [] else ServerSeg(w, st) + ServerScript(w, ServerSucc(w, st))
  }

  function ServerHash(w: World, st: S.State): seq<Msg>
  {
    match st
    case SendServerHello => [Plain(ClientHello, w.cd)]
    case SendServerCertificate => HelloPair(w)
    case SendServerKeyExchange => UpToCertificates(w)
    case SendServerHelloDone => UpToKeyExchange(w)
    case ReadClientCertificate => UpToHelloDone(w)
    case VerifyClientCertificate => UpToClientCertificate(w)
    case ReadClientKeyExchange => UpToClientCertificate(w)
    case ReadClientCertificateVerify => UpToClientKey(w)
    case ReadChangeCipherSpec => BeforeClientLast(w)
    case ProcessChangeCipherSpec => BeforeClientLast(w)
    case ReadNextProto => BeforeClientLast(w)
    case ReadChannelId => UpToProto(w)
    case ReadClientFinished => ClientFinishedCovers(w)
    case SendServerFinished => if w.p.resumed then HelloPair(w) else UpToClientFinished(w)
    case FinishServerHandshake => Whole(w)
    case Done => Whole(w)
    case _ => []
  }

  function ServerRest(w: World, s: S.Server): seq<Event>
  {
    if s.wait.ReadCcs? then [In(Ccs)] + ServerScript(w, S.ProcessChangeCipherSpec) else ServerScript(w, s.state)
  }

  predicate AfterCertificate(st: S.State)
  {
    || S.AwaitsSignature(st) || st.ReadChangeCipherSpec? || st.ProcessChangeCipherSpec? || st.ReadNextProto?
    || st.ReadChannelId? || st.ReadClientFinished? || st.SendServerFinished? || st.FinishServerHandshake? || st.Done?
  }

  /** The server is where the script says. */
  ghost predicate ServerAt(w: World, s: S.Server)
  {
    && !s.wait.Failed? && (s.wait.ReadCcs? ==> s.state.ProcessChangeCipherSpec?)
    && s.data == w.sd && s.params == w.p && (w.p.certRequest && s.requireCert ==> w.hasCert)
    && (w.p.resumed ==> S.OnResumedPath(s.state))
    && s.hasParams == (s.state.SendServerKeyExchange? && w.p.Ske())
    && s.peerKey == (AfterCertificate(s.state) && w.p.certRequest && w.hasCert)
    && s.hashed == ServerHash(w, s.state)
  }

  // ---------------------------------------------------------------- reading and writing along a script

  function Ins(es: seq<Event>): seq<Item>
  {
    if es == [] then [] else (if es[0].In? then [es[0].i] else []) + Ins(es[1..])
  }

  function Outs(es: seq<Event>): seq<Item>
  {
    if es == [] then [] else (if es[0].Out? then [es[0].i] else []) + Outs(es[1..])
  }

  lemma GroupItems(a: seq<Item>, b: seq<Item>, c: seq<Item>)
    ensures a + (b + c) == (a + b) + c
  {
  }

  lemma {:induction false} InsJoin(a: seq<Event>, b: seq<Event>)
    ensures Ins(a + b) == Ins(a) + Ins(b)
  {
    if a == [] {
      assert a + b == b;
    } else {
      var first := if a[0].In? then [a[0].i] else [];
      assert (a + b)[0] == a[0] && (a + b)[1..] == a[1..] + b;
      assert Ins(a + b) == first + Ins(a[1..] + b);
      InsJoin(a[1..], b);
      hide Ins;
      GroupItems(first, Ins(a[1..]), Ins(b));
    }
  }

  lemma {:induction false} OutsJoin(a: seq<Event>, b: seq<Event>)
    ensures Outs(a + b) == Outs(a) + Outs(b)
  {
    if a == [] {
      assert a + b == b;
    } else {
      var first := if a[0].Out? then [a[0].i] else [];
      assert (a + b)[0] == a[0] && (a + b)[1..] == a[1..] + b;
      assert Outs(a + b) == first + Outs(a[1..] + b);
      OutsJoin(a[1..], b);
      hide Outs;
      GroupItems(first, Outs(a[1..]), Outs(b));
    }
  }

  lemma {:induction false} Join(a: seq<Event>, b: seq<Event>)
    ensures Ins(a + b) == Ins(a) + Ins(b) && Outs(a + b) == Outs(a) + Outs(b)
  {
    InsJoin(a, b);
    OutsJoin(a, b);
  }

  lemma {:induction false} WritesOut(items: seq<Item>)
    ensures Ins(Writes(items)) == [] && Outs(Writes(items)) == items
  {
    if items != [] {
      assert Writes(items)[1..] == Writes(items[1..]);
      WritesOut(items[1..]);
    }
  }

  /** What a turn adds to a flight: what is out of it and what is left, less what was in it before. */
  function Added(before: seq<Item>, out: seq<Item>, after: seq<Item>): seq<Item>
    requires before <= out + after
  {
    (out + after)[|before|..]
  }

  lemma AddedIs(before: seq<Item>, more: seq<Item>)
    ensures before <= [] + (before + more) && Added(before, [], before + more) == more
  {
    assert [] + (before + more) == before + more;
  }

  lemma AddedNothing(before: seq<Item>, out: seq<Item>, after: seq<Item>)
    requires out + after == before
    ensures Added(before, out, after) == []
  {
  }

  /** What a turn did: the item it took, if any, then the items it composed. */
  function Did(took: bool, head: Option<Item>, out: seq<Item>): seq<Event>
  {
    (if took && head.Some? then [In(head.value)] else []) + Writes(out)
  }

  lemma {:induction false} DidJoins(took: bool, head: Option<Item>, out: seq<Item>, rest: seq<Event>)
    requires took ==> head.Some?
    ensures var all := Did(took, head, out) + rest;
            Ins(all) == (if took then [head.value] else []) + Ins(rest) && Outs(all) == out + Outs(rest)
  {
    Join(Did(took, head, out), rest);
    var first := if took then [In(head.value)] else [];
    Join(first, Writes(out));
    WritesOut(out);
  }

  /** The head of the channel, if there is one, is the next item the machine has to read. */
  ghost predicate Due(rest: seq<Event>, head: Option<Item>)
  {
    head.Some? ==> Ins(rest) != [] && head.value == Ins(rest)[0]
  }

  predicate StartsIn(es: seq<Event>)
  {
    es != [] && es[0].In?
  }

  lemma NoHead(head: Option<Item>)
    ensures Did(false, head, []) == []
  {
  }

  lemma OneHead(m: Msg)
    ensures Did(true, Some(Handshake(m)), []) == [In(Handshake(m))]
  {
  }

  lemma OneOut(head: Option<Item>, ms: seq<Msg>)
    ensures Did(false, head, Handshakes(ms)) == Writes(Handshakes(ms))
    ensures |ms| == 1 ==> Did(false, head, Handshakes(ms)) == [Out(Handshake(ms[0]))]
  {
  }

  lemma Reassociate(a: seq<Event>, b: seq<Event>, c: seq<Event>)
    ensures a + b + c == a + (b + c)
  {
  }
}
