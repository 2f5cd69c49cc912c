/** What a server that finishes has read, hashed and sent, whatever its peer does (handshake_server.cc; sections 7.3 and
    7.4 of RFC 5246). */
module TlsServerTranscript {
  import opened Octets
  import opened TlsMessageTypes
  import opened TlsServer

  // ---------------------------------------------------------------- the order of messages

  function Offer(p: Params): seq<MsgType>
  {
    [ServerHello] + Opt(p.certAuth, Certificate) + Opt(p.certAuth && p.status, CertificateStatus)
  }

  function Asks(p: Params): seq<MsgType>
  {
    Opt(p.Ske(), ServerKeyExchange) + Opt(p.certRequest, CertificateRequest) + [ServerHelloDone]
  }

  function Reply(p: Params, peerKey: bool): seq<MsgType>
  {
    Opt(p.certRequest, Certificate) + [ClientKeyExchange] + Opt(peerKey, CertificateVerify)
  }

  /** What stands between the client's ChangeCipherSpec and its Finished. */
  function Extra(p: Params): seq<MsgType>
  {
    Opt(p.npn, NextProto) + Opt(p.channelId, ChannelId)
  }

  function Ticket(p: Params): seq<MsgType>
  {
    Opt(p.ticket, NewSessionTicket)
  }

  /** The transcript of a handshake that is over. */
  function WholeTranscript(p: Params, peerKey: bool): seq<MsgType>
  {
    if p.resumed then [ClientHello, ServerHello] + Ticket(p) + [Finished] + Extra(p) + [Finished]
    else [ClientHello] + Offer(p) + Asks(p) + Reply(p, peerKey) + Extra(p) + [Finished] + Ticket(p) + [Finished]
  }

  /** Everything read from the client, and everything sent to it. */
  function WholeRead(p: Params, peerKey: bool): seq<Kind>
  {
    Kinds([ClientHello] + if p.resumed then [] else Reply(p, peerKey)) + [OfCcs] + Kinds(Extra(p) + [Finished])
  }

  function WholeSent(p: Params): seq<Kind>
  {
    Kinds(if p.resumed then [ServerHello] else Offer(p) + Asks(p)) + Kinds(Ticket(p)) + [OfCcs, Of(Finished)]
  }

  /** The same as far as one state has come. */
  datatype Tally = Tally(hashed: seq<MsgType>, read: seq<Kind>, sent: seq<Kind>)

  function Hashed(st: State, p: Params, key: bool): seq<MsgType>
  {
    match st
    case StartAccept | ReadClientHello | SelectCertificate | SelectParameters => []
    case SendServerHello => [ClientHello]
    case SendServerCertificate => [ClientHello, ServerHello]
    case SendServerKeyExchange => [ClientHello] + Offer(p)
    case SendServerHelloDone => [ClientHello] + Offer(p) + Opt(p.Ske(), ServerKeyExchange)
    case ReadClientCertificate => [ClientHello] + Offer(p) + Asks(p)
    case VerifyClientCertificate | ReadClientKeyExchange => [ClientHello] + Offer(p) + Asks(p) + Opt(p.certRequest, Certificate)
    case ReadClientCertificateVerify =>
      [ClientHello] + Offer(p) + Asks(p) + Opt(p.certRequest, Certificate) + [ClientKeyExchange]
    case ReadChangeCipherSpec | ProcessChangeCipherSpec | ReadNextProto => BeforeExtra(p, key)
    case ReadChannelId => BeforeExtra(p, key) + Opt(p.npn, NextProto)
    case ReadClientFinished => BeforeExtra(p, key) + Extra(p)
    case SendServerFinished =>
      if p.resumed then [ClientHello, ServerHello] else BeforeExtra(p, key) + Extra(p) + [Finished]
    case FinishServerHandshake | Done => WholeTranscript(p, key)
  }

  function BeforeExtra(p: Params, key: bool): seq<MsgType>
  {
    if p.resumed then [ClientHello, ServerHello] + Ticket(p) + [Finished] else [ClientHello] + Offer(p) + Asks(p) + Reply(p, key)
  }

  function Read(st: State, asking: bool, p: Params, key: bool): seq<Kind>
  {
    match st
    case StartAccept | ReadClientHello | SelectCertificate | SelectParameters => []
    case SendServerHello | SendServerCertificate | SendServerKeyExchange | SendServerHelloDone | ReadClientCertificate =>
      [Of(ClientHello)]
    case VerifyClientCertificate | ReadClientKeyExchange => [Of(ClientHello)] + Kinds(Opt(p.certRequest, Certificate))
    case ReadClientCertificateVerify => [Of(ClientHello)] + Kinds(Opt(p.certRequest, Certificate) + [ClientKeyExchange])
    case ReadChangeCipherSpec => BeforeCcs(p, key)
    case ProcessChangeCipherSpec => if asking then BeforeCcs(p, key) else BeforeCcs(p, key) + [OfCcs]
    case ReadNextProto => BeforeCcs(p, key) + [OfCcs]
    case ReadChannelId => BeforeCcs(p, key) + [OfCcs] + Kinds(Opt(p.npn, NextProto))
    case ReadClientFinished => BeforeCcs(p, key) + [OfCcs] + Kinds(Extra(p))
    case SendServerFinished => if p.resumed then [Of(ClientHello)] else WholeRead(p, key)
    case FinishServerHandshake | Done => WholeRead(p, key)
  }

  function BeforeCcs(p: Params, key: bool): seq<Kind>
  {
    Kinds([ClientHello] + if p.resumed then [] else Reply(p, key))
  }

  function Sent(st: State, p: Params): seq<Kind>
  {
    match st
    case StartAccept | ReadClientHello | SelectCertificate | SelectParameters | SendServerHello => []
    case SendServerCertificate => [Of(ServerHello)]
    case SendServerKeyExchange => Kinds(Offer(p))
    case SendServerHelloDone => Kinds(Offer(p) + Opt(p.Ske(), ServerKeyExchange))
    case SendServerFinished => Kinds(if p.resumed then [ServerHello] else Offer(p) + Asks(p))
    case FinishServerHandshake | Done => WholeSent(p)
    case _ => if p.resumed then WholeSent(p) else Kinds(Offer(p) + Asks(p))
  }

  function Expected(st: State, asking: bool, p: Params, key: bool): Tally
  {
    Tally(Hashed(st, p, key), Read(st, asking, p, key), Sent(st, p))
  }

  // ---------------------------------------------------------------- the invariant

  /** How many messages come before the client's certificate. */
  function CertificateAt(p: Params): nat
  {
    1 + |Offer(p)| + |Asks(p)|
  }

  /** The certificate the client sent is empty exactly if no key came with it. */
  predicate CertificateSays(s: Server)
  {
    s.params.certRequest && !s.params.resumed && !BeforeCertificate(s.state) ==>
      && CertificateAt(s.params) < |s.hashed|
      && s.hashed[CertificateAt(s.params)].Chain? && s.hashed[CertificateAt(s.params)].empty == !s.peerKey
  }

  ghost predicate Legal(s: Server, read: seq<Kind>, sent: seq<Kind>)
  {
    && Tally(TypesOf(s.hashed), read, sent) == Expected(s.state, s.wait.ReadCcs?, s.params, s.peerKey)
    && Covering(s.hashed) && CertificateSays(s)
    && (s.state.SendServerKeyExchange? ==> s.hasParams == s.params.Ske())
    && (s.params.resumed ==> OnResumedPath(s.state) && !s.peerKey)
    && (BeforeCertificate(s.state) ==> !s.peerKey)
  }

  /** What a turn adds to what was composed. */
  function Gained(s: Server, t: Turn): seq<Kind>
  {
    var all := t.out + t.next.flight;
    if |s.flight| <= |all| then KindsOf(all[|s.flight|..]) else []
  }

  function Taken(t: Turn, head: Option<Item>): seq<Kind>
  {
    if t.took && head.Some? then [KindOf(head.value)] else []
  }

  /** A turn that does not fail leads from what is expected to what is expected. */
  ghost predicate Keeps(s: Server, head: Option<Item>, t: Turn, read: seq<Kind>, sent: seq<Kind>)
  {
    && t.next.params == s.params && t.next.requireCert == s.requireCert
    && if t.next.wait.Failed? then t.next.state == s.state
       else Legal(t.next, read + Taken(t, head), sent + Gained(s, t)) && s.flight <= t.out + t.next.flight
  }

  lemma NothingGained(s: Server, t: Turn)
    requires t.out == [] && t.next.flight == s.flight
    ensures Gained(s, t) == [] && s.flight <= t.out + t.next.flight
  {
    assert t.out + t.next.flight == s.flight;
    assert s.flight[|s.flight|..] == [];
  }

  lemma FlightGained(s: Server, t: Turn, more: seq<Item>)
    requires t.out == [] && t.next.flight == s.flight + more
    ensures Gained(s, t) == KindsOf(more) && s.flight <= t.out + t.next.flight
  {
    assert t.out + t.next.flight == s.flight + more;
    assert (s.flight + more)[|s.flight|..] == more;
  }

  lemma BlockKeeps(s: Server, head: Option<Item>, w: Wait, read: seq<Kind>, sent: seq<Kind>)
    requires Legal(s, read, sent) && s.Free() && (w == ReadMessage || w == Retry)
    ensures Keeps(s, head, Block(s, w), read, sent)
  {
    hide Hashed;
    hide Sent;
    hide TypesOf;
    hide Covering;
    NothingGained(s, Block(s, w));
    assert read + [] == read && sent + [] == sent;
    assert Read(s.state, false, s.params, s.peerKey) == Read(s.state, s.wait.ReadCcs?, s.params, s.peerKey);
  }

  /** A step that keeps the place of the client's certificate in view. */
  predicate Ahead(s: Server, st: State)
  {
    && s.Free() && !st.SendServerKeyExchange? && (BeforeCertificate(st) ==> BeforeCertificate(s.state))
    && (s.params.resumed ==> OnResumedPath(st))
    && (BeforeCertificate(s.state) && !BeforeCertificate(st) ==> !s.params.certRequest || s.params.resumed)
  }

  lemma GotoKeeps(s: Server, head: Option<Item>, st: State, read: seq<Kind>, sent: seq<Kind>)
    requires Legal(s, read, sent) && Ahead(s, st)
    requires Expected(st, false, s.params, s.peerKey) == Expected(s.state, false, s.params, s.peerKey)
    ensures Keeps(s, head, Goto(s, st), read, sent)
  {
    hide Expected;
    hide TypesOf;
    hide Covering;
    NothingGained(s, Goto(s, st));
    assert read + [] == read && sent + [] == sent;
  }

  lemma TakeKeeps(s: Server, head: Option<Item>, st: State, m: Msg, read: seq<Kind>, sent: seq<Kind>)
    requires Legal(s, read, sent) && Ahead(s, st) && head == Some(Handshake(m))
    requires (m.Mac? ==> m.over == s.hashed) && (m.Signature? ==> m.over == s.hashed)
    requires var a, b := Expected(s.state, false, s.params, s.peerKey), Expected(st, false, s.params, s.peerKey);
             b == Tally(a.hashed + [TypeOf(m)], a.read + [Of(TypeOf(m))], a.sent)
    ensures Keeps(s, head, Take(s, st, m), read, sent)
  {
    hide Expected;
    hide TypesOf;
    hide Covering;
    NothingGained(s, Take(s, st, m));
    TypesJoin(s.hashed, [m]);
    assert TypesOf([m]) == [TypeOf(m)] by { OneType(m); }
    CoveringGrows(s.hashed, m);
    assert sent + [] == sent;
  }

  lemma SendKeeps(s: Server, head: Option<Item>, params: bool, st: State, w: Wait, ms: seq<Msg>, read: seq<Kind>, sent: seq<Kind>)
    requires Legal(s, read, sent) && s.Free() && !w.ReadCcs? && !w.Failed? && BeforeCertificate(s.state)
    requires BeforeCertificate(st) || (s.params.resumed && OnResumedPath(st))
    requires s.params.resumed ==> OnResumedPath(st)
    requires st.SendServerKeyExchange? ==> params == s.params.Ske()
    requires forall i :: 0 <= i < |ms| ==> !ms[i].Mac? && !ms[i].Signature?
    requires var a, b := Expected(s.state, false, s.params, s.peerKey), Expected(st, false, s.params, s.peerKey);
             b == Tally(a.hashed + TypesOf(ms), a.read, a.sent + Kinds(TypesOf(ms)))
    ensures Keeps(s, head, Send(s.(hasParams := params), st, w, ms), read, sent)
  {
    hide Expected;
    hide TypesOf;
    hide Kinds;
    hide Handshakes;
    FlightGained(s, Send(s.(hasParams := params), st, w, ms), Handshakes(ms));
    HandshakeKinds(ms);
    TypesJoin(s.hashed, ms);
    CoveringPlain(s.hashed, ms);
    hide Covering;
    assert read + [] == read;
  }

  lemma FailKeeps(s: Server, head: Option<Item>, read: seq<Kind>, sent: seq<Kind>)
    ensures Keeps(s, head, Fail(s), read, sent)
  {
  }

  /** Flags that say what was checked or is left to send do not count, but for the parameters just before they are sent. */
  lemma FlagsKeep(s: Server, f: Server, head: Option<Item>, t: Turn, read: seq<Kind>, sent: seq<Kind>)
    requires f == s.(hasParams := f.hasParams, chainVerified := f.chainVerified, sigVerified := f.sigVerified,
                     peerFinished := f.peerFinished)
    requires Legal(s, read, sent) && !s.state.SendServerKeyExchange?
    ensures Legal(f, read, sent) && (Keeps(f, head, t, read, sent) ==> Keeps(s, head, t, read, sent))
  {
    hide Covering;
    hide Expected;
    hide TypesOf;
  }

  /** Nothing but a ClientHello is looked at before it is taken. */
  predicate HelloHere(head: Option<Item>)
  {
    head.Some? ==> head.value.Handshake? && TypeOf(head.value.m) == ClientHello
  }

  lemma HelloKeeps(s: Server, e: Env, read: seq<Kind>, sent: seq<Kind>)
    requires Legal(s, read, sent) && s.Free()
    ensures s.state.ReadClientHello? ==> Keeps(s, e.head, DoReadClientHello(s, e), read, sent)
    ensures s.state.SelectCertificate? ==> Keeps(s, e.head, DoSelectCertificate(s, e), read, sent)
    ensures s.state.SelectParameters? && HelloHere(e.head) ==> Keeps(s, e.head, DoSelectParameters(s, e), read, sent)
  {
    hide Keeps;
    hide Legal;
    hide Fail;
    hide Block;
    hide Goto;
    hide Take;
    hide Send;
    FailKeeps(s, e.head, read, sent);
    BlockKeeps(s, e.head, ReadMessage, read, sent);
    BlockKeeps(s, e.head, Retry, read, sent);
    if s.state.ReadClientHello? {
      GotoKeeps(s, e.head, SelectCertificate, read, sent);
    } else if s.state.SelectCertificate? {
      GotoKeeps(s, e.head, SelectParameters, read, sent);
    } else if s.state.SelectParameters? && HelloHere(e.head) && e.head.Some? {
      TakeKeeps(s, e.head, SendServerHello, e.head.value.m, read, sent);
    }
  }

  lemma OptTypes(b: bool, m: Msg)
    ensures TypesOf(Opt(b, m)) == Opt(b, TypeOf(m))
  {
  }

  lemma SendHelloKeeps(s: Server, e: Env, read: seq<Kind>, sent: seq<Kind>)
    requires Legal(s, read, sent) && s.Free() && s.state.SendServerHello?
    ensures Keeps(s, e.head, DoSendServerHello(s, e), read, sent)
  {
    hide Keeps;
    hide Legal;
    hide Fail;
    hide Block;
    hide Goto;
    hide Take;
    hide Send;
    FailKeeps(s, e.head, read, sent);
    OneType(Hello(s.params, s.data));
    var st := if s.params.resumed then SendServerFinished else SendServerCertificate;
    assert Sent(st, s.params) == [] + Kinds([ServerHello]);
    SendKeeps(s, e.head, s.hasParams, st, Running, [Hello(s.params, s.data)], read, sent);
  }

  lemma SendCertificateKeeps(s: Server, e: Env, read: seq<Kind>, sent: seq<Kind>)
    requires Legal(s, read, sent) && s.Free() && s.state.SendServerCertificate? && !s.params.resumed
    ensures Keeps(s, e.head, DoSendServerCertificate(s, e), read, sent)
  {
    hide Keeps;
    hide Legal;
    hide Fail;
    hide Block;
    hide Goto;
    hide Take;
    hide Send;
    FailKeeps(s, e.head, read, sent);
    var p, d := s.params, s.data;
    OptTypes(p.certAuth, Chain(false, d));
    OptTypes(p.certAuth && p.status, Plain(CertificateStatus, d));
    TypesJoin(Opt(p.certAuth, Chain(false, d)), Opt(p.certAuth && p.status, Plain(CertificateStatus, d)));
    var ts := Opt(p.certAuth, Certificate) + Opt(p.certAuth && p.status, CertificateStatus);
    assert Offer(p) == [ServerHello] + ts && [ClientHello] + Offer(p) == [ClientHello, ServerHello] + ts;
    KindsOfTypes([ServerHello], ts);
    assert Kinds([ServerHello]) == [Of(ServerHello)];
    SendKeeps(s, e.head, p.Ske(), SendServerKeyExchange, Running, CertificateFlight(p, d), read, sent);
  }

  lemma SendKeyKeeps(s: Server, e: Env, read: seq<Kind>, sent: seq<Kind>)
    requires Legal(s, read, sent) && s.Free() && s.state.SendServerKeyExchange? && !s.params.resumed && s.hasParams == s.params.Ske()
    ensures Keeps(s, e.head, DoSendServerKeyExchange(s, e), read, sent)
  {
    hide Keeps;
    hide Legal;
    hide Fail;
    hide Block;
    hide Goto;
    hide Take;
    hide Send;
    hide Offer;
    FailKeeps(s, e.head, read, sent);
    BlockKeeps(s, e.head, Retry, read, sent);
    var p, m := s.params, Plain(ServerKeyExchange, s.data);
    if !s.hasParams {
      assert Offer(p) + [] == Offer(p) && [ClientHello] + Offer(p) + [] == [ClientHello] + Offer(p);
      GotoKeeps(s, e.head, SendServerHelloDone, read, sent);
    } else {
      OneType(m);
      KindsOfTypes(Offer(p), [ServerKeyExchange]);
      SendKeeps(s, e.head, false, SendServerHelloDone, Running, [m], read, sent);
    }
  }

  lemma SendDoneKeeps(s: Server, e: Env, read: seq<Kind>, sent: seq<Kind>)
    requires Legal(s, read, sent) && s.Free() && s.state.SendServerHelloDone? && !s.params.resumed
    ensures Keeps(s, e.head, DoSendServerHelloDone(s, e), read, sent)
  {
    hide Keeps;
    hide Legal;
    hide Fail;
    hide Block;
    hide Goto;
    hide Take;
    hide Send;
    hide Offer;
    FailKeeps(s, e.head, read, sent);
    var p, d := s.params, s.data;
    OptTypes(p.certRequest, Plain(CertificateRequest, d));
    OneType(Plain(ServerHelloDone, d));
    TypesJoin(Opt(p.certRequest, Plain(CertificateRequest, d)), [Plain(ServerHelloDone, d)]);
    var ske, ts := Opt(p.Ske(), ServerKeyExchange), Opt(p.certRequest, CertificateRequest) + [ServerHelloDone];
    assert Asks(p) == ske + ts;
    assert [ClientHello] + Offer(p) + Asks(p) == [ClientHello] + Offer(p) + ske + ts;
    assert Offer(p) + Asks(p) == Offer(p) + ske + ts;
    KindsOfTypes(Offer(p) + ske, ts);
    SendKeeps(s, e.head, s.hasParams, ReadClientCertificate, Flush, HelloDoneFlight(p, d), read, sent);
  }

  lemma ReadCertificateKeeps(s: Server, e: Env, read: seq<Kind>, sent: seq<Kind>)
    requires Legal(s, read, sent) && s.Free() && s.state.ReadClientCertificate? && !s.params.resumed
    ensures Keeps(s, e.head, DoReadClientCertificate(s, e), read, sent)
  {
    hide Keeps;
    hide Legal;
    hide Fail;
    hide Block;
    hide Goto;
    hide Take;
    hide Offer;
    hide Asks;
    FailKeeps(s, e.head, read, sent);
    BlockKeeps(s, e.head, ReadMessage, read, sent);
    var p := s.params;
    if !p.certRequest {
      assert [ClientHello] + Offer(p) + Asks(p) + [] == [ClientHello] + Offer(p) + Asks(p);
      GotoKeeps(s, e.head, VerifyClientCertificate, read, sent);
    } else if e.head.Some? && e.head.value.Handshake? && e.head.value.m.Chain? {
      CertificateKeeps(s, e.head.value.m, read, sent);
    }
  }

  lemma CertificateKeeps(s: Server, m: Msg, read: seq<Kind>, sent: seq<Kind>)
    requires Legal(s, read, sent) && s.Free() && s.state.ReadClientCertificate? && !s.params.resumed && s.params.certRequest && m.Chain?
    ensures Keeps(s, Some(Handshake(m)), Take(s.(peerKey := !m.empty), VerifyClientCertificate, m), read, sent)
  {
    hide TypesOf;
    hide Covering;
    hide Offer;
    hide Asks;
    var t := Take(s.(peerKey := !m.empty), VerifyClientCertificate, m);
    NothingGained(s, t);
    TypesJoin(s.hashed, [m]);
    OneType(m);
    CoveringGrows(s.hashed, m);
    assert sent + [] == sent;
    assert |TypesOf(s.hashed)| == |s.hashed| == CertificateAt(s.params);
  }

  lemma VerifyKeeps(s: Server, e: Env, read: seq<Kind>, sent: seq<Kind>)
    requires Legal(s, read, sent) && s.Free() && s.state.VerifyClientCertificate? && !s.params.resumed
    ensures Keeps(s, e.head, DoVerifyClientCertificate(s, e), read, sent)
  {
    hide Keeps;
    hide Legal;
    hide Fail;
    hide Block;
    hide Goto;
    hide Take;
    hide Send;
    FailKeeps(s, e.head, read, sent);
    BlockKeeps(s, e.head, Retry, read, sent);
    var f := s.(chainVerified := true);
    FlagsKeep(s, f, e.head, Goto(f, ReadClientKeyExchange), read, sent);
    GotoKeeps(s, e.head, ReadClientKeyExchange, read, sent);
    GotoKeeps(f, e.head, ReadClientKeyExchange, read, sent);
  }

  lemma KeyExpected(p: Params, key: bool)
    requires !p.resumed
    ensures var a := Expected(ReadClientKeyExchange, false, p, key);
            Expected(ReadClientCertificateVerify, false, p, key)
            == Tally(a.hashed + [ClientKeyExchange], a.read + [Of(ClientKeyExchange)], a.sent)
  {
    hide Offer;
    hide Asks;
    KindsOfTypes(Opt(p.certRequest, Certificate), [ClientKeyExchange]);
  }

  lemma ReadKeyKeeps(s: Server, e: Env, read: seq<Kind>, sent: seq<Kind>)
    requires Legal(s, read, sent) && s.Free() && s.state.ReadClientKeyExchange? && !s.params.resumed
    ensures Keeps(s, e.head, DoReadClientKeyExchange(s, e), read, sent)
  {
    hide Keeps;
    hide Legal;
    hide Fail;
    hide Block;
    hide Take;
    hide Expected;
    FailKeeps(s, e.head, read, sent);
    BlockKeeps(s, e.head, ReadMessage, read, sent);
    BlockKeeps(s, e.head, Retry, read, sent);
    KeyExpected(s.params, s.peerKey);
    var p := PeekType(e, ClientKeyExchange);
    if p.Got? {
      PlainMessage(p.m);
      TakeKeeps(s, e.head, ReadClientCertificateVerify, p.m, read, sent);
    }
  }

  lemma ReadVerifyKeeps(s: Server, e: Env, read: seq<Kind>, sent: seq<Kind>)
    requires Legal(s, read, sent) && s.Free() && s.state.ReadClientCertificateVerify? && !s.params.resumed
    ensures Keeps(s, e.head, DoReadClientCertificateVerify(s, e), read, sent)
  {
    hide Keeps;
    hide Legal;
    hide Fail;
    hide Block;
    hide Goto;
    hide Take;
    hide Send;
    hide Offer;
    hide Asks;
    FailKeeps(s, e.head, read, sent);
    BlockKeeps(s, e.head, ReadMessage, read, sent);
    ReplyIs(s.params, s.peerKey);
    var p := PeekType(e, CertificateVerify);
    if !s.peerKey {
      GotoKeeps(s, e.head, ReadChangeCipherSpec, read, sent);
    } else if p.Got? && p.m == Signature(s.hashed) {
      var f := s.(sigVerified := true);
      FlagsKeep(s, f, e.head, Take(f, ReadChangeCipherSpec, p.m), read, sent);
      TakeKeeps(f, e.head, ReadChangeCipherSpec, p.m, read, sent);
    }
  }

  lemma ReplyIs(p: Params, key: bool)
    requires !p.resumed
    ensures BeforeExtra(p, key) == [ClientHello] + Offer(p) + Asks(p) + Opt(p.certRequest, Certificate) + [ClientKeyExchange]
                                   + Opt(key, CertificateVerify)
    ensures BeforeCcs(p, key) == [Of(ClientHello)] + Kinds(Opt(p.certRequest, Certificate) + [ClientKeyExchange])
                                 + Kinds(Opt(key, CertificateVerify))
  {
    hide Offer;
    hide Asks;
    var a, b := Opt(p.certRequest, Certificate) + [ClientKeyExchange], Opt(key, CertificateVerify);
    assert Reply(p, key) == a + b;
    assert [ClientHello] + Offer(p) + Asks(p) + (a + b) == [ClientHello] + Offer(p) + Asks(p) + Opt(p.certRequest, Certificate) + [ClientKeyExchange] + b;
    KindsOfTypes([ClientHello], a + b);
    KindsOfTypes(a, b);
    assert Kinds([ClientHello]) == [Of(ClientHello)];
  }

  lemma AskKeeps(s: Server, head: Option<Item>, read: seq<Kind>, sent: seq<Kind>)
    requires Legal(s, read, sent) && s.Free() && s.state.ReadChangeCipherSpec?
    ensures Keeps(s, head, AskForCcs(s), read, sent)
  {
    hide TypesOf;
    hide Covering;
    hide BeforeExtra;
    hide BeforeCcs;
    hide WholeSent;
    NothingGained(s, AskForCcs(s));
    assert read + [] == read && sent + [] == sent;
  }

  lemma DriveCcsKeeps(s: Server, e: Env, read: seq<Kind>, sent: seq<Kind>)
    requires Legal(s, read, sent) && s.wait.ReadCcs? && s.state.ProcessChangeCipherSpec?
    ensures Keeps(s, e.head, DriveCcs(s, e), read, sent)
  {
    hide TypesOf;
    hide Covering;
    hide BeforeExtra;
    hide BeforeCcs;
    hide WholeSent;
    hide OnResumedPath;
    hide BeforeCertificate;
    NothingGained(s, DriveCcs(s, e));
    assert read + [] == read && sent + [] == sent;
    if e.head.None? {
    } else if e.head.value.Ccs? {
    }
  }

  lemma DriveFlushKeeps(s: Server, e: Env, read: seq<Kind>, sent: seq<Kind>)
    requires Legal(s, read, sent) && s.wait.Flush?
    ensures Keeps(s, e.head, DriveFlush(s, e), read, sent)
  {
    hide TypesOf;
    hide Covering;
    hide Hashed;
    hide Sent;
    hide BeforeExtra;
    hide BeforeCcs;
    hide WholeRead;
    var t := DriveFlush(s, e);
    assert t.out + t.next.flight == s.flight;
    assert s.flight[|s.flight|..] == [];
    assert read + [] == read && sent + [] == sent;
  }

  lemma PassKeeps(s: Server, e: Env, read: seq<Kind>, sent: seq<Kind>)
    requires Legal(s, read, sent) && s.Free()
    ensures s.state.StartAccept? ==> Keeps(s, e.head, Goto(s, ReadClientHello), read, sent)
    ensures s.state.ProcessChangeCipherSpec? ==> Keeps(s, e.head, Pass(s, e, ReadNextProto), read, sent)
    ensures s.state.FinishServerHandshake? ==> Keeps(s, e.head, Goto(s, Done), read, sent)
  {
    hide Keeps;
    hide Legal;
    hide Fail;
    hide Block;
    hide Goto;
    hide Take;
    hide Send;
    hide BeforeExtra;
    hide BeforeCcs;
    hide WholeTranscript;
    hide WholeRead;
    hide WholeSent;
    FailKeeps(s, e.head, read, sent);
    if s.state.StartAccept? {
      GotoKeeps(s, e.head, ReadClientHello, read, sent);
    } else if s.state.ProcessChangeCipherSpec? {
      GotoKeeps(s, e.head, ReadNextProto, read, sent);
    } else if s.state.FinishServerHandshake? {
      GotoKeeps(s, e.head, Done, read, sent);
    }
  }

  lemma ReadProtoKeeps(s: Server, e: Env, read: seq<Kind>, sent: seq<Kind>)
    requires Legal(s, read, sent) && s.Free() && s.state.ReadNextProto?
    ensures Keeps(s, e.head, DoReadNextProto(s, e), read, sent)
  {
    hide Keeps;
    hide Legal;
    hide Fail;
    hide Block;
    hide Goto;
    hide Take;
    hide Send;
    hide BeforeExtra;
    hide BeforeCcs;
    hide WholeSent;
    FailKeeps(s, e.head, read, sent);
    BlockKeeps(s, e.head, ReadMessage, read, sent);
    var b, c := BeforeExtra(s.params, s.peerKey), BeforeCcs(s.params, s.peerKey) + [OfCcs];
    assert b + [] == b && c + [] == c && Kinds([]) == [] && Kinds([NextProto]) == [Of(NextProto)];
    var p := PeekType(e, NextProto);
    if !s.params.npn {
      GotoKeeps(s, e.head, ReadChannelId, read, sent);
    } else if p.Got? {
      PlainMessage(p.m);
      TakeKeeps(s, e.head, ReadChannelId, p.m, read, sent);
    }
  }

  lemma IdExpected(p: Params, key: bool)
    ensures var a, b := Expected(ReadChannelId, false, p, key), Expected(ReadClientFinished, false, p, key);
            b == if p.channelId then Tally(a.hashed + [ChannelId], a.read + [Of(ChannelId)], a.sent) else a
  {
    hide BeforeExtra;
    hide BeforeCcs;
    hide WholeSent;
    var b, c := BeforeExtra(p, key), BeforeCcs(p, key) + [OfCcs];
    var np, id := Opt(p.npn, NextProto), Opt(p.channelId, ChannelId);
    assert b + (np + id) == b + np + id;
    KindsOfTypes(np, id);
    assert c + Kinds(np + id) == c + Kinds(np) + Kinds(id);
    assert b + np + [] == b + np && c + Kinds(np) + [] == c + Kinds(np) && Kinds([]) == [] && Kinds([ChannelId]) == [Of(ChannelId)];
  }

  lemma ReadIdKeeps(s: Server, e: Env, read: seq<Kind>, sent: seq<Kind>)
    requires Legal(s, read, sent) && s.Free() && s.state.ReadChannelId?
    ensures Keeps(s, e.head, DoReadChannelId(s, e), read, sent)
  {
    hide Keeps;
    hide Legal;
    hide Fail;
    hide Block;
    hide Goto;
    hide Take;
    hide Send;
    hide Expected;
    FailKeeps(s, e.head, read, sent);
    BlockKeeps(s, e.head, ReadMessage, read, sent);
    IdExpected(s.params, s.peerKey);
    var p := PeekType(e, ChannelId);
    if !s.params.channelId {
      GotoKeeps(s, e.head, ReadClientFinished, read, sent);
    } else if p.Got? {
      PlainMessage(p.m);
      TakeKeeps(s, e.head, ReadClientFinished, p.m, read, sent);
    }
  }

  lemma FinalRead(p: Params, key: bool)
    ensures WholeRead(p, key) == BeforeCcs(p, key) + [OfCcs] + Kinds(Extra(p)) + [Of(Finished)]
    ensures p.resumed ==> WholeTranscript(p, key) == BeforeExtra(p, key) + Extra(p) + [Finished]
    ensures !p.resumed ==> WholeTranscript(p, key) == BeforeExtra(p, key) + Extra(p) + [Finished] + Ticket(p) + [Finished]
  {
    hide Extra;
    hide Offer;
    hide Asks;
    hide Reply;
    KindsOfTypes(Extra(p), [Finished]);
    assert Kinds([Finished]) == [Of(Finished)];
    assert BeforeCcs(p, key) + [OfCcs] + (Kinds(Extra(p)) + [Of(Finished)]) == BeforeCcs(p, key) + [OfCcs] + Kinds(Extra(p)) + [Of(Finished)];
  }

  lemma FinishedExpected(p: Params, key: bool)
    ensures var a := Expected(ReadClientFinished, false, p, key);
            Expected(if p.resumed then FinishServerHandshake else SendServerFinished, false, p, key)
            == Tally(a.hashed + [Finished], a.read + [Of(Finished)], a.sent)
  {
    hide BeforeExtra;
    hide BeforeCcs;
    hide WholeSent;
    hide WholeTranscript;
    hide WholeRead;
    hide Extra;
    FinalRead(p, key);
  }

  lemma ReadFinishedKeeps(s: Server, e: Env, read: seq<Kind>, sent: seq<Kind>)
    requires Legal(s, read, sent) && s.Free() && s.state.ReadClientFinished?
    ensures Keeps(s, e.head, DoReadClientFinished(s, e), read, sent)
  {
    hide Keeps;
    hide Legal;
    hide Fail;
    hide Block;
    hide Goto;
    hide Take;
    hide Send;
    hide Expected;
    FailKeeps(s, e.head, read, sent);
    BlockKeeps(s, e.head, ReadMessage, read, sent);
    FinishedExpected(s.params, s.peerKey);
    var p := PeekType(e, Finished);
    if p.Got? && p.m == Mac(false, s.hashed) {
      var f := s.(peerFinished := s.peerFinished + 1);
      var st := if s.params.resumed then FinishServerHandshake else SendServerFinished;
      FlagsKeep(s, f, e.head, Take(f, st, p.m), read, sent);
      TakeKeeps(f, e.head, st, p.m, read, sent);
    }
  }

  lemma SendFinishedKeeps(s: Server, e: Env, read: seq<Kind>, sent: seq<Kind>)
    requires Legal(s, read, sent) && s.Free() && s.state.SendServerFinished?
    ensures Keeps(s, e.head, DoSendServerFinished(s, e), read, sent)
  {
    if e.ok {
      SentFinishedKeeps(s, e.head, read, sent);
    }
  }

  /** What the server's last flight adds to what is expected. */
  lemma LastExpected(p: Params, key: bool)
    ensures var a := Expected(SendServerFinished, false, p, key);
            Expected(if p.resumed then ReadChangeCipherSpec else FinishServerHandshake, false, p, key)
            == Tally(a.hashed + Ticket(p) + [Finished], a.read, a.sent + (Kinds(Ticket(p)) + [OfCcs, Of(Finished)]))
  {
    hide Kinds;
    hide Extra;
    hide Offer;
    hide Asks;
    hide Reply;
    hide Ticket;
    FinalRead(p, key);
    ResumedRead(p, key);
    var a := Expected(SendServerFinished, false, p, key);
    assert a.sent + (Kinds(Ticket(p)) + [OfCcs, Of(Finished)]) == a.sent + Kinds(Ticket(p)) + [OfCcs, Of(Finished)];
  }

  lemma SentFinishedKeeps(s: Server, head: Option<Item>, read: seq<Kind>, sent: seq<Kind>)
    requires Legal(s, read, sent) && s.Free() && s.state.SendServerFinished?
    ensures Keeps(s, head, SentFinished(s), read, sent)
  {
    hide TypesOf;
    hide Kinds;
    hide KindsOf;
    hide Handshakes;
    hide Expected;
    hide Ticket;
    hide Offer;
    hide Asks;
    var p := s.params;
    var ticket := Opt(p.ticket, Plain(NewSessionTicket, s.data));
    var fin := Mac(true, s.hashed + ticket);
    var more := Handshakes(ticket) + [Ccs] + [Handshake(fin)];
    var t := SentFinished(s);
    FlightGained(s, t, more);
    LastKinds(ticket, fin);
    TicketTypes(p, s.data);
    OneType(fin);
    TypesJoin(s.hashed, ticket);
    TypesJoin(s.hashed + ticket, [fin]);
    CoveringPlain(s.hashed, ticket);
    CoveringGrows(s.hashed + ticket, fin);
    hide Covering;
    LastExpected(p, s.peerKey);
    assert read + [] == read;
  }

  lemma TicketTypes(p: Params, d: nat)
    ensures TypesOf(Opt(p.ticket, Plain(NewSessionTicket, d))) == Ticket(p)
  {
    OptTypes(p.ticket, Plain(NewSessionTicket, d));
  }

  lemma ResumedRead(p: Params, key: bool)
    ensures p.resumed ==> BeforeCcs(p, key) == [Of(ClientHello)]
  {
    assert p.resumed ==> [ClientHello] + (if p.resumed then [] else Reply(p, key)) == [ClientHello];
  }

  lemma LastKinds(ticket: seq<Msg>, fin: Msg)
    requires TypeOf(fin) == Finished
    ensures KindsOf(Handshakes(ticket) + [Ccs] + [Handshake(fin)]) == Kinds(TypesOf(ticket)) + [OfCcs, Of(Finished)]
  {
    HandshakeKinds(ticket);
    var a := Handshakes(ticket);
    assert a + [Ccs] + [Handshake(fin)] == a + [Ccs, Handshake(fin)];
    KindsJoin(a, [Ccs, Handshake(fin)]);
    assert KindsOf([Ccs, Handshake(fin)]) == [OfCcs, Of(Finished)];
  }

  // ---------------------------------------------------------------- runs

  lemma StepKeeps(s: Server, e: Env, read: seq<Kind>, sent: seq<Kind>)
    requires Legal(s, read, sent) && Placed(s) && !s.wait.Failed? && !s.state.Done?
    requires s.state.SelectParameters? ==> HelloHere(e.head)
    ensures Keeps(s, e.head, Step(s, e), read, sent)
  {
    hide DoReadClientHello;
    hide DoSelectCertificate;
    hide DoSelectParameters;
    hide DoSendServerHello;
    hide DoSendServerCertificate;
    hide DoSendServerKeyExchange;
    hide DoSendServerHelloDone;
    hide DoReadClientCertificate;
    hide DoVerifyClientCertificate;
    hide DoReadClientKeyExchange;
    hide DoReadClientCertificateVerify;
    hide DoReadNextProto;
    hide DoReadChannelId;
    hide DoReadClientFinished;
    hide DoSendServerFinished;
    hide AskForCcs;
    hide Pass;
    hide DriveCcs;
    hide DriveFlush;
    hide Goto;
    hide Keeps;
    hide Expected;
    hide TypesOf;
    hide Covering;
    if s.wait.ReadCcs? {
      DriveCcsKeeps(s, e, read, sent);
    } else if s.wait.Flush? {
      DriveFlushKeeps(s, e, read, sent);
    } else {
      match s.state
      case StartAccept | ProcessChangeCipherSpec | FinishServerHandshake => PassKeeps(s, e, read, sent);
      case ReadClientHello | SelectCertificate | SelectParameters => HelloKeeps(s, e, read, sent);
      case SendServerHello => SendHelloKeeps(s, e, read, sent);
      case SendServerCertificate => SendCertificateKeeps(s, e, read, sent);
      case SendServerKeyExchange => SendKeyKeeps(s, e, read, sent);
      case SendServerHelloDone => SendDoneKeeps(s, e, read, sent);
      case ReadClientCertificate => ReadCertificateKeeps(s, e, read, sent);
      case VerifyClientCertificate => VerifyKeeps(s, e, read, sent);
      case ReadClientKeyExchange => ReadKeyKeeps(s, e, read, sent);
      case ReadClientCertificateVerify => ReadVerifyKeeps(s, e, read, sent);
      case ReadChangeCipherSpec => AskKeeps(s, e.head, read, sent);
      case ReadNextProto => ReadProtoKeeps(s, e, read, sent);
      case ReadChannelId => ReadIdKeeps(s, e, read, sent);
      case ReadClientFinished => ReadFinishedKeeps(s, e, read, sent);
      case SendServerFinished => SendFinishedKeeps(s, e, read, sent);
    }
  }

  /** A course in which everything so far is as expected. */
  ghost predicate OnCourse(k: Course)
  {
    (k.s.wait.Failed? && !k.s.state.Done?) ||
    (!k.s.wait.Failed? && Placed(k.s) && Legal(k.s, KindsOf(k.read), KindsOf(k.out + k.s.flight))
     && (k.s.state.SelectCertificate? || k.s.state.SelectParameters? ==> k.inbox != [] && HelloHere(Some(k.inbox[0]))))
  }

  predicate Selecting(st: State)
  {
    st.SelectCertificate? || st.SelectParameters?
  }

  lemma HelloTurns(s: Server, e: Env)
    requires s.Free() && !s.wait.Failed? && (s.state.StartAccept? || s.state.ReadClientHello? || Selecting(s.state))
    ensures var t := Step(s, e);
            Selecting(t.next.state) && !t.next.wait.Failed? ==> !t.took && (Selecting(s.state) || (e.head.Some? && HelloHere(e.head)))
  {
    match s.state
    case StartAccept =>
    case ReadClientHello =>
    case SelectCertificate =>
    case SelectParameters =>
  }

  lemma NoWayBack(s: Server, t: Turn)
    requires Nearer(s, t) && !(s.state.StartAccept? || s.state.ReadClientHello? || Selecting(s.state)) && !s.wait.Flush?
    ensures Selecting(t.next.state) ==> t.next.wait.Failed?
  {
  }

  /** The ClientHello that was looked at stays where it is until it is taken. */
  lemma HelloStays(s: Server, e: Env)
    requires Placed(s) && !s.wait.Failed? && !s.state.Done?
    ensures var t := Step(s, e);
            Selecting(t.next.state) && !t.next.wait.Failed? ==> !t.took && (Selecting(s.state) || (e.head.Some? && HelloHere(e.head)))
  {
    assert s.wait.ReadCcs? ==> s.state.ProcessChangeCipherSpec?;
    hide Step;
    hide Placed;
    hide Nearer;
    hide Appends;
    if s.wait.Flush? {
      FlushTurn(s, e);
    } else if s.state.StartAccept? || s.state.ReadClientHello? || Selecting(s.state) {
      HelloTurns(s, e);
    } else {
      StepSound(s, e);
      NoWayBack(s, Step(s, e));
    }
  }

  lemma FlushTurn(s: Server, e: Env)
    requires s.wait.Flush? && !s.state.Done?
    ensures Step(s, e).next.state == s.state && !Step(s, e).took
  {
  }

  lemma NextKeeps(k: Course, a: Answer)
    requires OnCourse(k)
    ensures OnCourse(Next(k, a)) && Next(k, a).s.params == k.s.params && Next(k, a).s.requireCert == k.s.requireCert
  {
    hide Step;
    hide Legal;
    hide Placed;
    hide Nearer;
    hide Appends;
    var e := Facing(k.inbox, a);
    if k.s.wait.Failed? || k.s.state.Done? {
      Stopped(k.s, e);
      assert k.out + [] == k.out;
    } else {
      var t := Step(k.s, e);
      StepKeeps(k.s, e, KindsOf(k.read), KindsOf(k.out + k.s.flight));
      StepSound(k.s, e);
      HelloStays(k.s, e);
      if !t.next.wait.Failed? {
        GainedIs(k, t);
        assert KindsOf(k.read) + [] == KindsOf(k.read);
        if t.took && e.head.Some? {
          KindsJoin(k.read, [k.inbox[0]]);
          assert KindsOf([k.inbox[0]]) == [KindOf(k.inbox[0])];
        }
      }
    }
  }

  lemma GainedIs(k: Course, t: Turn)
    requires k.s.flight <= t.out + t.next.flight
    ensures KindsOf(k.out + t.out + t.next.flight) == KindsOf(k.out + k.s.flight) + Gained(k.s, t)
  {
    var all := t.out + t.next.flight;
    assert all == k.s.flight + all[|k.s.flight|..];
    assert k.out + t.out + t.next.flight == k.out + k.s.flight + all[|k.s.flight|..];
    KindsJoin(k.out + k.s.flight, all[|k.s.flight|..]);
  }

  lemma {:induction false} FeedKeeps(k: Course, answers: seq<Answer>)
    requires OnCourse(k)
    ensures OnCourse(Feed(k, answers))
    ensures Feed(k, answers).s.params == k.s.params && Feed(k, answers).s.requireCert == k.s.requireCert
    ensures Feed(k, answers).read + Feed(k, answers).inbox == k.read + k.inbox
    decreases |answers|
  {
    hide OnCourse;
    if answers != [] {
      NextKeeps(k, answers[0]);
      SameItems(k, answers[0]);
      hide Next;
      FeedKeeps(Next(k, answers[0]), answers[1..]);
    }
  }

  lemma SameItems(k: Course, a: Answer)
    ensures Next(k, a).read + Next(k, a).inbox == k.read + k.inbox
  {
    hide Step;
    if k.inbox != [] {
      assert k.read + [k.inbox[0]] + k.inbox[1..] == k.read + k.inbox;
    }
  }

  /** Whatever a peer sends, and however it comes: a server that is done has taken a prefix of it that is a ClientHello,
      in a full handshake the client's certificate, key exchange and certificate verification as far as they were called
      for, a ChangeCipherSpec, what was negotiated to stand behind that, and a Finished, in this order and nothing else.
      What it hashed and what it sent are in the one order as well, and each MAC and signature among the hashed messages
      covers just those before it. A server that requires a certificate got one that was not empty. */
  lemma {:induction false} DoneInOrder(params: Params, requireCert: bool, data: nat, inbox: seq<Item>, answers: seq<Answer>)
    ensures var k := Feed(Course(Initial(params, requireCert, data), [], inbox, []), answers);
            var key := k.s.peerKey;
            && k.read + k.inbox == inbox
            && (k.s.state.Done? ==>
                && TypesOf(k.s.hashed) == WholeTranscript(params, key) && Covering(k.s.hashed)
                && KindsOf(k.read) == WholeRead(params, key) && KindsOf(k.out) == WholeSent(params)
                && CertificateSays(k.s) && (params.certRequest && requireCert && !params.resumed ==> key))
  {
    hide WholeTranscript;
    hide WholeRead;
    hide WholeSent;
    hide Feed;
    hide TypesOf;
    hide KindsOf;
    hide Covering;
    var k := Course(Initial(params, requireCert, data), [], inbox, []);
    Beginning(k);
    FeedKeeps(k, answers);
    assert [] + inbox == inbox;
    var d := Feed(k, answers);
    assert d.s.flight == [] ==> d.out + d.s.flight == d.out;
  }

  lemma Beginning(k: Course)
    requires k.s == Initial(k.s.params, k.s.requireCert, k.s.data) && k.read == [] == k.out
    ensures OnCourse(k)
  {
  }
}
