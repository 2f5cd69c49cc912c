/** What a client that finishes has read, hashed and sent, whatever its peer does (handshake_client.cc; sections 7.3 and
    7.4 of RFC 5246). */
module TlsClientTranscript {
  import opened Octets
  import opened TlsClient
  import opened TlsMessageTypes

  // ---------------------------------------------------------------- the order of messages

  /** What the server may send or leave out, and did send; and whether it asked for a certificate. */
  datatype Choice = Choice(status: bool, key: bool)

  /** The server's first flight. */
  function FromServer(p: Params, ch: Choice, asked: bool): seq<MsgType>
  {
    [ServerHello] + Opt(p.certAuth, Certificate) + Opt(ch.status, CertificateStatus) + Opt(ch.key, ServerKeyExchange)
    + Opt(asked, CertificateRequest) + [ServerHelloDone]
  }

  /** The client's answer up to its ChangeCipherSpec. */
  function OwnPart(asked: bool, hasCert: bool): seq<MsgType>
  {
    Opt(asked, Certificate) + [ClientKeyExchange] + Opt(asked && hasCert, CertificateVerify)
  }

  /** What stands between the client's ChangeCipherSpec and its Finished. */
  function Extra(p: Params): seq<MsgType>
  {
    Opt(p.npn, NextProto) + Opt(p.channelId, ChannelId)
  }

  function Ticket(p: Params): seq<MsgType>
  {
    Opt(p.ticket, NewSessionTicket)
  }

  /** The transcript of a handshake that is over. */
  function WholeTranscript(p: Params, ch: Choice, asked: bool, hasCert: bool): seq<MsgType>
  {
    if p.resumed then [ClientHello, ServerHello] + Ticket(p) + [Finished] + Extra(p) + [Finished]
    else
      [ClientHello] + FromServer(p, ch, asked) + OwnPart(asked, hasCert) + Extra(p) + [Finished] + Ticket(p) + [Finished]
  }

  /** Everything read from the server, and everything sent to it. */
  function WholeRead(p: Params, ch: Choice, asked: bool): seq<Kind>
  {
    Kinds(if p.resumed then [ServerHello] else FromServer(p, ch, asked)) + Kinds(Ticket(p)) + [OfCcs, Of(Finished)]
  }

  function WholeSent(p: Params, asked: bool, hasCert: bool): seq<Kind>
  {
    Kinds([ClientHello] + if p.resumed then [] else OwnPart(asked, hasCert)) + [OfCcs] + Kinds(Extra(p) + [Finished])
  }

  /** The same as far as one state has come. */
  datatype Tally = Tally(hashed: seq<MsgType>, read: seq<Kind>, sent: seq<Kind>)
  {
    function Reads(ty: MsgType): Tally { Tally(hashed + [ty], read + [Of(ty)], sent) }

    function Sends(ts: seq<MsgType>): Tally { Tally(hashed + ts, read, sent + Kinds(ts)) }
  }

  /** What was settled: by the hellos, by the server, and by the client's configuration. */
  datatype Terms = Terms(p: Params, ch: Choice, asked: bool, hasCert: bool)

  function Hellos(): Tally
  {
    Tally([ClientHello, ServerHello], [Of(ServerHello)], [Of(ClientHello)])
  }

  function Expected(st: State, asking: bool, t: Terms): Tally
  {
    match st
    case StartConnect => Tally([], [], [])
    case EnterEarlyData | ReadServerHello => Tally([ClientHello], [], [Of(ClientHello)])
    case ReadServerCertificate => Hellos()
    case ReadCertificateStatus => AfterCertificate(t)
    case VerifyServerCertificate | ReadServerKeyExchange => AfterStatus(t)
    case ReadCertificateRequest => AfterKey(t)
    case ReadServerHelloDone => AfterRequest(t)
    case SendClientCertificate => AfterRequest(t).Reads(ServerHelloDone)
    case SendClientKeyExchange => AfterOwnCertificate(t)
    case SendClientCertificateVerify => AfterOwnCertificate(t).Sends([ClientKeyExchange])
    case SendClientFinished => if t.p.resumed then AfterServerFinished(Hellos(), t) else BeforeFinished(t)
    case FinishFlight => AfterOwnFinished(if t.p.resumed then AfterServerFinished(Hellos(), t) else BeforeFinished(t), t)
    case ReadSessionTicket => BeforeTicket(t)
    case ProcessChangeCipherSpec => if asking then AfterTicket(t) else AfterCcs(t)
    case ReadServerFinished => AfterCcs(t)
    case FinishClientHandshake | Done =>
      if t.p.resumed then AfterOwnFinished(AfterServerFinished(Hellos(), t), t) else AfterServerFinished(BeforeTicket(t), t)
  }

  function If(b: bool, x: Tally, y: Tally): Tally
  {
    if b then x else y
  }

  function AfterCertificate(t: Terms): Tally
  {
    If(t.p.certAuth, Hellos().Reads(Certificate), Hellos())
  }

  function AfterStatus(t: Terms): Tally
  {
    If(t.ch.status, AfterCertificate(t).Reads(CertificateStatus), AfterCertificate(t))
  }

  function AfterKey(t: Terms): Tally
  {
    If(t.ch.key, AfterStatus(t).Reads(ServerKeyExchange), AfterStatus(t))
  }

  function AfterRequest(t: Terms): Tally
  {
    If(t.asked, AfterKey(t).Reads(CertificateRequest), AfterKey(t))
  }

  function AfterOwnCertificate(t: Terms): Tally
  {
    var a := AfterRequest(t).Reads(ServerHelloDone);
    If(t.asked, a.Sends([Certificate]), a)
  }

  function BeforeFinished(t: Terms): Tally
  {
    var a := AfterOwnCertificate(t).Sends([ClientKeyExchange]);
    If(t.asked && t.hasCert, a.Sends([CertificateVerify]), a)
  }

  function AfterOwnFinished(a: Tally, t: Terms): Tally
  {
    Tally(a.hashed + Extra(t.p) + [Finished], a.read, a.sent + ([OfCcs] + Kinds(Extra(t.p)) + [Of(Finished)]))
  }

  function BeforeTicket(t: Terms): Tally
  {
    if t.p.resumed then Hellos() else AfterOwnFinished(BeforeFinished(t), t)
  }

  function AfterTicket(t: Terms): Tally
  {
    If(t.p.ticket, BeforeTicket(t).Reads(NewSessionTicket), BeforeTicket(t))
  }

  function AfterCcs(t: Terms): Tally
  {
    AfterTicket(t).(read := AfterTicket(t).read + [OfCcs])
  }

  function AfterServerFinished(before: Tally, t: Terms): Tally
  {
    var a := If(t.p.ticket, before.Reads(NewSessionTicket), before);
    Tally(a.hashed + [Finished], a.read + [OfCcs] + [Of(Finished)], a.sent)
  }

  function TermsOf(c: Client, ch: Choice): Terms
  {
    Terms(c.params, ch, c.certRequest, c.hasCert)
  }

  // ---------------------------------------------------------------- the invariant

  predicate PastHello(st: State)
  {
    !st.StartConnect? && !st.EnterEarlyData? && !st.ReadServerHello?
  }

  predicate PastChain(st: State)
  {
    PastHello(st) && !st.ReadServerCertificate?
  }

  predicate PastKey(st: State)
  {
    !BeforeVerify(st) && !st.ReadServerKeyExchange?
  }

  predicate PastOwn(st: State)
  {
    PastKey(st) && !st.ReadCertificateRequest? && !st.ReadServerHelloDone? && !st.SendClientCertificate?
  }

  /** How many messages come before the client's own certificate. */
  function OwnAt(t: Terms): nat
  {
    |AfterRequest(t).hashed| + 1
  }

  /** The client's terms are those of the hello it hashed, and a resumption only one it offered. */
  predicate HelloSays(c: Client)
  {
    PastHello(c.state) ==>
      && 1 < |c.hashed| && c.hashed[1].Hello?
      && c.params == c.hashed[1].params.(resumed := c.hashed[1].params.resumed && c.offered)
  }

  /** The server's certificate is there if the cipher calls for it, and the client's own says whether it has one. */
  predicate CertificatesSay(c: Client, ch: Choice)
  {
    !c.params.resumed ==>
      && (PastChain(c.state) && c.params.certAuth ==> 2 < |c.hashed| && c.hashed[2].Chain? && !c.hashed[2].empty)
      && (PastOwn(c.state) && c.certRequest ==>
          var n := OwnAt(TermsOf(c, ch));
          n < |c.hashed| && c.hashed[n].Chain? && c.hashed[n].empty == !c.hasCert)
  }

  /** What the server may leave out it may also send, but nothing else; and what it must send it did. */
  predicate Permitted(c: Client, ch: Choice)
  {
    && (ch.status ==> c.params.status) && (c.certRequest ==> c.params.certAuth)
    && (PastKey(c.state) && c.params.skeRequired && !c.params.resumed ==> ch.key)
    && (BeforeVerify(c.state) && !c.state.VerifyServerCertificate? ==> !ch.status)
    && (!PastKey(c.state) ==> !ch.key) && (!PastKey(c.state) || c.state.ReadCertificateRequest? ==> !c.certRequest)
    && (c.params.resumed ==> OnResumedPath(c.state))
  }

  ghost predicate Legal(c: Client, ch: Choice, read: seq<Kind>, sent: seq<Kind>)
  {
    && Tally(TypesOf(c.hashed), read, sent) == Expected(c.state, c.wait.ReadCcs?, TermsOf(c, ch))
    && Covering(c.hashed) && HelloSays(c) && CertificatesSay(c, ch) && Permitted(c, ch)
  }

  /** What a turn adds to what was composed. */
  function Gained(c: Client, t: Turn): seq<Kind>
  {
    var all := t.out + t.next.flight;
    if |c.flight| <= |all| then KindsOf(all[|c.flight|..]) else []
  }

  function Taken(t: Turn, head: Option<Item>): seq<Kind>
  {
    if t.took && head.Some? then [KindOf(head.value)] else []
  }

  function Chosen(c: Client, t: Turn, ch: Choice): Choice
  {
    if t.took && c.state.ReadCertificateStatus? then ch.(status := true)
    else if t.took && c.state.ReadServerKeyExchange? then ch.(key := true)
    else ch
  }

  /** A turn that does not fail leads from what is expected to what is expected. */
  ghost predicate Keeps(c: Client, ch: Choice, head: Option<Item>, t: Turn, read: seq<Kind>, sent: seq<Kind>)
  {
    && t.next.hasCert == c.hasCert && t.next.offered == c.offered
    && if t.next.wait.Failed? then t.next.state == c.state
       else Legal(t.next, Chosen(c, t, ch), read + Taken(t, head), sent + Gained(c, t)) && c.flight <= t.out + t.next.flight
  }

  lemma FailKeeps(c: Client, ch: Choice, head: Option<Item>, read: seq<Kind>, sent: seq<Kind>)
    ensures Keeps(c, ch, head, Fail(c), read, sent)
  {
  }

  lemma NothingGained(c: Client, t: Turn)
    requires t.out == [] && t.next.flight == c.flight
    ensures Gained(c, t) == [] && c.flight <= t.out + t.next.flight
  {
    assert t.out + t.next.flight == c.flight;
    assert c.flight[|c.flight|..] == [];
  }

  lemma FlightGained(c: Client, t: Turn, more: seq<Item>)
    requires t.out == [] && t.next.flight == c.flight + more
    ensures Gained(c, t) == KindsOf(more) && c.flight <= t.out + t.next.flight
  {
    assert t.out + t.next.flight == c.flight + more;
    assert (c.flight + more)[|c.flight|..] == more;
  }

  lemma BlockKeeps(c: Client, ch: Choice, head: Option<Item>, w: Wait, read: seq<Kind>, sent: seq<Kind>)
    requires Legal(c, ch, read, sent) && c.Free() && (w == ReadMessage || w == Retry)
    ensures Keeps(c, ch, head, Block(c, w), read, sent)
  {
    hide Expected;
    hide TypesOf;
    hide Covering;
    hide OwnAt;
    NothingGained(c, Block(c, w));
    assert read + [] == read && sent + [] == sent;
  }

  /** The flags a turn may set on the way, and the state it goes to. */
  predicate Ahead(c: Client, f: Client, ch: Choice, ch': Choice, st: State)
  {
    && c.Free() && f == c.(verified := f.verified, certRequest := f.certRequest, peerFinished := f.peerFinished)
    && Permitted(f.(state := st), ch') && PastHello(c.state) == PastHello(st)
    && (f.certRequest != c.certRequest || ch' != ch ==> !PastOwn(st))
    && (!c.params.resumed && c.params.certAuth && PastChain(st) ==> PastChain(c.state))
    && (!c.params.resumed && f.certRequest && PastOwn(st) ==> PastOwn(c.state))
  }

  lemma GotoKeeps(c: Client, f: Client, ch: Choice, head: Option<Item>, st: State, read: seq<Kind>, sent: seq<Kind>)
    requires Legal(c, ch, read, sent) && Ahead(c, f, ch, ch, st) && f.certRequest == c.certRequest
    requires Expected(st, false, TermsOf(c, ch)) == Expected(c.state, false, TermsOf(c, ch))
    ensures Keeps(c, ch, head, Goto(f, st), read, sent)
  {
    hide Expected;
    hide TypesOf;
    hide Covering;
    hide OwnAt;
    NothingGained(c, Goto(f, st));
    assert read + [] == read && sent + [] == sent;
  }

  lemma TakeKeeps(c: Client, f: Client, ch: Choice, st: State, m: Msg, read: seq<Kind>, sent: seq<Kind>)
    requires Legal(c, ch, read, sent) && Ahead(c, f, ch, Chosen(c, Take(f, st, m), ch), st)
    requires (m.Mac? ==> m.over == c.hashed) && (m.Signature? ==> m.over == c.hashed)
    requires Expected(st, false, TermsOf(f, Chosen(c, Take(f, st, m), ch))) == Expected(c.state, false, TermsOf(c, ch)).Reads(TypeOf(m))
    ensures Keeps(c, ch, Some(Handshake(m)), Take(f, st, m), read, sent)
  {
    hide Expected;
    hide TypesOf;
    hide Covering;
    hide OwnAt;
    NothingGained(c, Take(f, st, m));
    TypesJoin(c.hashed, [m]);
    OneType(m);
    CoveringGrows(c.hashed, m);
    assert sent + [] == sent;
  }

  /** What is known of a client in one state. */
  lemma Known(c: Client, ch: Choice, read: seq<Kind>, sent: seq<Kind>)
    requires Legal(c, ch, read, sent)
    ensures Permitted(c, ch)
  {
  }

  lemma StartKeeps(c: Client, ch: Choice, e: Env, read: seq<Kind>, sent: seq<Kind>)
    requires Legal(c, ch, read, sent) && c.Free() && c.state.StartConnect?
    ensures Keeps(c, ch, e.head, DoStartConnect(c, e), read, sent)
  {
    hide TypesOf;
    hide Covering;
    hide OwnAt;
    var hello := Plain(ClientHello, c.data);
    if e.ok {
      FlightGained(c, DoStartConnect(c, e), [Handshake(hello)]);
      assert KindsOf([Handshake(hello)]) == [Of(ClientHello)];
      TypesJoin(c.hashed, [hello]);
      OneType(hello);
      CoveringGrows(c.hashed, hello);
      assert read + [] == read;
    }
  }

  lemma HelloKeeps(c: Client, ch: Choice, e: Env, read: seq<Kind>, sent: seq<Kind>)
    requires Legal(c, ch, read, sent) && c.Free() && c.state.ReadServerHello?
    ensures Keeps(c, ch, e.head, DoReadServerHello(c, e), read, sent)
  {
    hide Keeps;
    hide Legal;
    hide Fail;
    hide Block;
    hide Take;
    FailKeeps(c, ch, e.head, read, sent);
    BlockKeeps(c, ch, e.head, ReadMessage, read, sent);
    var p := PeekType(e, ServerHello);
    if p.Got? && p.m.Hello? {
      TakeHello(c, ch, p.m, read, sent);
    }
  }

  lemma HelloStep(t: Terms, u: Terms)
    ensures Expected(if u.p.resumed then ReadSessionTicket else ReadServerCertificate, false, u)
         == Expected(ReadServerHello, false, t).Reads(ServerHello)
  {
  }

  lemma OneHashed(c: Client, ch: Choice, read: seq<Kind>, sent: seq<Kind>)
    requires Legal(c, ch, read, sent) && c.state.ReadServerHello?
    ensures |c.hashed| == 1
  {
    assert |TypesOf(c.hashed)| == 1;
  }

  /** What the hello settles. */
  lemma HelloTaken(c: Client, n: Client, ch: Choice, m: Msg, st: State)
    requires Permitted(c, ch) && c.state.ReadServerHello? && |c.hashed| == 1 && m.Hello?
    requires var p := m.params.(resumed := m.params.resumed && c.offered);
             st == (if p.resumed then ReadSessionTicket else ReadServerCertificate)
             && n == c.(params := p, state := st, wait := n.wait, hashed := c.hashed + [m])
    ensures HelloSays(n) && CertificatesSay(n, ch) && Permitted(n, ch)
  {
    hide OwnAt;
    assert n.hashed[1] == m;
    if n.params.resumed {
      assert OnResumedPath(n.state);
    } else {
      assert !PastChain(n.state) && !PastOwn(n.state);
    }
  }

  lemma TakeHello(c: Client, ch: Choice, m: Msg, read: seq<Kind>, sent: seq<Kind>)
    requires Legal(c, ch, read, sent) && c.Free() && c.state.ReadServerHello? && m.Hello?
    ensures var p := m.params.(resumed := m.params.resumed && c.offered);
            Keeps(c, ch, Some(Handshake(m)), Take(c.(params := p), if p.resumed then ReadSessionTicket else ReadServerCertificate, m), read, sent)
  {
    hide TypesOf;
    hide Covering;
    hide Expected;
    hide HelloSays;
    hide CertificatesSay;
    hide Permitted;
    var p := m.params.(resumed := m.params.resumed && c.offered);
    var st := if p.resumed then ReadSessionTicket else ReadServerCertificate;
    var u := Take(c.(params := p), st, m);
    OneHashed(c, ch, read, sent);
    HelloStep(TermsOf(c, ch), TermsOf(u.next, ch));
    HelloTaken(c, u.next, ch, m, st);
    NothingGained(c, u);
    TypesJoin(c.hashed, [m]);
    OneType(m);
    CoveringGrows(c.hashed, m);
    assert sent + [] == sent;
  }

  lemma ReadCertificateKeeps(c: Client, ch: Choice, e: Env, read: seq<Kind>, sent: seq<Kind>)
    requires Legal(c, ch, read, sent) && c.Free() && c.state.ReadServerCertificate? && !c.params.resumed
    ensures Keeps(c, ch, e.head, DoReadServerCertificate(c, e), read, sent)
  {
    hide Keeps;
    hide Legal;
    hide Fail;
    hide Block;
    hide Goto;
    hide Take;
    hide Send;
    hide Expected;
    FailKeeps(c, ch, e.head, read, sent);
    BlockKeeps(c, ch, e.head, ReadMessage, read, sent);
    Known(c, ch, read, sent);
    var p := PeekType(e, Certificate);
    if !c.params.certAuth {
      CertificateStep(TermsOf(c, ch));
      GotoKeeps(c, c, ch, e.head, ReadCertificateStatus, read, sent);
    } else if p.Got? && p.m.Chain? && !p.m.empty {
      TakeChain(c, ch, p.m, read, sent);
    }
  }

  lemma CertificateStep(t: Terms)
    ensures Expected(ReadCertificateStatus, false, t)
         == if t.p.certAuth then Expected(ReadServerCertificate, false, t).Reads(Certificate) else Expected(ReadServerCertificate, false, t)
  {
  }

  lemma TakeChain(c: Client, ch: Choice, m: Msg, read: seq<Kind>, sent: seq<Kind>)
    requires Legal(c, ch, read, sent) && c.Free() && c.state.ReadServerCertificate? && !c.params.resumed && c.params.certAuth
    requires m.Chain? && !m.empty
    ensures Keeps(c, ch, Some(Handshake(m)), Take(c, ReadCertificateStatus, m), read, sent)
  {
    hide TypesOf;
    hide Covering;
    hide OwnAt;
    NothingGained(c, Take(c, ReadCertificateStatus, m));
    TypesJoin(c.hashed, [m]);
    OneType(m);
    CoveringGrows(c.hashed, m);
    assert sent + [] == sent;
    assert |TypesOf(c.hashed)| == 2;
  }

  /** The steps of the server's first flight after its certificate. */
  lemma StatusSteps(t: Terms)
    ensures Expected(VerifyServerCertificate, false, t.(ch := t.ch.(status := true)))
         == Expected(ReadCertificateStatus, false, t).Reads(CertificateStatus)
    ensures !t.ch.status ==> Expected(VerifyServerCertificate, false, t) == Expected(ReadCertificateStatus, false, t)
    ensures Expected(ReadServerKeyExchange, false, t) == Expected(VerifyServerCertificate, false, t)
  {
    hide Tally.Reads;
  }

  lemma KeySteps(t: Terms)
    ensures Expected(ReadCertificateRequest, false, t.(ch := t.ch.(key := true)))
         == Expected(ReadServerKeyExchange, false, t).Reads(ServerKeyExchange)
    ensures !t.ch.key ==> Expected(ReadCertificateRequest, false, t) == Expected(ReadServerKeyExchange, false, t)
  {
    hide Tally.Reads;
  }

  lemma RequestSteps(t: Terms)
    ensures Expected(ReadServerHelloDone, false, t.(asked := true))
         == Expected(ReadCertificateRequest, false, t).Reads(CertificateRequest)
    ensures !t.asked ==> Expected(ReadServerHelloDone, false, t) == Expected(ReadCertificateRequest, false, t)
    ensures Expected(SendClientCertificate, false, t) == Expected(ReadServerHelloDone, false, t).Reads(ServerHelloDone)
  {
    hide Tally.Reads;
  }

  lemma StatusKeeps(c: Client, ch: Choice, e: Env, read: seq<Kind>, sent: seq<Kind>)
    requires Legal(c, ch, read, sent) && c.Free() && c.state.ReadCertificateStatus? && !c.params.resumed
    ensures Keeps(c, ch, e.head, DoReadCertificateStatus(c, e), read, sent)
  {
    hide Keeps;
    hide Legal;
    hide Fail;
    hide Block;
    hide Goto;
    hide Send;
    hide Expected;
    FailKeeps(c, ch, e.head, read, sent);
    BlockKeeps(c, ch, e.head, ReadMessage, read, sent);
    Known(c, ch, read, sent);
    StatusSteps(TermsOf(c, ch));
    var p := PeekAny(e);
    GotoKeeps(c, c, ch, e.head, VerifyServerCertificate, read, sent);
    if c.params.status && p.Got? && TypeOf(p.m) == CertificateStatus {
      PlainMessage(p.m);
      TakeKeeps(c, c, ch, VerifyServerCertificate, p.m, read, sent);
    }
  }

  lemma VerifyKeeps(c: Client, ch: Choice, e: Env, read: seq<Kind>, sent: seq<Kind>)
    requires Legal(c, ch, read, sent) && c.Free() && c.state.VerifyServerCertificate? && !c.params.resumed
    ensures Keeps(c, ch, e.head, DoVerifyServerCertificate(c, e), read, sent)
  {
    hide Keeps;
    hide Legal;
    hide Fail;
    hide Block;
    hide Goto;
    hide Take;
    hide Send;
    hide Expected;
    FailKeeps(c, ch, e.head, read, sent);
    BlockKeeps(c, ch, e.head, Retry, read, sent);
    Known(c, ch, read, sent);
    StatusSteps(TermsOf(c, ch));
    GotoKeeps(c, c, ch, e.head, ReadServerKeyExchange, read, sent);
    GotoKeeps(c, c.(verified := true), ch, e.head, ReadServerKeyExchange, read, sent);
  }

  lemma KeyKeeps(c: Client, ch: Choice, e: Env, read: seq<Kind>, sent: seq<Kind>)
    requires Legal(c, ch, read, sent) && c.Free() && c.state.ReadServerKeyExchange? && !c.params.resumed
    ensures Keeps(c, ch, e.head, DoReadServerKeyExchange(c, e), read, sent)
  {
    hide Keeps;
    hide Legal;
    hide Fail;
    hide Block;
    hide Goto;
    hide Send;
    hide Expected;
    FailKeeps(c, ch, e.head, read, sent);
    BlockKeeps(c, ch, e.head, ReadMessage, read, sent);
    Known(c, ch, read, sent);
    KeySteps(TermsOf(c, ch));
    var p := PeekAny(e);
    if p.Got? && TypeOf(p.m) == ServerKeyExchange {
      PlainMessage(p.m);
      TakeKeeps(c, c, ch, ReadCertificateRequest, p.m, read, sent);
    } else if !c.params.skeRequired {
      GotoKeeps(c, c, ch, e.head, ReadCertificateRequest, read, sent);
    }
  }

  lemma TakeRequest(c: Client, ch: Choice, m: Msg, read: seq<Kind>, sent: seq<Kind>)
    requires Legal(c, ch, read, sent) && c.Free() && c.state.ReadCertificateRequest? && !c.params.resumed && c.params.certAuth
    requires TypeOf(m) == CertificateRequest
    ensures Keeps(c, ch, Some(Handshake(m)), Take(c.(certRequest := true), ReadServerHelloDone, m), read, sent)
  {
    hide Keeps;
    hide Legal;
    hide Expected;
    Known(c, ch, read, sent);
    RequestSteps(TermsOf(c, ch));
    PlainMessage(m);
    TakeKeeps(c, c.(certRequest := true), ch, ReadServerHelloDone, m, read, sent);
  }

  lemma RequestKeeps(c: Client, ch: Choice, e: Env, read: seq<Kind>, sent: seq<Kind>)
    requires Legal(c, ch, read, sent) && c.Free() && c.state.ReadCertificateRequest? && !c.params.resumed
    ensures Keeps(c, ch, e.head, DoReadCertificateRequest(c, e), read, sent)
  {
    hide Keeps;
    hide Legal;
    hide Fail;
    hide Block;
    hide Goto;
    hide Take;
    hide Expected;
    FailKeeps(c, ch, e.head, read, sent);
    BlockKeeps(c, ch, e.head, ReadMessage, read, sent);
    Known(c, ch, read, sent);
    RequestSteps(TermsOf(c, ch));
    var p := PeekAny(e);
    GotoKeeps(c, c, ch, e.head, ReadServerHelloDone, read, sent);
    if c.params.certAuth && p.Got? && TypeOf(p.m) == CertificateRequest {
      TakeRequest(c, ch, p.m, read, sent);
    }
  }

  lemma DoneKeeps(c: Client, ch: Choice, e: Env, read: seq<Kind>, sent: seq<Kind>)
    requires Legal(c, ch, read, sent) && c.Free() && c.state.ReadServerHelloDone? && !c.params.resumed
    ensures Keeps(c, ch, e.head, ReadPlain(c, e, ServerHelloDone, SendClientCertificate), read, sent)
  {
    hide Keeps;
    hide Legal;
    hide Fail;
    hide Block;
    hide Goto;
    hide Send;
    hide Expected;
    FailKeeps(c, ch, e.head, read, sent);
    BlockKeeps(c, ch, e.head, ReadMessage, read, sent);
    Known(c, ch, read, sent);
    RequestSteps(TermsOf(c, ch));
    var p := PeekType(e, ServerHelloDone);
    if p.Got? {
      PlainMessage(p.m);
      TakeKeeps(c, c, ch, SendClientCertificate, p.m, read, sent);
    }
  }

  lemma SendKeeps(c: Client, ch: Choice, head: Option<Item>, st: State, m: Msg, read: seq<Kind>, sent: seq<Kind>)
    requires Legal(c, ch, read, sent) && c.Free() && PastHello(c.state) && PastOwn(st) && PastKey(c.state) && !c.params.resumed
    requires Permitted(c.(state := st), ch) && !m.Mac? && (m.Signature? ==> m.over == c.hashed)
    requires PastOwn(c.state) || (m == Chain(!c.hasCert, c.data) && |c.hashed| == OwnAt(TermsOf(c, ch)))
    requires Expected(st, false, TermsOf(c, ch)) == Expected(c.state, false, TermsOf(c, ch)).Sends([TypeOf(m)])
    ensures Keeps(c, ch, head, Send(c, st, [m]), read, sent)
  {
    hide Expected;
    hide TypesOf;
    hide Kinds;
    hide Handshakes;
    hide OwnAt;
    FlightGained(c, Send(c, st, [m]), Handshakes([m]));
    HandshakeKinds([m]);
    TypesJoin(c.hashed, [m]);
    OneType(m);
    CoveringGrows(c.hashed, m);
    hide Covering;
    assert read + [] == read;
  }

  /** The steps of the client's second flight. */
  lemma OwnSteps(t: Terms)
    ensures Expected(SendClientKeyExchange, false, t)
         == if t.asked then Expected(SendClientCertificate, false, t).Sends([Certificate]) else Expected(SendClientCertificate, false, t)
    ensures Expected(SendClientCertificateVerify, false, t) == Expected(SendClientKeyExchange, false, t).Sends([ClientKeyExchange])
    ensures !t.p.resumed && t.asked && t.hasCert ==>
      Expected(SendClientFinished, false, t) == Expected(SendClientCertificateVerify, false, t).Sends([CertificateVerify])
    ensures !t.p.resumed && !(t.asked && t.hasCert) ==>
      Expected(SendClientFinished, false, t) == Expected(SendClientCertificateVerify, false, t)
    ensures |Expected(SendClientCertificate, false, t).hashed| == OwnAt(t)
  {
    hide AfterRequest;
    hide Tally.Sends;
  }

  lemma HashedLength(c: Client, ch: Choice, read: seq<Kind>, sent: seq<Kind>)
    requires Legal(c, ch, read, sent) && c.Free()
    ensures |c.hashed| == |Expected(c.state, false, TermsOf(c, ch)).hashed|
  {
    hide Expected;
  }

  lemma OwnCertificateKeeps(c: Client, ch: Choice, e: Env, read: seq<Kind>, sent: seq<Kind>)
    requires Legal(c, ch, read, sent) && c.Free() && c.state.SendClientCertificate? && !c.params.resumed
    ensures Keeps(c, ch, e.head, DoSendClientCertificate(c, e), read, sent)
  {
    hide Keeps;
    hide Legal;
    hide Fail;
    hide Block;
    hide Goto;
    hide Take;
    hide Send;
    hide Expected;
    FailKeeps(c, ch, e.head, read, sent);
    BlockKeeps(c, ch, e.head, Retry, read, sent);
    Known(c, ch, read, sent);
    OwnSteps(TermsOf(c, ch));
    HashedLength(c, ch, read, sent);
    if c.certRequest {
      SendKeeps(c, ch, e.head, SendClientKeyExchange, Chain(!c.hasCert, c.data), read, sent);
    } else {
      GotoKeeps(c, c, ch, e.head, SendClientKeyExchange, read, sent);
    }
  }

  lemma OwnKeyKeeps(c: Client, ch: Choice, e: Env, read: seq<Kind>, sent: seq<Kind>)
    requires Legal(c, ch, read, sent) && c.Free() && c.state.SendClientKeyExchange? && !c.params.resumed
    ensures Keeps(c, ch, e.head, DoSendClientKeyExchange(c, e), read, sent)
  {
    hide Keeps;
    hide Legal;
    hide Fail;
    hide Block;
    hide Goto;
    hide Take;
    hide Send;
    hide Expected;
    FailKeeps(c, ch, e.head, read, sent);
    Known(c, ch, read, sent);
    OwnSteps(TermsOf(c, ch));
    SendKeeps(c, ch, e.head, SendClientCertificateVerify, Plain(ClientKeyExchange, c.data), read, sent);
  }

  lemma OwnVerifyKeeps(c: Client, ch: Choice, e: Env, read: seq<Kind>, sent: seq<Kind>)
    requires Legal(c, ch, read, sent) && c.Free() && c.state.SendClientCertificateVerify? && !c.params.resumed
    ensures Keeps(c, ch, e.head, DoSendClientCertificateVerify(c, e), read, sent)
  {
    hide Keeps;
    hide Legal;
    hide Fail;
    hide Block;
    hide Goto;
    hide Take;
    hide Send;
    hide Expected;
    FailKeeps(c, ch, e.head, read, sent);
    BlockKeeps(c, ch, e.head, Retry, read, sent);
    Known(c, ch, read, sent);
    OwnSteps(TermsOf(c, ch));
    if c.certRequest && c.hasCert {
      SendKeeps(c, ch, e.head, SendClientFinished, Signature(c.hashed), read, sent);
    } else {
      GotoKeeps(c, c, ch, e.head, SendClientFinished, read, sent);
    }
  }

  lemma ExtraTypes(p: Params, d: nat)
    ensures TypesOf(Extras(p, d)) == Extra(p)
  {
  }

  lemma LastKinds(extras: seq<Msg>, fin: Msg)
    requires TypeOf(fin) == Finished
    ensures KindsOf([Ccs] + Handshakes(extras) + [Handshake(fin)]) == [OfCcs] + Kinds(TypesOf(extras)) + [Of(Finished)]
  {
    HandshakeKinds(extras);
    KindsJoin([Ccs] + Handshakes(extras), [Handshake(fin)]);
    KindsJoin([Ccs], Handshakes(extras));
    assert KindsOf([Ccs]) == [OfCcs] && KindsOf([Handshake(fin)]) == [Of(Finished)];
  }

  lemma FinishedStep(t: Terms)
    ensures var a := Expected(SendClientFinished, false, t);
            Expected(FinishFlight, false, t)
            == Tally(a.hashed + Extra(t.p) + [Finished], a.read, a.sent + ([OfCcs] + Kinds(Extra(t.p)) + [Of(Finished)]))
  {
    hide Extra;
    hide BeforeFinished;
    hide AfterServerFinished;
  }

  lemma SentFinishedKeeps(c: Client, ch: Choice, head: Option<Item>, read: seq<Kind>, sent: seq<Kind>)
    requires Legal(c, ch, read, sent) && c.Free() && c.state.SendClientFinished?
    ensures Keeps(c, ch, head, SentFinished(c), read, sent)
  {
    hide TypesOf;
    hide Kinds;
    hide KindsOf;
    hide Handshakes;
    hide Expected;
    hide OwnAt;
    hide Extra;
    var extras := Extras(c.params, c.data);
    var fin := Mac(false, c.hashed + extras);
    var t := SentFinished(c);
    FlightGained(c, t, [Ccs] + Handshakes(extras) + [Handshake(fin)]);
    LastKinds(extras, fin);
    ExtraTypes(c.params, c.data);
    OneType(fin);
    TypesJoin(c.hashed, extras);
    TypesJoin(c.hashed + extras, [fin]);
    CoveringPlain(c.hashed, extras);
    CoveringGrows(c.hashed + extras, fin);
    hide Covering;
    hide Extras;
    FinishedStep(TermsOf(c, ch));
    assert read + [] == read;
  }

  lemma SendFinishedKeeps(c: Client, ch: Choice, e: Env, read: seq<Kind>, sent: seq<Kind>)
    requires Legal(c, ch, read, sent) && c.Free() && c.state.SendClientFinished?
    ensures Keeps(c, ch, e.head, DoSendClientFinished(c, e), read, sent)
  {
    hide Keeps;
    hide Legal;
    hide SentFinished;
    hide Block;
    hide Fail;
    FailKeeps(c, ch, e.head, read, sent);
    BlockKeeps(c, ch, e.head, Retry, read, sent);
    SentFinishedKeeps(c, ch, e.head, read, sent);
  }

  lemma FlightSteps(t: Terms)
    ensures t.p.resumed ==> Expected(FinishClientHandshake, false, t) == Expected(FinishFlight, false, t)
    ensures !t.p.resumed ==> Expected(ReadSessionTicket, false, t) == Expected(FinishFlight, false, t)
    ensures Expected(Done, false, t) == Expected(FinishClientHandshake, false, t)
  {
    hide BeforeFinished;
    hide AfterOwnFinished;
    hide AfterServerFinished;
  }

  lemma TicketStep(t: Terms)
    ensures Expected(ProcessChangeCipherSpec, true, t)
         == if t.p.ticket then Expected(ReadSessionTicket, false, t).Reads(NewSessionTicket) else Expected(ReadSessionTicket, false, t)
  {
    hide BeforeTicket;
  }

  lemma CcsStep(t: Terms)
    ensures var a := Expected(ProcessChangeCipherSpec, true, t);
            Expected(ProcessChangeCipherSpec, false, t) == a.(read := a.read + [OfCcs])
    ensures Expected(ReadServerFinished, false, t) == Expected(ProcessChangeCipherSpec, false, t)
  {
    hide AfterTicket;
  }

  lemma LastStep(t: Terms)
    ensures Expected(if t.p.resumed then SendClientFinished else FinishClientHandshake, false, t)
         == Expected(ReadServerFinished, false, t).Reads(Finished)
  {
    hide BeforeFinished;
    hide AfterOwnFinished;
  }

  /** What the transcript shows of hello and certificates does not change while it grows. */
  lemma StillSays(c: Client, d: Client, ch: Choice)
    requires HelloSays(c) && CertificatesSay(c, ch) && c.hashed <= d.hashed && PastOwn(c.state) == PastOwn(d.state)
    requires PastHello(c.state) == PastHello(d.state) && PastChain(c.state) == PastChain(d.state)
    requires d == c.(state := d.state, wait := d.wait, hashed := d.hashed, peerFinished := d.peerFinished)
    ensures HelloSays(d) && CertificatesSay(d, ch)
  {
    hide OwnAt;
  }

  lemma FlightKeeps(c: Client, ch: Choice, head: Option<Item>, read: seq<Kind>, sent: seq<Kind>)
    requires Legal(c, ch, read, sent) && c.Free() && c.state.FinishFlight?
    ensures Keeps(c, ch, head, DoFinishFlight(c), read, sent)
  {
    hide Expected;
    hide TypesOf;
    hide Covering;
    hide HelloSays;
    hide CertificatesSay;
    var t := DoFinishFlight(c);
    FlightSteps(TermsOf(c, ch));
    NothingGained(c, t);
    StillSays(c, t.next, ch);
    assert read + [] == read && sent + [] == sent;
  }

  lemma AskKeeps(c: Client, ch: Choice, head: Option<Item>, ticket: Option<Msg>, read: seq<Kind>, sent: seq<Kind>)
    requires Legal(c, ch, read, sent) && c.Free() && c.state.ReadSessionTicket? && c.params.ticket == ticket.Some?
    requires ticket.Some? ==> head == Some(Handshake(ticket.value)) && TypeOf(ticket.value) == NewSessionTicket
    ensures Keeps(c, ch, head, AskForCcs(c, ticket), read, sent)
  {
    hide Expected;
    hide TypesOf;
    hide Covering;
    hide HelloSays;
    hide CertificatesSay;
    var t := AskForCcs(c, ticket);
    TicketStep(TermsOf(c, ch));
    NothingGained(c, t);
    StillSays(c, t.next, ch);
    assert sent + [] == sent;
    if ticket.Some? {
      PlainMessage(ticket.value);
      TypesJoin(c.hashed, [ticket.value]);
      OneType(ticket.value);
      CoveringGrows(c.hashed, ticket.value);
    } else {
      assert read + [] == read;
    }
  }

  lemma TicketKeeps(c: Client, ch: Choice, e: Env, read: seq<Kind>, sent: seq<Kind>)
    requires Legal(c, ch, read, sent) && c.Free() && c.state.ReadSessionTicket?
    ensures Keeps(c, ch, e.head, DoReadSessionTicket(c, e), read, sent)
  {
    hide Keeps;
    hide Legal;
    hide AskForCcs;
    hide Block;
    hide Fail;
    FailKeeps(c, ch, e.head, read, sent);
    BlockKeeps(c, ch, e.head, ReadMessage, read, sent);
    var p := PeekType(e, NewSessionTicket);
    if !c.params.ticket {
      AskKeeps(c, ch, e.head, None, read, sent);
    } else if p.Got? {
      AskKeeps(c, ch, e.head, Some(p.m), read, sent);
    }
  }

  lemma DriveCcsKeeps(c: Client, ch: Choice, e: Env, read: seq<Kind>, sent: seq<Kind>)
    requires Legal(c, ch, read, sent) && c.wait.ReadCcs? && c.state.ProcessChangeCipherSpec?
    ensures Keeps(c, ch, e.head, DriveCcs(c, e), read, sent)
  {
    hide Expected;
    hide TypesOf;
    hide Covering;
    hide HelloSays;
    hide CertificatesSay;
    var t := DriveCcs(c, e);
    CcsStep(TermsOf(c, ch));
    NothingGained(c, t);
    assert sent + [] == sent;
    if e.head.None? {
      assert read + [] == read;
    } else if e.head.value.Ccs? {
      StillSays(c, t.next, ch);
    }
  }

  lemma DriveFlushKeeps(c: Client, ch: Choice, e: Env, read: seq<Kind>, sent: seq<Kind>)
    requires Legal(c, ch, read, sent) && c.wait.Flush?
    ensures Keeps(c, ch, e.head, DriveFlush(c, e), read, sent)
  {
    hide Expected;
    hide TypesOf;
    hide Covering;
    hide OwnAt;
    var t := DriveFlush(c, e);
    assert t.out + t.next.flight == c.flight;
    assert c.flight[|c.flight|..] == [];
    assert read + [] == read && sent + [] == sent;
  }

  lemma EnterKeeps(c: Client, ch: Choice, e: Env, read: seq<Kind>, sent: seq<Kind>)
    requires Legal(c, ch, read, sent) && c.Free() && c.state.EnterEarlyData?
    ensures Keeps(c, ch, e.head, Goto(c, ReadServerHello), read, sent)
  {
    hide Keeps;
    hide Legal;
    hide Goto;
    Known(c, ch, read, sent);
    GotoKeeps(c, c, ch, e.head, ReadServerHello, read, sent);
  }

  lemma PassKeeps(c: Client, ch: Choice, e: Env, st: State, read: seq<Kind>, sent: seq<Kind>)
    requires Legal(c, ch, read, sent) && c.Free()
    requires (c.state.ProcessChangeCipherSpec? && st.ReadServerFinished?) || (c.state.FinishClientHandshake? && st.Done?)
    ensures Keeps(c, ch, e.head, Pass(c, e, st), read, sent)
  {
    hide Keeps;
    hide Legal;
    hide Fail;
    hide Goto;
    hide Expected;
    FailKeeps(c, ch, e.head, read, sent);
    Known(c, ch, read, sent);
    FlightSteps(TermsOf(c, ch));
    CcsStep(TermsOf(c, ch));
    GotoKeeps(c, c, ch, e.head, st, read, sent);
  }

  lemma TakeFinished(c: Client, ch: Choice, m: Msg, read: seq<Kind>, sent: seq<Kind>)
    requires Legal(c, ch, read, sent) && c.Free() && c.state.ReadServerFinished? && m == Mac(true, c.hashed)
    ensures Keeps(c, ch, Some(Handshake(m)), Take(c.(peerFinished := c.peerFinished + 1),
                  if c.params.resumed then SendClientFinished else FinishClientHandshake, m), read, sent)
  {
    hide Keeps;
    hide Legal;
    hide Expected;
    Known(c, ch, read, sent);
    LastStep(TermsOf(c, ch));
    var f := c.(peerFinished := c.peerFinished + 1);
    if c.params.resumed {
      TakeKeeps(c, f, ch, SendClientFinished, m, read, sent);
    } else {
      TakeKeeps(c, f, ch, FinishClientHandshake, m, read, sent);
    }
  }

  lemma FinishedKeeps(c: Client, ch: Choice, e: Env, read: seq<Kind>, sent: seq<Kind>)
    requires Legal(c, ch, read, sent) && c.Free() && c.state.ReadServerFinished?
    ensures Keeps(c, ch, e.head, DoReadServerFinished(c, e), read, sent)
  {
    hide Keeps;
    hide Legal;
    hide Fail;
    hide Block;
    hide Take;
    FailKeeps(c, ch, e.head, read, sent);
    BlockKeeps(c, ch, e.head, ReadMessage, read, sent);
    var p := PeekType(e, Finished);
    if p.Got? && p.m == Mac(true, c.hashed) {
      TakeFinished(c, ch, p.m, read, sent);
    }
  }

  // ---------------------------------------------------------------- runs

  lemma StepKeeps(c: Client, ch: Choice, e: Env, read: seq<Kind>, sent: seq<Kind>)
    requires Legal(c, ch, read, sent) && Placed(c) && !c.wait.Failed? && !c.state.Done?
    ensures Keeps(c, ch, e.head, Step(c, e), read, sent)
  {
    hide DoStartConnect;
    hide DoReadServerHello;
    hide DoReadServerCertificate;
    hide DoReadCertificateStatus;
    hide DoVerifyServerCertificate;
    hide DoReadServerKeyExchange;
    hide DoReadCertificateRequest;
    hide DoSendClientCertificate;
    hide DoSendClientKeyExchange;
    hide DoSendClientCertificateVerify;
    hide DoSendClientFinished;
    hide DoFinishFlight;
    hide DoReadSessionTicket;
    hide DoReadServerFinished;
    hide ReadPlain;
    hide Pass;
    hide Goto;
    hide DriveCcs;
    hide DriveFlush;
    hide Keeps;
    hide Expected;
    hide TypesOf;
    hide Covering;
    hide HelloSays;
    hide CertificatesSay;
    if c.wait.ReadCcs? {
      DriveCcsKeeps(c, ch, e, read, sent);
    } else if c.wait.Flush? {
      DriveFlushKeeps(c, ch, e, read, sent);
    } else {
      match c.state
      case StartConnect => StartKeeps(c, ch, e, read, sent);
      case EnterEarlyData => EnterKeeps(c, ch, e, read, sent);
      case ReadServerHello => HelloKeeps(c, ch, e, read, sent);
      case ReadServerCertificate => ReadCertificateKeeps(c, ch, e, read, sent);
      case ReadCertificateStatus => StatusKeeps(c, ch, e, read, sent);
      case VerifyServerCertificate => VerifyKeeps(c, ch, e, read, sent);
      case ReadServerKeyExchange => KeyKeeps(c, ch, e, read, sent);
      case ReadCertificateRequest => RequestKeeps(c, ch, e, read, sent);
      case ReadServerHelloDone => DoneKeeps(c, ch, e, read, sent);
      case SendClientCertificate => OwnCertificateKeeps(c, ch, e, read, sent);
      case SendClientKeyExchange => OwnKeyKeeps(c, ch, e, read, sent);
      case SendClientCertificateVerify => OwnVerifyKeeps(c, ch, e, read, sent);
      case SendClientFinished => SendFinishedKeeps(c, ch, e, read, sent);
      case FinishFlight => FlightKeeps(c, ch, e.head, read, sent);
      case ReadSessionTicket => TicketKeeps(c, ch, e, read, sent);
      case ProcessChangeCipherSpec => PassKeeps(c, ch, e, ReadServerFinished, read, sent);
      case ReadServerFinished => FinishedKeeps(c, ch, e, read, sent);
      case FinishClientHandshake => PassKeeps(c, ch, e, Done, read, sent);
    }
  }

  /** A course in which everything so far is as expected, for some choice of the server's. */
  ghost predicate OnCourse(k: Course, ch: Choice)
  {
    (k.c.wait.Failed? && !k.c.state.Done?)
    || (!k.c.wait.Failed? && Placed(k.c) && Legal(k.c, ch, KindsOf(k.read), KindsOf(k.out + k.c.flight)))
  }

  lemma GainedIs(k: Course, t: Turn)
    requires k.c.flight <= t.out + t.next.flight
    ensures KindsOf(k.out + t.out + t.next.flight) == KindsOf(k.out + k.c.flight) + Gained(k.c, t)
  {
    var all := t.out + t.next.flight;
    assert all == k.c.flight + all[|k.c.flight|..];
    assert k.out + t.out + t.next.flight == k.out + k.c.flight + all[|k.c.flight|..];
    KindsJoin(k.out + k.c.flight, all[|k.c.flight|..]);
  }

  lemma NextKeeps(k: Course, a: Answer, ch: Choice) returns (ch': Choice)
    requires OnCourse(k, ch)
    ensures OnCourse(Next(k, a), ch') && Next(k, a).c.hasCert == k.c.hasCert && Next(k, a).c.offered == k.c.offered
  {
    hide Step;
    hide Legal;
    hide Placed;
    hide Nearer;
    hide Appends;
    var e := Facing(k.inbox, a);
    ch' := ch;
    if k.c.wait.Failed? || k.c.state.Done? {
      Stopped(k.c, e);
      assert k.out + [] == k.out;
    } else {
      var t := Step(k.c, e);
      StepKeeps(k.c, ch, e, KindsOf(k.read), KindsOf(k.out + k.c.flight));
      StepSound(k.c, e);
      if !t.next.wait.Failed? {
        ch' := Chosen(k.c, t, ch);
        GainedIs(k, t);
        assert KindsOf(k.read) + [] == KindsOf(k.read);
        if t.took && e.head.Some? {
          KindsJoin(k.read, [k.inbox[0]]);
          assert KindsOf([k.inbox[0]]) == [KindOf(k.inbox[0])];
        }
      }
    }
  }

  lemma SameItems(k: Course, a: Answer)
    ensures Next(k, a).read + Next(k, a).inbox == k.read + k.inbox
  {
    hide Step;
    if k.inbox != [] {
      assert k.read + [k.inbox[0]] + k.inbox[1..] == k.read + k.inbox;
    }
  }

  lemma {:induction false} FeedKeeps(k: Course, answers: seq<Answer>, ch: Choice) returns (last: Choice)
    requires OnCourse(k, ch)
    ensures OnCourse(Feed(k, answers), last) && Feed(k, answers).c.hasCert == k.c.hasCert && Feed(k, answers).c.offered == k.c.offered
    ensures Feed(k, answers).read + Feed(k, answers).inbox == k.read + k.inbox
    decreases |answers|
  {
    hide OnCourse;
    last := ch;
    if answers != [] {
      var ch' := NextKeeps(k, answers[0], ch);
      SameItems(k, answers[0]);
      hide Next;
      last := FeedKeeps(Next(k, answers[0]), answers[1..], ch');
    }
  }

  /** The last state's tally, spelled out. */
  lemma DoneExpected(t: Terms)
    ensures Expected(Done, false, t)
         == Tally(WholeTranscript(t.p, t.ch, t.asked, t.hasCert), WholeRead(t.p, t.ch, t.asked), WholeSent(t.p, t.asked, t.hasCert))
  {
    if t.p.resumed {
      ResumedExpected(t);
    } else {
      FullExpected(t);
    }
  }

  lemma ResumedExpected(t: Terms)
    requires t.p.resumed
    ensures Expected(Done, false, t)
         == Tally(WholeTranscript(t.p, t.ch, t.asked, t.hasCert), WholeRead(t.p, t.ch, t.asked), WholeSent(t.p, t.asked, t.hasCert))
  {
    hide Extra;
    hide OwnPart;
    hide FromServer;
    KindsOfTypes(Extra(t.p), [Finished]);
    TicketOnto(Hellos(), t);
    assert Kinds([Finished]) == [Of(Finished)] && Kinds([ClientHello]) == [Of(ClientHello)] && Kinds([ServerHello]) == [Of(ServerHello)];
    assert [ClientHello] + (if t.p.resumed then [] else OwnPart(t.asked, t.hasCert)) == [ClientHello];
    var a := AfterServerFinished(Hellos(), t);
    assert a.sent + ([OfCcs] + Kinds(Extra(t.p)) + [Of(Finished)]) == a.sent + [OfCcs] + (Kinds(Extra(t.p)) + [Of(Finished)]);
  }

  lemma FullExpected(t: Terms)
    requires !t.p.resumed
    ensures Expected(Done, false, t)
         == Tally(WholeTranscript(t.p, t.ch, t.asked, t.hasCert), WholeRead(t.p, t.ch, t.asked), WholeSent(t.p, t.asked, t.hasCert))
  {
    ServerFlight(t);
    OwnFlight(t);
    hide BeforeFinished;
    hide AfterRequest;
    hide Tally.Reads;
    hide Extra;
    hide OwnPart;
    hide FromServer;
    KindsOfTypes(Extra(t.p), [Finished]);
    KindsOfTypes([ClientHello], OwnPart(t.asked, t.hasCert));
    assert Kinds([Finished]) == [Of(Finished)] && Kinds([ClientHello]) == [Of(ClientHello)];
    var b := BeforeFinished(t);
    assert b.sent + ([OfCcs] + Kinds(Extra(t.p)) + [Of(Finished)]) == b.sent + [OfCcs] + (Kinds(Extra(t.p)) + [Of(Finished)]);
    TicketOnto(AfterOwnFinished(b, t), t);
  }

  lemma TicketOnto(a: Tally, t: Terms)
    ensures AfterServerFinished(a, t) == Tally(a.hashed + Ticket(t.p) + [Finished], a.read + Kinds(Ticket(t.p)) + [OfCcs, Of(Finished)], a.sent)
  {
  }

  lemma ReadOnto(x: seq<MsgType>, b: bool, ty: MsgType, sent: seq<Kind>)
    ensures var a := Tally([ClientHello] + x, Kinds(x), sent);
            If(b, a.Reads(ty), a) == Tally([ClientHello] + (x + Opt(b, ty)), Kinds(x + Opt(b, ty)), sent)
  {
  }

  lemma ServerFlight(t: Terms)
    ensures var a := AfterRequest(t).Reads(ServerHelloDone);
            a == Tally([ClientHello] + FromServer(t.p, t.ch, t.asked), Kinds(FromServer(t.p, t.ch, t.asked)), [Of(ClientHello)])
  {
    hide Tally.Reads;
    hide If;
    hide Opt;
    hide Kinds;
    var a := [ServerHello];
    assert Hellos() == Tally([ClientHello] + a, Kinds(a), [Of(ClientHello)]) by { HelloKinds(); }
    ReadOnto(a, t.p.certAuth, Certificate, [Of(ClientHello)]);
    var b := a + Opt(t.p.certAuth, Certificate);
    ReadOnto(b, t.ch.status, CertificateStatus, [Of(ClientHello)]);
    var d := b + Opt(t.ch.status, CertificateStatus);
    ReadOnto(d, t.ch.key, ServerKeyExchange, [Of(ClientHello)]);
    var f := d + Opt(t.ch.key, ServerKeyExchange);
    ReadOnto(f, t.asked, CertificateRequest, [Of(ClientHello)]);
    DoneOnto(f + Opt(t.asked, CertificateRequest));
  }

  lemma HelloKinds()
    ensures Kinds([ServerHello]) == [Of(ServerHello)]
  {
  }

  lemma DoneOnto(x: seq<MsgType>)
    ensures Tally([ClientHello] + x, Kinds(x), [Of(ClientHello)]).Reads(ServerHelloDone)
         == Tally([ClientHello] + (x + [ServerHelloDone]), Kinds(x + [ServerHelloDone]), [Of(ClientHello)])
  {
  }

  lemma OwnFlight(t: Terms)
    ensures var a, own := AfterRequest(t).Reads(ServerHelloDone), OwnPart(t.asked, t.hasCert);
            BeforeFinished(t) == Tally(a.hashed + own, a.read, a.sent + Kinds(own))
  {
    hide AfterRequest;
    hide Tally.Reads;
    var a := AfterRequest(t).Reads(ServerHelloDone);
    var x := Opt(t.asked, Certificate);
    var y := x + [ClientKeyExchange];
    assert AfterOwnCertificate(t) == Tally(a.hashed + x, a.read, a.sent + Kinds(x));
    assert AfterOwnCertificate(t).Sends([ClientKeyExchange]) == Tally(a.hashed + y, a.read, a.sent + Kinds(y));
    KindsOfTypes(y, Opt(t.asked && t.hasCert, CertificateVerify));
  }

  lemma Beginning(k: Course)
    requires k.c == Initial(k.c.offered, k.c.hasCert, k.c.falseStart, k.c.data) && k.read == [] == k.out
    ensures OnCourse(k, Choice(false, false))
  {
  }

  /** Whatever a peer sends, and however it comes: a client that is done has taken a prefix of it that is a ServerHello, in
      a full handshake a certificate, status, key exchange, request and ServerHelloDone as far as the hello called for them
      or allowed them, a ticket if one was promised, a ChangeCipherSpec and a Finished, in this order and nothing else. What
      it hashed and what it sent are in the one order as well, and each MAC and signature among the hashed messages covers
      just those before it. It resumed nothing it had not offered. */
  lemma DoneInOrder(offered: bool, hasCert: bool, falseStart: bool, data: nat, inbox: seq<Item>, answers: seq<Answer>)
    returns (ch: Choice)
    ensures var k := Feed(Course(Initial(offered, hasCert, falseStart, data), [], inbox, []), answers);
            var p, asked := k.c.params, k.c.certRequest;
            && k.read + k.inbox == inbox
            && (k.c.state.Done? ==>
                && TypesOf(k.c.hashed) == WholeTranscript(p, ch, asked, hasCert) && Covering(k.c.hashed)
                && KindsOf(k.read) == WholeRead(p, ch, asked) && KindsOf(k.out) == WholeSent(p, asked, hasCert)
                && HelloSays(k.c) && CertificatesSay(k.c, ch)
                && (ch.status ==> p.status) && (asked ==> p.certAuth) && (p.skeRequired && !p.resumed ==> ch.key)
                && (p.resumed ==> offered))
  {
    hide WholeTranscript;
    hide WholeRead;
    hide WholeSent;
    hide Feed;
    hide TypesOf;
    hide KindsOf;
    hide Covering;
    hide Expected;
    hide HelloSays;
    hide CertificatesSay;
    var k := Course(Initial(offered, hasCert, falseStart, data), [], inbox, []);
    Beginning(k);
    ch := FeedKeeps(k, answers, Choice(false, false));
    assert [] + inbox == inbox;
    var d := Feed(k, answers);
    assert d.c.flight == [] ==> d.out + d.c.flight == d.out;
    DoneExpected(TermsOf(d.c, ch));
  }
}
