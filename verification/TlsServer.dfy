/** The server's handshake machine for TLS 1.0 to 1.2 (handshake_server.cc, handshake.cc). */
module TlsServer {
  import opened Octets
  import opened TlsMessageTypes

  datatype State =
    | StartAccept | ReadClientHello | SelectCertificate | SelectParameters | SendServerHello | SendServerCertificate
    | SendServerKeyExchange | SendServerHelloDone | ReadClientCertificate | VerifyClientCertificate
    | ReadClientKeyExchange | ReadClientCertificateVerify | ReadChangeCipherSpec | ProcessChangeCipherSpec
    | ReadNextProto | ReadChannelId | ReadClientFinished | SendServerFinished | FinishServerHandshake | Done

  /** The part of SSL_HANDSHAKE and SSL that decides the course of the handshake. */
  datatype Server = Server(
    state: State, wait: Wait,
    requireCert: bool,    // SSL_VERIFY_FAIL_IF_NO_PEER_CERT
    data: nat,            // stands for the contents of the server's messages
    params: Params,       // what the server settles on
    hasParams: bool,      // server_params is not empty
    peerKey: bool,        // the client sent a certificate
    chainVerified: bool,
    sigVerified: bool,    // its CertificateVerify was verified
    hashed: seq<Msg>,     // the transcript
    flight: seq<Item>,    // pending_flight: composed and not yet taken by the transport
    peerFinished: nat,    // matching Finished messages received
    ownFinished: nat)     // Finished messages sent
  {
    /** The driver has nothing to resolve but what a callback holds up. */
    predicate Free() { !wait.ReadCcs? && !wait.Flush? }

    /** A client without a certificate is to be refused. */
    predicate MustHaveCertificate() { params.certRequest && requireCert && !params.resumed }
  }

  /** One turn: the machine afterwards, whether it took the item at the head of the channel, and what the
      transport took of its flight. */
  datatype Turn = Turn(next: Server, took: bool, out: seq<Item>)

  function Fail(s: Server): Turn
  {
    Turn(s.(wait := Failed), false, [])
  }

  function Block(s: Server, w: Wait): Turn
  {
    Turn(s.(wait := w), false, [])
  }

  function Goto(s: Server, st: State): Turn
  {
    Turn(s.(state := st, wait := Running), false, [])
  }

  /** The message at the head is hashed and taken. */
  function Take(s: Server, st: State, m: Msg): Turn
  {
    Turn(s.(state := st, wait := Running, hashed := s.hashed + [m]), true, [])
  }

  /** Messages are added to the flight and hashed; the flight may then have to be flushed. */
  function Send(s: Server, st: State, w: Wait, ms: seq<Msg>): Turn
  {
    Turn(s.(state := st, wait := w, hashed := s.hashed + ms, flight := s.flight + Handshakes(ms)), false, [])
  }

  /** A message of one type is read when every check on it passes. */
  function ReadPlain(s: Server, e: Env, ty: MsgType, st: State): Turn
  {
    match PeekType(e, ty)
    case NoMessage => Block(s, ReadMessage)
    case Wrong => Fail(s)
    case Got(m) => if e.ok then Take(s, st, m) else Fail(s)
  }

  /** The ClientHello is looked at in three states and taken in the last. */
  function DoReadClientHello(s: Server, e: Env): Turn
  {
    match PeekType(e, ClientHello)
    case NoMessage => Block(s, ReadMessage)
    case Wrong => Fail(s)
    case Got(_) => if !e.ready then Block(s, Retry) else if e.ok then Goto(s, SelectCertificate) else Fail(s)
  }

  function DoSelectCertificate(s: Server, e: Env): Turn
  {
    match PeekAny(e)
    case NoMessage => Block(s, ReadMessage)
    case Wrong => Fail(s)
    case Got(_) => if !e.ready then Block(s, Retry) else if e.ok then Goto(s, SelectParameters) else Fail(s)
  }

  function DoSelectParameters(s: Server, e: Env): Turn
  {
    match PeekAny(e)
    case NoMessage => Block(s, ReadMessage)
    case Wrong => Fail(s)
    case Got(m) => if !e.ready then Block(s, Retry) else if e.ok then Take(s, SendServerHello, m) else Fail(s)
  }

  function DoSendServerHello(s: Server, e: Env): Turn
  {
    if !e.ok then Fail(s)
    else
      Send(s, if s.params.resumed then SendServerFinished else SendServerCertificate, Running, [Hello(s.params, s.data)])
  }

  /** Certificate and CertificateStatus. */
  function CertificateFlight(p: Params, data: nat): seq<Msg>
  {
    Opt(p.certAuth, Chain(false, data)) + Opt(p.certAuth && p.status, Plain(CertificateStatus, data))
  }

  function DoSendServerCertificate(s: Server, e: Env): Turn
  {
    if !e.ok then Fail(s)
    else Send(s.(hasParams := s.params.Ske()), SendServerKeyExchange, Running, CertificateFlight(s.params, s.data))
  }

  function DoSendServerKeyExchange(s: Server, e: Env): Turn
  {
    if !s.hasParams then Goto(s, SendServerHelloDone)
    else if s.params.certAuth && !e.ready then Block(s, Retry)
    else if !e.ok then Fail(s)
    else Send(s.(hasParams := false), SendServerHelloDone, Running, [Plain(ServerKeyExchange, s.data)])
  }

  function HelloDoneFlight(p: Params, data: nat): seq<Msg>
  {
    Opt(p.certRequest, Plain(CertificateRequest, data)) + [Plain(ServerHelloDone, data)]
  }

  function DoSendServerHelloDone(s: Server, e: Env): Turn
  {
    if !e.ok then Fail(s) else Send(s, ReadClientCertificate, Flush, HelloDoneFlight(s.params, s.data))
  }

  function DoReadClientCertificate(s: Server, e: Env): Turn
  {
    if !s.params.certRequest then Goto(s, VerifyClientCertificate)
    else
      match PeekType(e, Certificate)
      case NoMessage => Block(s, ReadMessage)
      case Wrong => Fail(s)
      case Got(m) =>
        if !e.ok || !m.Chain? || (m.empty && s.requireCert) then Fail(s)
        else Take(s.(peerKey := !m.empty), VerifyClientCertificate, m)
  }

  function DoVerifyClientCertificate(s: Server, e: Env): Turn
  {
    if !s.peerKey then Goto(s, ReadClientKeyExchange)
    else if !e.ready then Block(s, Retry)
    else if !e.ok then Fail(s)
    else Goto(s.(chainVerified := true), ReadClientKeyExchange)
  }

  function DoReadClientKeyExchange(s: Server, e: Env): Turn
  {
    match PeekType(e, ClientKeyExchange)
    case NoMessage => Block(s, ReadMessage)
    case Wrong => Fail(s)
    case Got(m) =>
      if !e.ready then Block(s, Retry)
      else if e.ok then Take(s, ReadClientCertificateVerify, m)
      else Fail(s)
  }

  /** The signature must be over the transcript so far. */
  function DoReadClientCertificateVerify(s: Server, e: Env): Turn
  {
    if !s.peerKey then Goto(s, ReadChangeCipherSpec)
    else
      match PeekType(e, CertificateVerify)
      case NoMessage => Block(s, ReadMessage)
      case Wrong => Fail(s)
      case Got(m) =>
        if !e.ok || m != Signature(s.hashed) then Fail(s)
        else Take(s.(sigVerified := true), ReadChangeCipherSpec, m)
  }

  function DoReadNextProto(s: Server, e: Env): Turn
  {
    if !s.params.npn then Goto(s, ReadChannelId) else ReadPlain(s, e, NextProto, ReadChannelId)
  }

  function DoReadChannelId(s: Server, e: Env): Turn
  {
    if !s.params.channelId then Goto(s, ReadClientFinished) else ReadPlain(s, e, ChannelId, ReadClientFinished)
  }

  /** ssl_get_finished: the MAC must be the client's over the transcript so far. */
  function DoReadClientFinished(s: Server, e: Env): Turn
  {
    match PeekType(e, Finished)
    case NoMessage => Block(s, ReadMessage)
    case Wrong => Fail(s)
    case Got(m) =>
      if m != Mac(false, s.hashed) || !e.ok then Fail(s)
      else
        Take(s.(peerFinished := s.peerFinished + 1),
             if s.params.resumed then FinishServerHandshake else SendServerFinished, m)
  }

  /** The server's last flight. */
  function SentFinished(s: Server): Turn
  {
    var ticket := Opt(s.params.ticket, Plain(NewSessionTicket, s.data));
    var fin := Mac(true, s.hashed + ticket);
    Turn(s.(state := if s.params.resumed then ReadChangeCipherSpec else FinishServerHandshake, wait := Flush,
            hashed := s.hashed + ticket + [fin],
            flight := s.flight + (Handshakes(ticket) + [Ccs] + [Handshake(fin)]), ownFinished := s.ownFinished + 1),
         false, [])
  }

  function DoSendServerFinished(s: Server, e: Env): Turn
  {
    if e.ok then SentFinished(s) else Fail(s)
  }

  /** A state that only does cryptography or bookkeeping. */
  function Pass(s: Server, e: Env, st: State): Turn
  {
    if e.ok then Goto(s, st) else Fail(s)
  }

  function AskForCcs(s: Server): Turn
  {
    Turn(s.(state := ProcessChangeCipherSpec, wait := ReadCcs), false, [])
  }

  /** The driver reading the ChangeCipherSpec a state asked for. */
  function DriveCcs(s: Server, e: Env): Turn
  {
    match e.head
    case None => Turn(s, false, [])
    case Some(Ccs) => Turn(s.(wait := Running), true, [])
    case Some(_) => Fail(s)
  }

  /** The driver flushing the flight a state asked it to; until that succeeds it returns without doing more. */
  function DriveFlush(s: Server, e: Env): Turn
  {
    var n := Flushed(s.flight, e);
    Turn(s.(flight := s.flight[n..], wait := if FlushDone(s.flight, e) then Running else Flush), false, s.flight[..n])
  }

  /** One turn of ssl_run_handshake: the driver resolves what was waited for, then ssl_server_handshake runs
      one state. */
  function Step(s: Server, e: Env): Turn
  {
    if s.wait.Failed? || s.state.Done? then Turn(s, false, [])
    else if s.wait.ReadCcs? then DriveCcs(s, e)
    else if s.wait.Flush? then DriveFlush(s, e)
    else
      match s.state
      case StartAccept => Goto(s, ReadClientHello)
      case ReadClientHello => DoReadClientHello(s, e)
      case SelectCertificate => DoSelectCertificate(s, e)
      case SelectParameters => DoSelectParameters(s, e)
      case SendServerHello => DoSendServerHello(s, e)
      case SendServerCertificate => DoSendServerCertificate(s, e)
      case SendServerKeyExchange => DoSendServerKeyExchange(s, e)
      case SendServerHelloDone => DoSendServerHelloDone(s, e)
      case ReadClientCertificate => DoReadClientCertificate(s, e)
      case VerifyClientCertificate => DoVerifyClientCertificate(s, e)
      case ReadClientKeyExchange => DoReadClientKeyExchange(s, e)
      case ReadClientCertificateVerify => DoReadClientCertificateVerify(s, e)
      case ReadChangeCipherSpec => AskForCcs(s)
      case ProcessChangeCipherSpec => Pass(s, e, ReadNextProto)
      case ReadNextProto => DoReadNextProto(s, e)
      case ReadChannelId => DoReadChannelId(s, e)
      case ReadClientFinished => DoReadClientFinished(s, e)
      case SendServerFinished => DoSendServerFinished(s, e)
      case FinishServerHandshake => Goto(s, Done)
      case Done => Turn(s, false, [])
  }

  function Initial(params: Params, requireCert: bool, data: nat): Server
  {
    Server(StartAccept, Running, requireCert, data, params, false, false, false, false, [], [], 0, 0)
  }

  // ---------------------------------------------------------------- safety against any peer

  /** The order of the states on the way to Done; a resumption sends its Finished before it reads. */
  function Rank(st: State, resumed: bool): nat
  {
    match st
    case StartAccept => 20
    case ReadClientHello => 19
    case SelectCertificate => 18
    case SelectParameters => 17
    case SendServerHello => 16
    case SendServerCertificate => 15
    case SendServerKeyExchange => 14
    case SendServerHelloDone => 13
    case ReadClientCertificate => 12
    case VerifyClientCertificate => 11
    case ReadClientKeyExchange => 10
    case ReadClientCertificateVerify => 9
    case ReadChangeCipherSpec => 8
    case ProcessChangeCipherSpec => 7
    case ReadNextProto => 6
    case ReadChannelId => 5
    case ReadClientFinished => 4
    case SendServerFinished => if resumed then 9 else 3
    case FinishServerHandshake => 2
    case Done => 0
  }

  /** Before the ChangeCipherSpec is read or the flight flushed the state counts as one step further off. */
  function Measure(s: Server): nat
  {
    2 * Rank(s.state, s.params.resumed) + if s.Free() then 0 else 1
  }

  /** A turn fails, or leaves the state where it was and waits, or brings the machine nearer to its end. */
  ghost predicate Nearer(s: Server, t: Turn)
  {
    || t.next.wait.Failed?
    || Measure(t.next) < Measure(s)
    || (t.next.state == s.state && (t.next.wait.ReadMessage? || t.next.wait.ReadCcs? || t.next.wait.Retry?)
        && !t.took && t.out == [])
    || (t.next == s.(flight := t.next.flight) && t.next.wait.Flush? && !t.took && t.out + t.next.flight == s.flight)
  }

  /** Between the messages of one flight. */
  predicate Composing(st: State)
  {
    st.SendServerCertificate? || st.SendServerKeyExchange? || st.SendServerHelloDone? || st.SendServerFinished?
  }

  /** Where the machine is, whatever the peer sent. What was composed and is not out yet is either being flushed
      or still being added to. */
  ghost predicate Placed(s: Server)
  {
    && (s.flight != [] ==> s.wait.Flush? || Composing(s.state))
    && (Composing(s.state) ==> !s.wait.ReadMessage?) && (s.state.Done? ==> s.flight == [])
    && (s.wait.ReadCcs? ==> s.state.ProcessChangeCipherSpec?)
    && (s.params.resumed ==> OnResumedPath(s.state) && !s.peerKey)
    && s.peerFinished == (if PeerDone(s.state, s.params.resumed) then 1 else 0)
    && s.ownFinished == (if OwnDone(s.state, s.params.resumed) then 1 else 0)
    && (s.peerKey ==> s.chainVerified || s.state.VerifyClientCertificate?)
    && (s.peerKey ==> s.sigVerified || AwaitsSignature(s.state))
    && (s.MustHaveCertificate() ==> s.peerKey || BeforeCertificate(s.state))
  }

  predicate BeforeCertificate(st: State)
  {
    || st.StartAccept? || st.ReadClientHello? || st.SelectCertificate? || st.SelectParameters? || st.SendServerHello?
    || st.SendServerCertificate? || st.SendServerKeyExchange? || st.SendServerHelloDone? || st.ReadClientCertificate?
  }

  predicate OnResumedPath(st: State)
  {
    || st.StartAccept? || st.ReadClientHello? || st.SelectCertificate? || st.SelectParameters? || st.SendServerHello?
    || st.SendServerFinished? || st.ReadChangeCipherSpec? || st.ProcessChangeCipherSpec? || st.ReadNextProto?
    || st.ReadChannelId? || st.ReadClientFinished? || st.FinishServerHandshake? || st.Done?
  }

  predicate AwaitsSignature(st: State)
  {
    st.VerifyClientCertificate? || st.ReadClientKeyExchange? || st.ReadClientCertificateVerify?
  }

  predicate PeerDone(st: State, resumed: bool)
  {
    st.FinishServerHandshake? || st.Done? || (!resumed && st.SendServerFinished?)
  }

  predicate OwnDone(st: State, resumed: bool)
  {
    || st.FinishServerHandshake? || st.Done?
    || (resumed && (st.ReadChangeCipherSpec? || st.ProcessChangeCipherSpec? || st.ReadNextProto? || st.ReadChannelId?
                    || st.ReadClientFinished?))
  }

  /** How a turn adds to the transcript: a Finished only behind what it covers. */
  ghost predicate Appends(s: Server, t: Turn)
  {
    && s.hashed <= t.next.hashed
    && (t.next.peerFinished != s.peerFinished ==> t.next.hashed == s.hashed + [Mac(false, s.hashed)])
    && (t.next.ownFinished != s.ownFinished ==>
        && s.hashed <= Before(t.next.hashed)
        && t.next.hashed == Before(t.next.hashed) + [Mac(true, Before(t.next.hashed))])
  }

  ghost predicate Sound(s: Server, t: Turn)
  {
    Placed(t.next) && Nearer(s, t) && Appends(s, t)
  }

  lemma FailSound(s: Server)
    requires Placed(s) && s.Free()
    ensures Sound(s, Fail(s))
  {
  }

  lemma BlockSound(s: Server, w: Wait)
    requires Placed(s) && s.Free() && ((w == ReadMessage && !Composing(s.state)) || w == Retry)
    ensures Sound(s, Block(s, w))
  {
  }

  /** A step forward that leaves the flight alone. */
  ghost predicate Edge(s: Server, st: State)
  {
    Onward(s, st) && (Composing(s.state) ==> Composing(st))
  }

  /** A step forward on the path on which neither Finished is sent nor received. */
  ghost predicate Onward(s: Server, st: State)
  {
    var r := s.params.resumed;
    && Rank(st, r) < Rank(s.state, r) && s.Free()
    && PeerDone(st, r) == PeerDone(s.state, r) && OwnDone(st, r) == OwnDone(s.state, r)
    && (r ==> OnResumedPath(st))
    && (s.peerKey && s.state.VerifyClientCertificate? ==> s.chainVerified)
    && (s.peerKey && AwaitsSignature(s.state) && !AwaitsSignature(st) ==> s.sigVerified)
    && (s.MustHaveCertificate() && BeforeCertificate(s.state) && !BeforeCertificate(st) ==> s.peerKey)
  }

  lemma GotoSound(s: Server, st: State)
    requires Placed(s) && Edge(s, st)
    ensures Sound(s, Goto(s, st))
  {
  }

  lemma TakeSound(s: Server, st: State, m: Msg)
    requires Placed(s) && Edge(s, st)
    ensures Sound(s, Take(s, st, m))
  {
  }

  lemma SendSound(s: Server, st: State, w: Wait, ms: seq<Msg>)
    requires Placed(s) && Onward(s, st) && !st.Done? && ((w == Running && Composing(st)) || (w == Flush && !Composing(st)))
    ensures Sound(s, Send(s, st, w, ms))
  {
  }

  /** The flags that only say what was seen do not count. */
  lemma FlagsSound(s: Server, f: Server, t: Turn)
    requires Sound(f, t) && s.Free() && f == s.(hasParams := f.hasParams, peerKey := f.peerKey, chainVerified := f.chainVerified,
                                    sigVerified := f.sigVerified)
    ensures Sound(s, t)
  {
  }

  lemma CertificateSound(s: Server, m: Msg)
    requires Placed(s) && s.state.ReadClientCertificate? && s.Free() && m.Chain? && !(m.empty && s.requireCert)
    ensures Sound(s, Take(s.(peerKey := !m.empty), VerifyClientCertificate, m))
  {
  }

  lemma FinishedSound(s: Server)
    requires Placed(s) && s.state.ReadClientFinished? && s.Free()
    ensures Sound(s, Take(s.(peerFinished := s.peerFinished + 1),
                          if s.params.resumed then FinishServerHandshake else SendServerFinished, Mac(false, s.hashed)))
  {
    if s.params.resumed {
    } else {
    }
  }

  lemma SentFinishedSound(s: Server)
    requires Placed(s) && s.state.SendServerFinished? && s.Free()
    ensures Sound(s, SentFinished(s))
  {
    hide Opt;
    hide Handshakes;
    if s.params.resumed {
    } else {
    }
  }

  lemma FlagPlaced(s: Server, hasParams: bool)
    requires Placed(s)
    ensures Placed(s.(hasParams := hasParams))
  {
  }

  lemma NoCertificateYet(s: Server)
    requires Placed(s) && s.state.ReadClientCertificate?
    ensures s.peerKey ==> s.chainVerified && s.sigVerified
  {
  }

  lemma ChainSound(s: Server)
    requires Placed(s) && s.state.VerifyClientCertificate? && s.Free()
    ensures Sound(s, Goto(s.(chainVerified := true), ReadClientKeyExchange))
  {
  }

  lemma SignatureSound(s: Server, m: Msg)
    requires Placed(s) && s.state.ReadClientCertificateVerify? && s.Free()
    ensures Sound(s, Take(s.(sigVerified := true), ReadChangeCipherSpec, m))
  {
  }

  lemma ReadingHello(s: Server, e: Env)
    requires Placed(s) && s.Free() && s.state.ReadClientHello?
    ensures Sound(s, DoReadClientHello(s, e))
  {
    hide Sound;
    hide Placed;
    hide Fail;
    hide Block;
    hide Goto;
    hide Take;
    hide Send;
    var p := PeekType(e, ClientHello);
    if p.NoMessage? {
      BlockSound(s, ReadMessage);
    } else if p.Wrong? {
      FailSound(s);
    } else if !e.ready {
      BlockSound(s, Retry);
    } else if e.ok {
      GotoSound(s, SelectCertificate);
    } else {
      FailSound(s);
    }
  }

  lemma SelectingCertificate(s: Server, e: Env)
    requires Placed(s) && s.Free() && s.state.SelectCertificate?
    ensures Sound(s, DoSelectCertificate(s, e))
  {
    hide Sound;
    hide Placed;
    hide Fail;
    hide Block;
    hide Goto;
    hide Take;
    hide Send;
    var p := PeekAny(e);
    if p.NoMessage? {
      BlockSound(s, ReadMessage);
    } else if p.Wrong? {
      FailSound(s);
    } else if !e.ready {
      BlockSound(s, Retry);
    } else if e.ok {
      GotoSound(s, SelectParameters);
    } else {
      FailSound(s);
    }
  }

  lemma SelectingParameters(s: Server, e: Env)
    requires Placed(s) && s.Free() && s.state.SelectParameters?
    ensures Sound(s, DoSelectParameters(s, e))
  {
    hide Sound;
    hide Placed;
    hide Fail;
    hide Block;
    hide Goto;
    hide Take;
    hide Send;
    var p := PeekAny(e);
    if p.NoMessage? {
      BlockSound(s, ReadMessage);
    } else if p.Wrong? {
      FailSound(s);
    } else if !e.ready {
      BlockSound(s, Retry);
    } else if e.ok {
      TakeSound(s, SendServerHello, p.m);
    } else {
      FailSound(s);
    }
  }

  lemma SendingHello(s: Server, e: Env)
    requires Placed(s) && s.Free() && s.state.SendServerHello?
    ensures Sound(s, DoSendServerHello(s, e))
  {
    hide Sound;
    hide Placed;
    hide Fail;
    hide Block;
    hide Goto;
    hide Take;
    hide Send;
    if !e.ok {
      FailSound(s);
    } else {
      SendSound(s, if s.params.resumed then SendServerFinished else SendServerCertificate, Running,
                [Hello(s.params, s.data)]);
    }
  }

  lemma SendingCertificate(s: Server, e: Env)
    requires Placed(s) && s.Free() && s.state.SendServerCertificate? && !s.params.resumed
    ensures Sound(s, DoSendServerCertificate(s, e))
  {
    hide Sound;
    hide Placed;
    hide Fail;
    hide Block;
    hide Goto;
    hide Take;
    hide Send;
    if !e.ok {
      FailSound(s);
    } else {
      var f := s.(hasParams := s.params.Ske());
      FlagPlaced(s, s.params.Ske());
      SendSound(f, SendServerKeyExchange, Running, CertificateFlight(s.params, s.data));
      FlagsSound(s, f, Send(f, SendServerKeyExchange, Running, CertificateFlight(s.params, s.data)));
    }
  }

  lemma SendingKeyExchange(s: Server, e: Env)
    requires Placed(s) && s.Free() && s.state.SendServerKeyExchange? && !s.params.resumed
    ensures Sound(s, DoSendServerKeyExchange(s, e))
  {
    hide Sound;
    hide Placed;
    hide Fail;
    hide Block;
    hide Goto;
    hide Take;
    hide Send;
    if !s.hasParams {
      GotoSound(s, SendServerHelloDone);
    } else if s.params.certAuth && !e.ready {
      BlockSound(s, Retry);
    } else if !e.ok {
      FailSound(s);
    } else {
      var f := s.(hasParams := false);
      FlagPlaced(s, false);
      SendSound(f, SendServerHelloDone, Running, [Plain(ServerKeyExchange, s.data)]);
      FlagsSound(s, f, Send(f, SendServerHelloDone, Running, [Plain(ServerKeyExchange, s.data)]));
    }
  }

  lemma SendingHelloDone(s: Server, e: Env)
    requires Placed(s) && s.Free() && s.state.SendServerHelloDone? && !s.params.resumed
    ensures Sound(s, DoSendServerHelloDone(s, e))
  {
    hide Sound;
    hide Placed;
    hide Fail;
    hide Block;
    hide Goto;
    hide Take;
    hide Send;
    if e.ok {
      SendSound(s, ReadClientCertificate, Flush, HelloDoneFlight(s.params, s.data));
    } else {
      FailSound(s);
    }
  }

  lemma ReadingCertificate(s: Server, e: Env)
    requires Placed(s) && s.Free() && s.state.ReadClientCertificate? && !s.params.resumed
    ensures Sound(s, DoReadClientCertificate(s, e))
  {
    hide Sound;
    hide Placed;
    hide Fail;
    hide Block;
    hide Goto;
    hide Take;
    hide Send;
    var p := PeekType(e, Certificate);
    if !s.params.certRequest {
      NoCertificateYet(s);
      GotoSound(s, VerifyClientCertificate);
    } else if p.NoMessage? {
      BlockSound(s, ReadMessage);
    } else if p.Wrong? || !e.ok || !p.m.Chain? || (p.m.empty && s.requireCert) {
      FailSound(s);
    } else {
      CertificateSound(s, p.m);
    }
  }

  lemma VerifyingCertificate(s: Server, e: Env)
    requires Placed(s) && s.Free() && s.state.VerifyClientCertificate? && !s.params.resumed
    ensures Sound(s, DoVerifyClientCertificate(s, e))
  {
    hide Sound;
    hide Placed;
    hide Fail;
    hide Block;
    hide Goto;
    hide Take;
    hide Send;
    if !s.peerKey {
      GotoSound(s, ReadClientKeyExchange);
    } else if !e.ready {
      BlockSound(s, Retry);
    } else if !e.ok {
      FailSound(s);
    } else {
      ChainSound(s);
    }
  }

  lemma ReadingKeyExchange(s: Server, e: Env)
    requires Placed(s) && s.Free() && s.state.ReadClientKeyExchange? && !s.params.resumed
    ensures Sound(s, DoReadClientKeyExchange(s, e))
  {
    hide Sound;
    hide Placed;
    hide Fail;
    hide Block;
    hide Goto;
    hide Take;
    hide Send;
    var p := PeekType(e, ClientKeyExchange);
    if p.NoMessage? {
      BlockSound(s, ReadMessage);
    } else if p.Wrong? {
      FailSound(s);
    } else if !e.ready {
      BlockSound(s, Retry);
    } else if e.ok {
      TakeSound(s, ReadClientCertificateVerify, p.m);
    } else {
      FailSound(s);
    }
  }

  lemma ReadingVerify(s: Server, e: Env)
    requires Placed(s) && s.Free() && s.state.ReadClientCertificateVerify? && !s.params.resumed
    ensures Sound(s, DoReadClientCertificateVerify(s, e))
  {
    hide Sound;
    hide Placed;
    hide Fail;
    hide Block;
    hide Goto;
    hide Take;
    hide Send;
    var p := PeekType(e, CertificateVerify);
    if !s.peerKey {
      GotoSound(s, ReadChangeCipherSpec);
    } else if p.NoMessage? {
      BlockSound(s, ReadMessage);
    } else if p.Wrong? || !e.ok || p.m != Signature(s.hashed) {
      FailSound(s);
    } else {
      SignatureSound(s, p.m);
    }
  }

  lemma Asking(s: Server)
    requires Placed(s) && s.Free() && s.state.ReadChangeCipherSpec?
    ensures Sound(s, AskForCcs(s))
  {
    if s.params.resumed {
    } else {
    }
  }

  lemma ReadingPlain(s: Server, e: Env, ty: MsgType, st: State)
    requires Placed(s) && Edge(s, st) && !Composing(s.state)
    ensures Sound(s, ReadPlain(s, e, ty, st))
  {
    hide Sound;
    hide Placed;
    hide Fail;
    hide Block;
    hide Goto;
    hide Take;
    hide Send;
    var p := PeekType(e, ty);
    if p.NoMessage? {
      BlockSound(s, ReadMessage);
    } else if p.Wrong? {
      FailSound(s);
    } else if e.ok {
      TakeSound(s, st, p.m);
    } else {
      FailSound(s);
    }
  }

  lemma ReadingProto(s: Server, e: Env)
    requires Placed(s) && s.Free() && s.state.ReadNextProto?
    ensures Sound(s, DoReadNextProto(s, e))
  {
    hide Sound;
    hide Placed;
    hide Fail;
    hide Block;
    hide Goto;
    hide Take;
    hide Send;
    if s.params.npn {
      ReadingPlain(s, e, NextProto, ReadChannelId);
    } else {
      GotoSound(s, ReadChannelId);
    }
  }

  lemma ReadingId(s: Server, e: Env)
    requires Placed(s) && s.Free() && s.state.ReadChannelId?
    ensures Sound(s, DoReadChannelId(s, e))
  {
    hide Sound;
    hide Placed;
    hide Fail;
    hide Block;
    hide Goto;
    hide Take;
    hide Send;
    if s.params.channelId {
      ReadingPlain(s, e, ChannelId, ReadClientFinished);
    } else {
      GotoSound(s, ReadClientFinished);
    }
  }

  lemma ReadingFinished(s: Server, e: Env)
    requires Placed(s) && s.Free() && s.state.ReadClientFinished?
    ensures Sound(s, DoReadClientFinished(s, e))
  {
    hide Sound;
    hide Placed;
    hide Fail;
    hide Block;
    hide Goto;
    hide Take;
    hide Send;
    var p := PeekType(e, Finished);
    if p.NoMessage? {
      BlockSound(s, ReadMessage);
    } else if p.Wrong? {
      FailSound(s);
    } else if p.m != Mac(false, s.hashed) || !e.ok {
      FailSound(s);
    } else {
      FinishedSound(s);
    }
  }

  lemma SendingFinished(s: Server, e: Env)
    requires Placed(s) && s.Free() && s.state.SendServerFinished?
    ensures Sound(s, DoSendServerFinished(s, e))
  {
    hide Sound;
    hide Placed;
    hide Fail;
    hide Block;
    hide Goto;
    hide Take;
    hide Send;
    if e.ok {
      SentFinishedSound(s);
    } else {
      FailSound(s);
    }
  }

  lemma Passing(s: Server, e: Env, st: State)
    requires Placed(s) && Edge(s, st)
    ensures Sound(s, Pass(s, e, st))
  {
    hide Sound;
    hide Placed;
    hide Fail;
    hide Block;
    hide Goto;
    hide Take;
    hide Send;
    if e.ok {
      GotoSound(s, st);
    } else {
      FailSound(s);
    }
  }

  lemma Driving(s: Server, e: Env)
    requires Placed(s) && s.wait.ReadCcs?
    ensures Sound(s, DriveCcs(s, e))
  {
    hide OnResumedPath;
    hide PeerDone;
    hide OwnDone;
    if e.head.None? {
    } else if e.head.value.Ccs? {
    } else {
    }
  }

  lemma Flushing(s: Server, e: Env)
    requires Placed(s) && s.wait.Flush? && !s.state.Done?
    ensures Sound(s, DriveFlush(s, e))
  {
    var n := Flushed(s.flight, e);
    assert s.flight[..n] + s.flight[n..] == s.flight;
    if FlushDone(s.flight, e) {
      assert s.flight[n..] == [];
    }
  }

  /** Termination: the measure depends on resumption, because the resumed path goes back in the order of
      the states. */
  lemma StepSound(s: Server, e: Env)
    requires !s.wait.Failed? && !s.state.Done? && Placed(s)
    ensures Sound(s, Step(s, e))
  {
    hide DoReadClientHello;
    hide DoSelectCertificate;
    hide DoSelectParameters;
    hide DoSendServerHello;
    hide DoSendServerCertificate;
    hide DoSendServerKeyExchange;
    hide DoSendServerHelloDone;
    hide DoReadClientCertificate;
    hide DoVerifyClientCertificate;
    hide DoReadClientKeyExchange;
    hide DoReadClientCertificateVerify;
    hide DoReadNextProto;
    hide DoReadChannelId;
    hide DoReadClientFinished;
    hide DoSendServerFinished;
    hide AskForCcs;
    hide Pass;
    hide DriveCcs;
    hide DriveFlush;
    hide Sound;
    if s.wait.ReadCcs? {
      Driving(s, e);
    } else if s.wait.Flush? {
      Flushing(s, e);
    } else {
      match s.state
      case StartAccept => GotoSound(s, ReadClientHello);
      case ReadClientHello => ReadingHello(s, e);
      case SelectCertificate => SelectingCertificate(s, e);
      case SelectParameters => SelectingParameters(s, e);
      case SendServerHello => SendingHello(s, e);
      case SendServerCertificate => SendingCertificate(s, e);
      case SendServerKeyExchange => SendingKeyExchange(s, e);
      case SendServerHelloDone => SendingHelloDone(s, e);
      case ReadClientCertificate => ReadingCertificate(s, e);
      case VerifyClientCertificate => VerifyingCertificate(s, e);
      case ReadClientKeyExchange => ReadingKeyExchange(s, e);
      case ReadClientCertificateVerify => ReadingVerify(s, e);
      case ReadChangeCipherSpec => Asking(s);
      case ProcessChangeCipherSpec => Passing(s, e, ReadNextProto);
      case ReadNextProto => ReadingProto(s, e);
      case ReadChannelId => ReadingId(s, e);
      case ReadClientFinished => ReadingFinished(s, e);
      case SendServerFinished => SendingFinished(s, e);
      case FinishServerHandshake => GotoSound(s, Done);
    }
  }

  /** Every Finished counted stands in the transcript, over the transcript as it was. */
  ghost predicate Backed(s: Server)
  {
    && (s.peerFinished > 0 ==> HasMac(s.hashed, false))
    && (s.ownFinished > 0 ==> HasMac(s.hashed, true))
  }

  lemma StepBacked(s: Server, t: Turn)
    requires Backed(s) && Appends(s, t)
    ensures Backed(t.next)
  {
    hide HasMac;
    hide Before;
    var more := t.next.hashed[|s.hashed|..];
    assert t.next.hashed == s.hashed + more;
    if s.peerFinished > 0 {
      MacStays(s.hashed, more, false);
    }
    if s.ownFinished > 0 {
      MacStays(s.hashed, more, true);
    }
    MacAdded(s.hashed, false);
    MacAdded(Before(t.next.hashed), true);
  }

  lemma Stopped(s: Server, e: Env)
    requires s.wait.Failed? || s.state.Done?
    ensures Step(s, e) == Turn(s, false, [])
  {
  }

  /** A run against any peer: the machine is shown one environment after another. */
  function Run(s: Server, es: seq<Env>): Server
    decreases |es|
  {
    if es == [] then s else Run(Step(s, es[0]).next, es[1..])
  }

  /** Whatever the peer sends, a server that reaches Done has seen exactly one Finished from the client and sent
      one itself, each over the transcript as it then stood; and if the client showed a certificate, or had to, then it
      did and its chain and its CertificateVerify have been verified. And whenever the server waits for the client, or is done, all
      it composed is out. */
  lemma {:induction false} RunIsSafe(s: Server, es: seq<Env>)
    requires Placed(s) && Backed(s)
    ensures var d := Run(s, es);
            && Placed(d) && Backed(d)
            && (d.state.Done? ==>
                && d.peerFinished == 1 && d.ownFinished == 1 && HasMac(d.hashed, true) && HasMac(d.hashed, false)
                && (d.peerKey || d.MustHaveCertificate() ==> d.peerKey && d.chainVerified && d.sigVerified))
            && (d.wait.ReadMessage? || d.wait.ReadCcs? || d.state.Done? ==> d.flight == [])
    decreases |es|
  {
    hide Step;
    if es != [] {
      if s.wait.Failed? || s.state.Done? {
        Stopped(s, es[0]);
      } else {
        StepSound(s, es[0]);
        StepBacked(s, Step(s, es[0]));
      }
      RunIsSafe(Step(s, es[0]).next, es[1..]);
    }
  }

  lemma {:induction false} RunSnoc(s: Server, es: seq<Env>, e: Env)
    ensures Run(s, es + [e]) == Step(Run(s, es), e).next
    decreases |es|
  {
    hide Step;
    if es == [] {
      assert [e][1..] == [];
    } else {
      assert (es + [e])[1..] == es[1..] + [e];
      RunSnoc(Step(s, es[0]).next, es[1..], e);
    }
  }

  // ---------------------------------------------------------------- facing a peer

  /** A server, the items it took from its peer, those it has still to take, and what the transport took of its own. */
  datatype Course = Course(s: Server, read: seq<Item>, inbox: seq<Item>, out: seq<Item>)

  function Next(k: Course, a: Answer): Course
  {
    var t := Step(k.s, Facing(k.inbox, a));
    if t.took && a.here && k.inbox != [] then Course(t.next, k.read + [k.inbox[0]], k.inbox[1..], k.out + t.out)
    else Course(t.next, k.read, k.inbox, k.out + t.out)
  }

  /** Any peer: the items it sends, in order, and how the turns of the server fall among them. */
  function Feed(k: Course, answers: seq<Answer>): Course
    decreases |answers|
  {
    if answers == [] then k else Feed(Next(k, answers[0]), answers[1..])
  }

  /** One turn when `n` items of all that is sent were taken so far. */
  lemma NextAt(s: Server, all: seq<Item>, n: nat, out: seq<Item>, a: Answer)
    requires n <= |all|
    ensures var t := Step(s, Facing(all[n..], a));
            var m := if t.took && a.here && n < |all| then n + 1 else n;
            Next(Course(s, all[..n], all[n..], out), a) == Course(t.next, all[..m], all[m..], out + t.out)
  {
    hide Step;
    if n < |all| {
      assert all[..n] + [all[n]] == all[..n + 1] && all[n..][1..] == all[n + 1..];
    }
  }

  lemma {:induction false} FeedSnoc(k: Course, answers: seq<Answer>, a: Answer)
    ensures Feed(k, answers + [a]) == Next(Feed(k, answers), a)
    decreases |answers|
  {
    hide Next;
    if answers == [] {
      assert [a][1..] == [];
    } else {
      assert (answers + [a])[1..] == answers[1..] + [a];
      FeedSnoc(Next(k, answers[0]), answers[1..], a);
    }
  }
}
