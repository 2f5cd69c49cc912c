/** The client's handshake machine for TLS 1.0 to 1.2 (handshake_client.cc, handshake.cc). */
module TlsClient {
  import opened Octets
  import opened TlsMessageTypes

  datatype State =
    | StartConnect | EnterEarlyData | ReadServerHello | ReadServerCertificate | ReadCertificateStatus
    | VerifyServerCertificate | ReadServerKeyExchange | ReadCertificateRequest | ReadServerHelloDone
    | SendClientCertificate | SendClientKeyExchange | SendClientCertificateVerify | SendClientFinished
    | FinishFlight | ReadSessionTicket | ProcessChangeCipherSpec | ReadServerFinished | FinishClientHandshake | Done

  /** The part of SSL_HANDSHAKE and SSL that decides the course of the handshake. */
  datatype Client = Client(
    state: State, wait: Wait,
    offered: bool,        // a session was offered for resumption
    hasCert: bool,        // ssl_has_certificate
    falseStart: bool,     // false start is enabled and allowed
    data: nat,            // stands for the contents of the client's messages
    params: Params,       // known from the ServerHello on
    certRequest: bool,
    verified: bool,       // the server's certificate was verified
    hashed: seq<Msg>,     // the transcript
    flight: seq<Item>,    // pending_flight: composed and not yet taken by the transport
    peerFinished: nat,    // matching Finished messages received
    ownFinished: nat)     // Finished messages sent
  {
    /** The driver has nothing to resolve but what a callback holds up. */
    predicate Free() { !wait.ReadCcs? && !wait.Flush? }
  }

  /** One turn: the machine afterwards, whether it took the item at the head of the channel, and what the
      transport took of its flight. */
  datatype Turn = Turn(next: Client, took: bool, out: seq<Item>)

  function Fail(c: Client): Turn
  {
    Turn(c.(wait := Failed), false, [])
  }

  function Block(c: Client, w: Wait): Turn
  {
    Turn(c.(wait := w), false, [])
  }

  function Goto(c: Client, s: State): Turn
  {
    Turn(c.(state := s, wait := Running), false, [])
  }

  /** The message at the head is hashed and taken. */
  function Take(c: Client, s: State, m: Msg): Turn
  {
    Turn(c.(state := s, wait := Running, hashed := c.hashed + [m]), true, [])
  }

  /** Messages are added to the flight and hashed. */
  function Send(c: Client, s: State, ms: seq<Msg>): Turn
  {
    Turn(c.(state := s, wait := Running, hashed := c.hashed + ms, flight := c.flight + Handshakes(ms)), false, [])
  }

  /** A message of one type is read when every check on it passes. */
  function ReadPlain(c: Client, e: Env, ty: MsgType, s: State): Turn
  {
    match PeekType(e, ty)
    case NoMessage => Block(c, ReadMessage)
    case Wrong => Fail(c)
    case Got(m) => if e.ok then Take(c, s, m) else Fail(c)
  }

  function DoReadServerHello(c: Client, e: Env): Turn
  {
    match PeekType(e, ServerHello)
    case NoMessage => Block(c, ReadMessage)
    case Wrong => Fail(c)
    case Got(m) =>
      if !e.ok || !m.Hello? then Fail(c)
      else
        var p := m.params.(resumed := m.params.resumed && c.offered);
        Take(c.(params := p), if p.resumed then ReadSessionTicket else ReadServerCertificate, m)
  }

  function DoReadServerCertificate(c: Client, e: Env): Turn
  {
    if !c.params.certAuth then Goto(c, ReadCertificateStatus)
    else
      match PeekType(e, Certificate)
      case NoMessage => Block(c, ReadMessage)
      case Wrong => Fail(c)
      case Got(m) =>
        if !e.ok || !m.Chain? || m.empty then Fail(c) else Take(c, ReadCertificateStatus, m)
  }

  function DoReadCertificateStatus(c: Client, e: Env): Turn
  {
    if !c.params.status then Goto(c, VerifyServerCertificate)
    else
      match PeekAny(e)
      case NoMessage => Block(c, ReadMessage)
      case Wrong => Fail(c)
      case Got(m) =>
        if TypeOf(m) != CertificateStatus then Goto(c, VerifyServerCertificate)
        else if e.ok then Take(c, VerifyServerCertificate, m)
        else Fail(c)
  }

  function DoVerifyServerCertificate(c: Client, e: Env): Turn
  {
    if !c.params.certAuth then Goto(c, ReadServerKeyExchange)
    else if !e.ready then Block(c, Retry)
    else if !e.ok then Fail(c)
    else Goto(c.(verified := true), ReadServerKeyExchange)
  }

  function DoReadServerKeyExchange(c: Client, e: Env): Turn
  {
    match PeekAny(e)
    case NoMessage => Block(c, ReadMessage)
    case Wrong => Fail(c)
    case Got(m) =>
      if TypeOf(m) != ServerKeyExchange then
        if c.params.skeRequired then Fail(c) else Goto(c, ReadCertificateRequest)
      else if e.ok then Take(c, ReadCertificateRequest, m)
      else Fail(c)
  }

  function DoReadCertificateRequest(c: Client, e: Env): Turn
  {
    if !c.params.certAuth then Goto(c, ReadServerHelloDone)
    else
      match PeekAny(e)
      case NoMessage => Block(c, ReadMessage)
      case Wrong => Fail(c)
      case Got(m) =>
        if TypeOf(m) == ServerHelloDone then Goto(c, ReadServerHelloDone)
        else if TypeOf(m) != CertificateRequest || !e.ok then Fail(c)
        else Take(c.(certRequest := true), ReadServerHelloDone, m)
  }

  function DoSendClientCertificate(c: Client, e: Env): Turn
  {
    if !c.certRequest then Goto(c, SendClientKeyExchange)
    else if !e.ready then Block(c, Retry)
    else if !e.ok then Fail(c)
    else Send(c, SendClientKeyExchange, [Chain(!c.hasCert, c.data)])
  }

  function DoSendClientCertificateVerify(c: Client, e: Env): Turn
  {
    if !c.certRequest || !c.hasCert then Goto(c, SendClientFinished)
    else if !e.ready then Block(c, Retry)
    else if !e.ok then Fail(c)
    else Send(c, SendClientFinished, [Signature(c.hashed)])
  }

  /** NextProto and ChannelID, which come between ChangeCipherSpec and Finished. */
  function Extras(p: Params, data: nat): seq<Msg>
  {
    Opt(p.npn, Plain(NextProto, data)) + Opt(p.channelId, Plain(ChannelId, data))
  }

  /** The client's Finished goes behind its last messages, and then the flight has to be flushed. */
  function SentFinished(c: Client): Turn
  {
    var extras := Extras(c.params, c.data);
    var fin := Mac(false, c.hashed + extras);
    Turn(c.(state := FinishFlight, wait := Flush, hashed := c.hashed + extras + [fin],
            flight := c.flight + ([Ccs] + Handshakes(extras) + [Handshake(fin)]), ownFinished := c.ownFinished + 1),
         false, [])
  }

  function DoSendClientFinished(c: Client, e: Env): Turn
  {
    if c.params.channelId && !e.ready then Block(c, Retry)
    else if !e.ok then Fail(c)
    else SentFinished(c)
  }

  function DoFinishFlight(c: Client): Turn
  {
    if c.params.resumed then Goto(c, FinishClientHandshake)
    else Turn(c.(state := ReadSessionTicket, wait := if c.falseStart then EarlyReturn else Running), false, [])
  }

  /** The ticket, if there is one, is taken; then the driver has to find a ChangeCipherSpec. */
  function AskForCcs(c: Client, ticket: Option<Msg>): Turn
  {
    var hashed := if ticket.Some? then c.hashed + [ticket.value] else c.hashed;
    Turn(c.(state := ProcessChangeCipherSpec, wait := ReadCcs, hashed := hashed), ticket.Some?, [])
  }

  function DoReadSessionTicket(c: Client, e: Env): Turn
  {
    if !c.params.ticket then AskForCcs(c, None)
    else
      match PeekType(e, NewSessionTicket)
      case NoMessage => Block(c, ReadMessage)
      case Wrong => Fail(c)
      case Got(m) =>
        if !e.ok then Fail(c)
        else AskForCcs(c, Some(m))
  }

  /** ssl_get_finished: the MAC must be the server's over the transcript so far. */
  function DoReadServerFinished(c: Client, e: Env): Turn
  {
    match PeekType(e, Finished)
    case NoMessage => Block(c, ReadMessage)
    case Wrong => Fail(c)
    case Got(m) =>
      if m != Mac(true, c.hashed) then Fail(c)
      else
        Take(c.(peerFinished := c.peerFinished + 1),
             if c.params.resumed then SendClientFinished else FinishClientHandshake, m)
  }

  function DoStartConnect(c: Client, e: Env): Turn
  {
    if !e.ok then Fail(c)
    else
      var hello := Plain(ClientHello, c.data);
      Turn(c.(state := EnterEarlyData, wait := Flush, hashed := c.hashed + [hello], flight := c.flight + [Handshake(hello)]),
           false, [])
  }

  function DoSendClientKeyExchange(c: Client, e: Env): Turn
  {
    if !e.ok then Fail(c) else Send(c, SendClientCertificateVerify, [Plain(ClientKeyExchange, c.data)])
  }

  /** A state that only does cryptography or bookkeeping. */
  function Pass(c: Client, e: Env, s: State): Turn
  {
    if e.ok then Goto(c, s) else Fail(c)
  }

  /** The driver reading the ChangeCipherSpec a state asked for. */
  function DriveCcs(c: Client, e: Env): Turn
  {
    match e.head
    case None => Turn(c, false, [])
    case Some(Ccs) => Turn(c.(wait := Running), true, [])
    case Some(_) => Fail(c)
  }

  /** The driver flushing the flight a state asked it to; until that succeeds it returns without doing more. */
  function DriveFlush(c: Client, e: Env): Turn
  {
    var n := Flushed(c.flight, e);
    Turn(c.(flight := c.flight[n..], wait := if FlushDone(c.flight, e) then Running else Flush), false, c.flight[..n])
  }

  /** One turn of ssl_run_handshake: the driver resolves what was waited for, then ssl_client_handshake runs
      one state. */
  function Step(c: Client, e: Env): Turn
  {
    if c.wait.Failed? || c.state.Done? then Turn(c, false, [])
    else if c.wait.ReadCcs? then DriveCcs(c, e)
    else if c.wait.Flush? then DriveFlush(c, e)
    else
      match c.state
      case StartConnect => DoStartConnect(c, e)
      case EnterEarlyData => Goto(c, ReadServerHello)
      case ReadServerHello => DoReadServerHello(c, e)
      case ReadServerCertificate => DoReadServerCertificate(c, e)
      case ReadCertificateStatus => DoReadCertificateStatus(c, e)
      case VerifyServerCertificate => DoVerifyServerCertificate(c, e)
      case ReadServerKeyExchange => DoReadServerKeyExchange(c, e)
      case ReadCertificateRequest => DoReadCertificateRequest(c, e)
      case ReadServerHelloDone => ReadPlain(c, e, ServerHelloDone, SendClientCertificate)
      case SendClientCertificate => DoSendClientCertificate(c, e)
      case SendClientKeyExchange => DoSendClientKeyExchange(c, e)
      case SendClientCertificateVerify => DoSendClientCertificateVerify(c, e)
      case SendClientFinished => DoSendClientFinished(c, e)
      case FinishFlight => DoFinishFlight(c)
      case ReadSessionTicket => DoReadSessionTicket(c, e)
      case ProcessChangeCipherSpec => Pass(c, e, ReadServerFinished)
      case ReadServerFinished => DoReadServerFinished(c, e)
      case FinishClientHandshake => Pass(c, e, Done)
      case Done => Turn(c, false, [])
  }

  function Initial(offered: bool, hasCert: bool, falseStart: bool, data: nat): Client
  {
    Client(StartConnect, Running, offered, hasCert, falseStart, data,
           Params(false, false, false, false, false, false, false, false, false), false, false, [], [], 0, 0)
  }

  // ---------------------------------------------------------------- safety against any peer

  /** The order of the states on the way to Done; a resumption goes from the ServerHello to the ticket and
      comes back to SendClientFinished at the end. */
  function Rank(s: State, resumed: bool): nat
  {
    match s
    case StartConnect => 20
    case EnterEarlyData => 19
    case ReadServerHello => 18
    case ReadServerCertificate => 17
    case ReadCertificateStatus => 16
    case VerifyServerCertificate => 15
    case ReadServerKeyExchange => 14
    case ReadCertificateRequest => 13
    case ReadServerHelloDone => 12
    case SendClientCertificate => 11
    case SendClientKeyExchange => 10
    case SendClientCertificateVerify => 9
    case SendClientFinished => if resumed then 3 else 8
    case FinishFlight => if resumed then 2 else 7
    case ReadSessionTicket => 6
    case ProcessChangeCipherSpec => 5
    case ReadServerFinished => 4
    case FinishClientHandshake => 1
    case Done => 0
  }

  /** Before the ChangeCipherSpec is read or the flight flushed the state counts as one step further off. */
  function Measure(c: Client): nat
  {
    2 * Rank(c.state, c.params.resumed) + if c.Free() then 0 else 1
  }

  /** A turn fails, or leaves the state where it was and waits, or brings the machine nearer to its end. */
  ghost predicate Nearer(c: Client, t: Turn)
  {
    || t.next.wait.Failed?
    || Measure(t.next) < Measure(c)
    || (t.next.state == c.state && (t.next.wait.ReadMessage? || t.next.wait.ReadCcs? || t.next.wait.Retry?)
        && !t.took && t.out == [])
    || (t.next == c.(flight := t.next.flight) && t.next.wait.Flush? && !t.took && t.out + t.next.flight == c.flight)
  }

  /** Between the messages of one flight. */
  predicate Composing(s: State)
  {
    s.SendClientKeyExchange? || s.SendClientCertificateVerify? || s.SendClientFinished?
  }

  /** Where the machine is, whatever the peer sent. What was composed and is not out yet is either being flushed
      or still being added to. */
  ghost predicate Placed(c: Client)
  {
    && (c.flight != [] ==> c.wait.Flush? || Composing(c.state))
    && (Composing(c.state) ==> !c.wait.ReadMessage?) && (c.state.Done? ==> c.flight == [])
    && (c.wait.ReadCcs? ==> c.state.ProcessChangeCipherSpec?)
    && (c.params.resumed ==> c.offered && OnResumedPath(c.state))
    && c.peerFinished == (if PeerDone(c.state, c.params.resumed) then 1 else 0)
    && c.ownFinished == (if OwnDone(c.state, c.params.resumed) then 1 else 0)
    && (c.params.certAuth && !c.params.resumed ==> c.verified || BeforeVerify(c.state))
    && (c.wait.EarlyReturn? ==> c.falseStart && !c.params.resumed && c.state.ReadSessionTicket?)
  }

  predicate PeerDone(s: State, resumed: bool)
  {
    s.FinishClientHandshake? || s.Done? || (resumed && (s.SendClientFinished? || s.FinishFlight?))
  }

  predicate OwnDone(s: State, resumed: bool)
  {
    || s.FinishFlight? || s.FinishClientHandshake? || s.Done?
    || (!resumed && (s.ReadSessionTicket? || s.ProcessChangeCipherSpec? || s.ReadServerFinished?))
  }

  predicate BeforeVerify(s: State)
  {
    || s.StartConnect? || s.EnterEarlyData? || s.ReadServerHello? || s.ReadServerCertificate?
    || s.ReadCertificateStatus? || s.VerifyServerCertificate?
  }

  predicate OnResumedPath(s: State)
  {
    || s.ReadSessionTicket? || s.ProcessChangeCipherSpec? || s.ReadServerFinished? || s.SendClientFinished?
    || s.FinishFlight? || s.FinishClientHandshake? || s.Done?
  }

  /** How a turn adds to the transcript: a Finished only behind what it covers. */
  ghost predicate Appends(c: Client, t: Turn)
  {
    && c.hashed <= t.next.hashed
    && (t.next.peerFinished != c.peerFinished ==> t.next.hashed == c.hashed + [Mac(true, c.hashed)])
    && (t.next.ownFinished != c.ownFinished ==>
        && c.hashed <= Before(t.next.hashed)
        && t.next.hashed == Before(t.next.hashed) + [Mac(false, Before(t.next.hashed))])
  }

  ghost predicate Sound(c: Client, t: Turn)
  {
    Placed(t.next) && Nearer(c, t) && Appends(c, t)
  }

  lemma FailSound(c: Client)
    requires Placed(c) && c.Free()
    ensures Sound(c, Fail(c))
  {
  }

  lemma BlockSound(c: Client, w: Wait)
    requires Placed(c) && c.Free() && ((w == ReadMessage && !Composing(c.state)) || w == Retry)
    ensures Sound(c, Block(c, w))
  {
  }

  /** A step forward that leaves the flight alone. */
  ghost predicate Edge(c: Client, s: State)
  {
    Onward(c, s) && (Composing(c.state) ==> Composing(s))
  }

  /** A step forward on the path on which neither Finished is sent nor received. */
  ghost predicate Onward(c: Client, s: State)
  {
    var r := c.params.resumed;
    && Rank(s, r) < Rank(c.state, r) && c.Free()
    && PeerDone(s, r) == PeerDone(c.state, r) && OwnDone(s, r) == OwnDone(c.state, r)
    && (r ==> OnResumedPath(s))
    && (BeforeVerify(c.state) && !BeforeVerify(s) ==> c.verified || !c.params.certAuth)
  }

  lemma GotoSound(c: Client, s: State)
    requires Placed(c) && Edge(c, s)
    ensures Sound(c, Goto(c, s))
  {
  }

  lemma TakeSound(c: Client, s: State, m: Msg)
    requires Placed(c) && Edge(c, s)
    ensures Sound(c, Take(c, s, m))
  {
  }

  lemma SendSound(c: Client, s: State, ms: seq<Msg>)
    requires Placed(c) && Onward(c, s) && Composing(s)
    ensures Sound(c, Send(c, s, ms))
  {
  }

  /** The flags that only say what was seen do not count. */
  lemma FlagsSound(c: Client, verified: bool, certRequest: bool, t: Turn)
    requires Placed(c) && c.Free() && Sound(c.(verified := verified, certRequest := certRequest), t)
    ensures Sound(c, t)
  {
  }

  lemma FlagsPlaced(c: Client, verified: bool, certRequest: bool)
    requires Placed(c) && (c.verified ==> verified)
    ensures Placed(c.(verified := verified, certRequest := certRequest))
  {
  }

  lemma HelloSound(c: Client, p: Params, m: Msg)
    requires Placed(c) && c.state.ReadServerHello? && c.Free() && (p.resumed ==> c.offered)
    ensures Sound(c, Take(c.(params := p), if p.resumed then ReadSessionTicket else ReadServerCertificate, m))
  {
    if p.resumed {
    } else {
    }
  }

  lemma FinishedSound(c: Client)
    requires Placed(c) && c.state.ReadServerFinished? && c.Free()
    ensures Sound(c, Take(c.(peerFinished := c.peerFinished + 1),
                          if c.params.resumed then SendClientFinished else FinishClientHandshake, Mac(true, c.hashed)))
  {
    if c.params.resumed {
    } else {
    }
  }

  lemma SentFinishedSound(c: Client)
    requires Placed(c) && c.state.SendClientFinished? && c.Free()
    ensures Sound(c, SentFinished(c))
  {
    hide Extras;
    hide Handshakes;
    if c.params.resumed {
    } else {
    }
  }

  lemma ReadingHello(c: Client, e: Env)
    requires Placed(c) && c.Free() && c.state.ReadServerHello?
    ensures Sound(c, DoReadServerHello(c, e))
  {
    hide Sound;
    hide Placed;
    hide Fail;
    hide Block;
    hide Goto;
    hide Take;
    hide Send;
    var p := PeekType(e, ServerHello);
    if p.NoMessage? {
      BlockSound(c, ReadMessage);
    } else if p.Wrong? {
      FailSound(c);
    } else if !e.ok || !p.m.Hello? {
      FailSound(c);
    } else {
      HelloSound(c, p.m.params.(resumed := p.m.params.resumed && c.offered), p.m);
    }
  }

  lemma ReadingCertificate(c: Client, e: Env)
    requires Placed(c) && c.Free() && c.state.ReadServerCertificate? && !c.params.resumed
    ensures Sound(c, DoReadServerCertificate(c, e))
  {
    hide Sound;
    hide Placed;
    hide Fail;
    hide Block;
    hide Goto;
    hide Take;
    hide Send;
    var p := PeekType(e, Certificate);
    if !c.params.certAuth {
      GotoSound(c, ReadCertificateStatus);
    } else if p.NoMessage? {
      BlockSound(c, ReadMessage);
    } else if p.Wrong? || !e.ok || !p.m.Chain? || p.m.empty {
      FailSound(c);
    } else {
      TakeSound(c, ReadCertificateStatus, p.m);
    }
  }

  lemma ReadingStatus(c: Client, e: Env)
    requires Placed(c) && c.Free() && c.state.ReadCertificateStatus? && !c.params.resumed
    ensures Sound(c, DoReadCertificateStatus(c, e))
  {
    hide Sound;
    hide Placed;
    hide Fail;
    hide Block;
    hide Goto;
    hide Take;
    hide Send;
    var p := PeekAny(e);
    if !c.params.status {
      GotoSound(c, VerifyServerCertificate);
    } else if p.NoMessage? {
      BlockSound(c, ReadMessage);
    } else if p.Wrong? {
      FailSound(c);
    } else if TypeOf(p.m) != CertificateStatus {
      GotoSound(c, VerifyServerCertificate);
    } else if e.ok {
      TakeSound(c, VerifyServerCertificate, p.m);
    } else {
      FailSound(c);
    }
  }

  lemma Verifying(c: Client, e: Env)
    requires Placed(c) && c.Free() && c.state.VerifyServerCertificate? && !c.params.resumed
    ensures Sound(c, DoVerifyServerCertificate(c, e))
  {
    hide Sound;
    hide Placed;
    hide Fail;
    hide Block;
    hide Goto;
    hide Take;
    hide Send;
    if !c.params.certAuth {
      GotoSound(c, ReadServerKeyExchange);
    } else if !e.ready {
      BlockSound(c, Retry);
    } else if !e.ok {
      FailSound(c);
    } else {
      FlagsPlaced(c, true, c.certRequest);
      GotoSound(c.(verified := true), ReadServerKeyExchange);
      FlagsSound(c, true, c.certRequest, Goto(c.(verified := true), ReadServerKeyExchange));
    }
  }

  lemma ReadingKeyExchange(c: Client, e: Env)
    requires Placed(c) && c.Free() && c.state.ReadServerKeyExchange? && !c.params.resumed
    ensures Sound(c, DoReadServerKeyExchange(c, e))
  {
    hide Sound;
    hide Placed;
    hide Fail;
    hide Block;
    hide Goto;
    hide Take;
    hide Send;
    var p := PeekAny(e);
    if p.NoMessage? {
      BlockSound(c, ReadMessage);
    } else if p.Wrong? {
      FailSound(c);
    } else if TypeOf(p.m) != ServerKeyExchange {
      if c.params.skeRequired {
        FailSound(c);
      } else {
        GotoSound(c, ReadCertificateRequest);
      }
    } else if e.ok {
      TakeSound(c, ReadCertificateRequest, p.m);
    } else {
      FailSound(c);
    }
  }

  lemma ReadingRequest(c: Client, e: Env)
    requires Placed(c) && c.Free() && c.state.ReadCertificateRequest? && !c.params.resumed
    ensures Sound(c, DoReadCertificateRequest(c, e))
  {
    hide Sound;
    hide Placed;
    hide Fail;
    hide Block;
    hide Goto;
    hide Take;
    hide Send;
    var p := PeekAny(e);
    if !c.params.certAuth {
      GotoSound(c, ReadServerHelloDone);
    } else if p.NoMessage? {
      BlockSound(c, ReadMessage);
    } else if p.Wrong? {
      FailSound(c);
    } else if TypeOf(p.m) == ServerHelloDone {
      GotoSound(c, ReadServerHelloDone);
    } else if TypeOf(p.m) != CertificateRequest || !e.ok {
      FailSound(c);
    } else {
      FlagsPlaced(c, c.verified, true);
      TakeSound(c.(certRequest := true), ReadServerHelloDone, p.m);
      FlagsSound(c, c.verified, true, Take(c.(certRequest := true), ReadServerHelloDone, p.m));
    }
  }

  lemma ReadingDone(c: Client, e: Env)
    requires Placed(c) && c.Free() && c.state.ReadServerHelloDone? && !c.params.resumed
    ensures Sound(c, ReadPlain(c, e, ServerHelloDone, SendClientCertificate))
  {
    hide Sound;
    hide Placed;
    hide Fail;
    hide Block;
    hide Goto;
    hide Take;
    hide Send;
    var p := PeekType(e, ServerHelloDone);
    if p.NoMessage? {
      BlockSound(c, ReadMessage);
    } else if p.Wrong? {
      FailSound(c);
    } else if e.ok {
      TakeSound(c, SendClientCertificate, p.m);
    } else {
      FailSound(c);
    }
  }

  lemma SendingCertificate(c: Client, e: Env)
    requires Placed(c) && c.Free() && c.state.SendClientCertificate? && !c.params.resumed
    ensures Sound(c, DoSendClientCertificate(c, e))
  {
    hide Sound;
    hide Placed;
    hide Fail;
    hide Block;
    hide Goto;
    hide Take;
    hide Send;
    if !c.certRequest {
      GotoSound(c, SendClientKeyExchange);
    } else if !e.ready {
      BlockSound(c, Retry);
    } else if !e.ok {
      FailSound(c);
    } else {
      SendSound(c, SendClientKeyExchange, [Chain(!c.hasCert, c.data)]);
    }
  }

  lemma SendingKeyExchange(c: Client, e: Env)
    requires Placed(c) && c.Free() && c.state.SendClientKeyExchange? && !c.params.resumed
    ensures Sound(c, DoSendClientKeyExchange(c, e))
  {
    hide Sound;
    hide Placed;
    hide Fail;
    hide Block;
    hide Goto;
    hide Take;
    hide Send;
    if e.ok {
      SendSound(c, SendClientCertificateVerify, [Plain(ClientKeyExchange, c.data)]);
    } else {
      FailSound(c);
    }
  }

  lemma SendingVerify(c: Client, e: Env)
    requires Placed(c) && c.Free() && c.state.SendClientCertificateVerify? && !c.params.resumed
    ensures Sound(c, DoSendClientCertificateVerify(c, e))
  {
    hide Sound;
    hide Placed;
    hide Fail;
    hide Block;
    hide Goto;
    hide Take;
    hide Send;
    if !c.certRequest || !c.hasCert {
      GotoSound(c, SendClientFinished);
    } else if !e.ready {
      BlockSound(c, Retry);
    } else if !e.ok {
      FailSound(c);
    } else {
      SendSound(c, SendClientFinished, [Signature(c.hashed)]);
    }
  }

  lemma SendingFinished(c: Client, e: Env)
    requires Placed(c) && c.Free() && c.state.SendClientFinished?
    ensures Sound(c, DoSendClientFinished(c, e))
  {
    hide Sound;
    hide Placed;
    hide Fail;
    hide Block;
    hide Goto;
    hide Take;
    hide Send;
    if c.params.channelId && !e.ready {
      BlockSound(c, Retry);
    } else if !e.ok {
      FailSound(c);
    } else {
      SentFinishedSound(c);
    }
  }

  lemma Finishing(c: Client, e: Env)
    requires Placed(c) && c.Free() && c.state.FinishFlight?
    ensures Sound(c, DoFinishFlight(c))
  {
    if c.params.resumed {
    } else {
    }
  }

  /** The ticket, if any, is taken and the ChangeCipherSpec asked for. */
  lemma TicketSound(c: Client, m: Option<Msg>)
    requires Placed(c) && c.Free() && c.state.ReadSessionTicket?
    ensures Sound(c, AskForCcs(c, m))
  {
    if m.Some? {
    } else {
    }
  }

  lemma ReadingTicket(c: Client, e: Env)
    requires Placed(c) && c.Free() && c.state.ReadSessionTicket?
    ensures Sound(c, DoReadSessionTicket(c, e))
  {
    hide Sound;
    hide Placed;
    hide Fail;
    hide Block;
    hide Goto;
    hide Take;
    hide Send;
    var p := PeekType(e, NewSessionTicket);
    if !c.params.ticket {
      TicketSound(c, None);
    } else if p.NoMessage? {
      BlockSound(c, ReadMessage);
    } else if p.Wrong? || !e.ok {
      FailSound(c);
    } else {
      TicketSound(c, Some(p.m));
    }
  }

  lemma ReadingFinished(c: Client, e: Env)
    requires Placed(c) && c.Free() && c.state.ReadServerFinished?
    ensures Sound(c, DoReadServerFinished(c, e))
  {
    hide Sound;
    hide Placed;
    hide Fail;
    hide Block;
    hide Goto;
    hide Take;
    hide Send;
    var p := PeekType(e, Finished);
    if p.NoMessage? {
      BlockSound(c, ReadMessage);
    } else if p.Wrong? {
      FailSound(c);
    } else if p.m != Mac(true, c.hashed) {
      FailSound(c);
    } else {
      FinishedSound(c);
    }
  }

  lemma Starting(c: Client, e: Env)
    requires Placed(c) && c.Free() && (c.state.StartConnect? || c.state.EnterEarlyData?)
    ensures c.state.StartConnect? ==> Sound(c, DoStartConnect(c, e))
    ensures c.state.EnterEarlyData? ==> Sound(c, Goto(c, ReadServerHello))
  {
    if e.ok {
    } else {
    }
  }

  lemma Passing(c: Client, e: Env, s: State)
    requires Placed(c) && Edge(c, s)
    ensures Sound(c, Pass(c, e, s))
  {
    hide Sound;
    hide Placed;
    hide Fail;
    hide Block;
    hide Goto;
    hide Take;
    hide Send;
    if e.ok {
      GotoSound(c, s);
    } else {
      FailSound(c);
    }
  }

  lemma Driving(c: Client, e: Env)
    requires Placed(c) && c.wait.ReadCcs?
    ensures Sound(c, DriveCcs(c, e))
  {
    hide OnResumedPath;
    hide PeerDone;
    hide OwnDone;
    if e.head.None? {
    } else if e.head.value.Ccs? {
    } else {
    }
  }

  lemma Flushing(c: Client, e: Env)
    requires Placed(c) && c.wait.Flush? && !c.state.Done?
    ensures Sound(c, DriveFlush(c, e))
  {
    var n := Flushed(c.flight, e);
    assert c.flight[..n] + c.flight[n..] == c.flight;
    if FlushDone(c.flight, e) {
      assert c.flight[n..] == [];
    }
  }

  /** Termination: the measure depends on resumption, because the resumed path goes back in the order of
      the states. */
  lemma StepSound(c: Client, e: Env)
    requires !c.wait.Failed? && !c.state.Done? && Placed(c)
    ensures Sound(c, Step(c, e))
  {
    hide DoStartConnect;
    hide DoReadServerHello;
    hide DoReadServerCertificate;
    hide DoReadCertificateStatus;
    hide DoVerifyServerCertificate;
    hide DoReadServerKeyExchange;
    hide DoReadCertificateRequest;
    hide DoSendClientCertificate;
    hide DoSendClientKeyExchange;
    hide DoSendClientCertificateVerify;
    hide DoSendClientFinished;
    hide DoFinishFlight;
    hide DoReadSessionTicket;
    hide DoReadServerFinished;
    hide ReadPlain;
    hide Pass;
    hide DriveCcs;
    hide DriveFlush;
    hide Sound;
    if c.wait.ReadCcs? {
      Driving(c, e);
    } else if c.wait.Flush? {
      Flushing(c, e);
    } else {
      match c.state
      case StartConnect | EnterEarlyData => Starting(c, e);
      case ReadServerHello => ReadingHello(c, e);
      case ReadServerCertificate => ReadingCertificate(c, e);
      case ReadCertificateStatus => ReadingStatus(c, e);
      case VerifyServerCertificate => Verifying(c, e);
      case ReadServerKeyExchange => ReadingKeyExchange(c, e);
      case ReadCertificateRequest => ReadingRequest(c, e);
      case ReadServerHelloDone => ReadingDone(c, e);
      case SendClientCertificate => SendingCertificate(c, e);
      case SendClientKeyExchange => SendingKeyExchange(c, e);
      case SendClientCertificateVerify => SendingVerify(c, e);
      case SendClientFinished => SendingFinished(c, e);
      case FinishFlight => Finishing(c, e);
      case ReadSessionTicket => ReadingTicket(c, e);
      case ProcessChangeCipherSpec => Passing(c, e, ReadServerFinished);
      case ReadServerFinished => ReadingFinished(c, e);
      case FinishClientHandshake => Passing(c, e, Done);
    }
  }

  /** Every Finished counted stands in the transcript, over the transcript as it was. */
  ghost predicate Backed(c: Client)
  {
    && (c.peerFinished > 0 ==> HasMac(c.hashed, true))
    && (c.ownFinished > 0 ==> HasMac(c.hashed, false))
  }

  lemma StepBacked(c: Client, t: Turn)
    requires Backed(c) && Appends(c, t)
    ensures Backed(t.next)
  {
    hide HasMac;
    hide Before;
    var more := t.next.hashed[|c.hashed|..];
    assert t.next.hashed == c.hashed + more;
    if c.peerFinished > 0 {
      MacStays(c.hashed, more, true);
    }
    if c.ownFinished > 0 {
      MacStays(c.hashed, more, false);
    }
    MacAdded(c.hashed, true);
    MacAdded(Before(t.next.hashed), false);
  }

  lemma Stopped(c: Client, e: Env)
    requires c.wait.Failed? || c.state.Done?
    ensures Step(c, e) == Turn(c, false, [])
  {
  }

  /** A run against any peer: the machine is shown one environment after another. */
  function Run(c: Client, es: seq<Env>): Client
    decreases |es|
  {
    if es == [] then c else Run(Step(c, es[0]).next, es[1..])
  }

  /** A turn keeps what is known of the client; it brings it nearer to its end, or the client waits. */
  lemma TurnKeeps(c: Client, e: Env)
    requires !c.wait.Failed? && !c.state.Done? && Placed(c) && Backed(c)
    ensures var d := Step(c, e).next;
            && Placed(d) && Backed(d)
            && (d.wait.Failed? || Measure(d) < Measure(c) || (d.state == c.state && (d.wait.ReadMessage? || d.wait.ReadCcs? || d.wait.Retry?))
                || (c.wait.Flush? && d.wait.Flush?))
  {
    hide Step;
    hide Placed;
    hide Backed;
    hide Appends;
    hide Measure;
    StepSound(c, e);
    StepBacked(c, Step(c, e));
  }

  /** What a client's place says when it stops. */
  lemma AtRest(c: Client)
    requires Placed(c) && Backed(c)
    ensures c.state.Done? ==>
      && c.peerFinished == 1 && c.ownFinished == 1 && HasMac(c.hashed, true) && HasMac(c.hashed, false)
      && (c.params.certAuth && !c.params.resumed ==> c.verified)
    ensures c.wait.ReadMessage? || c.wait.ReadCcs? || c.state.Done? || c.wait.EarlyReturn? ==> c.flight == []
    ensures c.wait.EarlyReturn? ==> c.falseStart && !c.params.resumed && c.ownFinished == 1 && c.peerFinished == 0
  {
    hide HasMac;
  }

  /** Whatever the peer sends, a client that reaches Done has seen exactly one Finished from the server and sent
      one itself, each over the transcript as it then stood, and has verified the server's certificate if the
      cipher calls for one. And whenever the client waits for the server, or is done, all it composed is out. It
      returns early only if false start is enabled, in a full handshake, once all up to its own Finished is out. */
  lemma {:induction false} RunIsSafe(c: Client, es: seq<Env>)
    requires Placed(c) && Backed(c)
    ensures var d := Run(c, es);
            && Placed(d) && Backed(d)
            && (d.state.Done? ==>
                && d.peerFinished == 1 && d.ownFinished == 1 && HasMac(d.hashed, true) && HasMac(d.hashed, false)
                && (d.params.certAuth && !d.params.resumed ==> d.verified))
            && (d.wait.ReadMessage? || d.wait.ReadCcs? || d.state.Done? ==> d.flight == [])
            && (d.wait.EarlyReturn? ==> d.falseStart && !d.params.resumed && d.ownFinished == 1 && d.peerFinished == 0 && d.flight == [])
    decreases |es|
  {
    hide Step;
    if es != [] {
      if c.wait.Failed? || c.state.Done? {
        Stopped(c, es[0]);
      } else {
        StepSound(c, es[0]);
        StepBacked(c, Step(c, es[0]));
      }
      RunIsSafe(Step(c, es[0]).next, es[1..]);
    }
  }

  lemma {:induction false} RunSnoc(c: Client, es: seq<Env>, e: Env)
    ensures Run(c, es + [e]) == Step(Run(c, es), e).next
    decreases |es|
  {
    hide Step;
    if es == [] {
      assert [e][1..] == [];
    } else {
      assert (es + [e])[1..] == es[1..] + [e];
      RunSnoc(Step(c, es[0]).next, es[1..], e);
    }
  }

  // ---------------------------------------------------------------- facing a peer

  /** A client, the items it took from its peer, those it has still to take, and what the transport took of its own. */
  datatype Course = Course(c: Client, read: seq<Item>, inbox: seq<Item>, out: seq<Item>)

  function Next(k: Course, a: Answer): Course
  {
    var t := Step(k.c, Facing(k.inbox, a));
    if t.took && a.here && k.inbox != [] then Course(t.next, k.read + [k.inbox[0]], k.inbox[1..], k.out + t.out)
    else Course(t.next, k.read, k.inbox, k.out + t.out)
  }

  /** Any peer: the items it sends, in order, and how the turns of the client fall among them. */
  function Feed(k: Course, answers: seq<Answer>): Course
    decreases |answers|
  {
    if answers == [] then k else Feed(Next(k, answers[0]), answers[1..])
  }

  /** One turn when `n` items of all that is sent were taken so far. */
  lemma NextAt(c: Client, all: seq<Item>, n: nat, out: seq<Item>, a: Answer)
    requires n <= |all|
    ensures var t := Step(c, Facing(all[n..], a));
            var m := if t.took && a.here && n < |all| then n + 1 else n;
            Next(Course(c, all[..n], all[n..], out), a) == Course(t.next, all[..m], all[m..], out + t.out)
  {
    hide Step;
    if n < |all| {
      assert all[..n] + [all[n]] == all[..n + 1] && all[n..][1..] == all[n + 1..];
    }
  }

  lemma {:induction false} FeedSnoc(k: Course, answers: seq<Answer>, a: Answer)
    ensures Feed(k, answers + [a]) == Next(Feed(k, answers), a)
    decreases |answers|
  {
    hide Next;
    if answers == [] {
      assert [a][1..] == [];
    } else {
      assert (answers + [a])[1..] == answers[1..] + [a];
      FeedSnoc(Next(k, answers[0]), answers[1..], a);
    }
  }
}
