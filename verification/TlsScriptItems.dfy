/** The two scripts of a handshake match: all that one machine writes, the other reads, in the same order. */
module TlsScriptItems {
  import opened TlsMessageTypes
  import opened TlsScript
  import C = TlsClient
  import S = TlsServer

  function Msg1(b: bool, m: Msg): seq<Item>
  {
    Opt(b, Handshake(m))
  }

  /** All the client sends from some state on. */
  function ClientItems(w: World, st: C.State): seq<Item>
  {
    if st.StartConnect? then [Handshake(Plain(ClientHello, w.cd))] + AfterHello(w, C.EnterEarlyData)
    else AfterHello(w, st)
  }

  function AfterHello(w: World, st: C.State): seq<Item>
  {
    var last := ClientLast(w);
    if C.OwnDone(st, w.p.resumed) then []
    else if w.p.resumed || st.SendClientFinished? then last
    else
      var verify := Msg1(w.p.certRequest && w.hasCert, Signature(UpToClientKey(w))) + last;
      if st.SendClientCertificateVerify? then verify
      else
        var key := [Handshake(Plain(ClientKeyExchange, w.cd))] + verify;
        if st.SendClientKeyExchange? then key else Msg1(w.p.certRequest, Chain(!w.hasCert, w.cd)) + key
  }

  lemma OneEvent(e: Event)
    ensures Ins([e]) == (if e.In? then [e.i] else []) && Outs([e]) == if e.Out? then [e.i] else []
  {
    assert [e][1..] == [];
  }

  lemma OptEvent(b: bool, e: Event)
    ensures Ins(Opt(b, e)) == (if b && e.In? then [e.i] else []) && Outs(Opt(b, e)) == if b && e.Out? then [e.i] else []
  {
    OneEvent(e);
  }

  /** What a state of the client reads and writes. */
  lemma ClientSegItems(w: World, st: C.State)
    ensures Outs(ClientSeg(w, st)) ==
      match st
      case StartConnect => [Handshake(Plain(ClientHello, w.cd))]
      case SendClientCertificate => Msg1(w.p.certRequest, Chain(!w.hasCert, w.cd))
      case SendClientKeyExchange => [Handshake(Plain(ClientKeyExchange, w.cd))]
      case SendClientCertificateVerify => Msg1(w.p.certRequest && w.hasCert, Signature(UpToClientKey(w)))
      case SendClientFinished => ClientLast(w)
      case _ => []
    ensures Ins(ClientSeg(w, st)) ==
      match st
      case ReadServerHello => [Handshake(Hello(w.p, w.sd))]
      case ReadServerCertificate => Msg1(w.p.certAuth, Chain(false, w.sd))
      case ReadCertificateStatus => Msg1(w.p.certAuth && w.p.status, Plain(CertificateStatus, w.sd))
      case ReadServerKeyExchange => Msg1(w.p.Ske(), Plain(ServerKeyExchange, w.sd))
      case ReadCertificateRequest => Msg1(w.p.certRequest, Plain(CertificateRequest, w.sd))
      case ReadServerHelloDone => [Handshake(Plain(ServerHelloDone, w.sd))]
      case ReadSessionTicket => Msg1(w.p.ticket, Plain(NewSessionTicket, w.sd)) + [Ccs]
      case ReadServerFinished => [Handshake(Mac(true, ServerFinishedCovers(w)))]
      case _ => []
  {
    hide UpToClientKey;
    hide ServerFinishedCovers;
    hide ClientLast;
    hide Ins;
    hide Outs;
    var es := ClientSeg(w, st);
    NoEvents();
    if st.SendClientFinished? {
      WritesOut(ClientLast(w));
    } else if st.ReadSessionTicket? {
      OptEvent(w.p.ticket, In(Handshake(Plain(NewSessionTicket, w.sd))));
      OneEvent(In(Ccs));
      Join(Opt(w.p.ticket, In(Handshake(Plain(NewSessionTicket, w.sd)))), [In(Ccs)]);
    } else if es != [] {
      OneEvent(es[0]);
    }
  }

  lemma NoEvents()
    ensures Ins([]) == [] && Outs([]) == []
  {
  }

  lemma ClientWritesResumed(w: World, st: C.State)
    requires ClientPath(w, st) && !st.Done? && w.p.resumed
    ensures ClientItems(w, st) == Outs(ClientSeg(w, st)) + ClientItems(w, ClientSucc(w, st))
  {
    hide UpToClientKey;
    hide ClientLast;
    hide ClientSeg;
    hide Outs;
    ClientSegItems(w, st);
    hide Msg1;
    Group(ClientItems(w, st), [], []);
  }

  lemma ClientWritesFull(w: World, st: C.State)
    requires ClientPath(w, st) && !st.Done? && !w.p.resumed
    ensures ClientItems(w, st) == Outs(ClientSeg(w, st)) + ClientItems(w, ClientSucc(w, st))
  {
    hide UpToClientKey;
    hide ClientLast;
    hide ClientSeg;
    hide Outs;
    ClientSegItems(w, st);
    hide Msg1;
    Group(ClientItems(w, st), [], []);
    if C.OwnDone(st, false) {
    } else if !Sends(st) {
      QuietStep(w, st);
    } else {
      match st
      case StartConnect =>
      case SendClientCertificate =>
      case SendClientKeyExchange =>
      case SendClientCertificateVerify =>
      case SendClientFinished =>
    }
  }

  predicate Sends(st: C.State)
  {
    || st.StartConnect? || st.SendClientFinished? || st.SendClientCertificateVerify? || st.SendClientKeyExchange?
    || st.SendClientCertificate?
  }

  lemma QuietStep(w: World, st: C.State)
    requires !w.p.resumed && !C.OwnDone(st, false) && !Sends(st)
    ensures ClientItems(w, st) == ClientItems(w, ClientSucc(w, st))
  {
    hide UpToClientKey;
    hide ClientLast;
    hide Msg1;
  }

  lemma ClientWritesStep(w: World, st: C.State)
    requires ClientPath(w, st) && !st.Done?
    ensures ClientItems(w, st) == Outs(ClientSeg(w, st)) + ClientItems(w, ClientSucc(w, st))
  {
    hide ClientSeg;
    hide ClientItems;
    hide Outs;
    if w.p.resumed {
      ClientWritesResumed(w, st);
    } else {
      ClientWritesFull(w, st);
    }
  }

  lemma {:induction false} ClientWrites(w: World, st: C.State)
    requires ClientPath(w, st)
    ensures Outs(ClientScript(w, st)) == ClientItems(w, st)
    decreases C.Rank(st, w.p.resumed)
  {
    hide ClientSeg;
    hide ClientItems;
    hide Outs;
    hide Ins;
    NoEvents();
    if !st.Done? {
      Join(ClientSeg(w, st), ClientScript(w, ClientSucc(w, st)));
      ClientWrites(w, ClientSucc(w, st));
      ClientWritesStep(w, st);
    } else {
      ClientEmpty(w);
    }
  }

  lemma ClientEmpty(w: World)
    ensures ClientItems(w, C.Done) == [] && ClientReads(w, C.Done) == []
  {
  }

  /** All the client reads from some state on. */
  function ClientReads(w: World, st: C.State): seq<Item>
  {
    if C.PeerDone(st, w.p.resumed) then []
    else
      var fin := [Handshake(Mac(true, ServerFinishedCovers(w)))];
      if st.ReadServerFinished? || st.ProcessChangeCipherSpec? then fin
      else
        var tail := Tail(w);
        if st.StartConnect? || st.EnterEarlyData? || st.ReadServerHello? then
          [Handshake(Hello(w.p, w.sd))] + if w.p.resumed then tail else FlightReads(w, C.ReadServerCertificate) + tail
        else FlightReads(w, st) + tail
  }

  /** The part of the server's first flight that is read from some state on. */
  function FlightReads(w: World, st: C.State): seq<Item>
  {
    var done := [Handshake(Plain(ServerHelloDone, w.sd))];
    if st.ReadServerHelloDone? then done
    else
      var request := Msg1(w.p.certRequest, Plain(CertificateRequest, w.sd)) + done;
      if st.ReadCertificateRequest? then request
      else
        var key := Msg1(w.p.Ske(), Plain(ServerKeyExchange, w.sd)) + request;
        if st.ReadServerKeyExchange? || st.VerifyServerCertificate? then key
        else
          var status := Msg1(w.p.certAuth && w.p.status, Plain(CertificateStatus, w.sd)) + key;
          if st.ReadCertificateStatus? then status
          else if st.ReadServerCertificate? then Msg1(w.p.certAuth, Chain(false, w.sd)) + status
          else []
  }

  lemma Group(a: seq<Item>, b: seq<Item>, c: seq<Item>)
    ensures a + b + c == a + (b + c) && [] + a == a
  {
  }

  lemma {:induction false} ClientReadsThese(w: World, st: C.State)
    requires ClientPath(w, st)
    ensures Ins(ClientScript(w, st)) == ClientReads(w, st)
    decreases C.Rank(st, w.p.resumed)
  {
    hide ServerFinishedCovers;
    hide ClientSeg;
    hide Outs;
    hide Ins;
    NoEvents();
    if !st.Done? {
      var next := ClientSucc(w, st);
      ClientSegItems(w, st);
      Join(ClientSeg(w, st), ClientScript(w, next));
      ClientReadsThese(w, next);
      hide ClientScript;
      ClientReadsStep(w, st);
    }
  }

  predicate InFlight(st: C.State)
  {
    || st.ReadServerCertificate? || st.ReadCertificateStatus? || st.VerifyServerCertificate?
    || st.ReadServerKeyExchange? || st.ReadCertificateRequest? || st.ReadServerHelloDone?
  }

  lemma FlightStep(w: World, st: C.State)
    requires InFlight(st)
    ensures FlightReads(w, st) == Ins(ClientSeg(w, st)) + FlightReads(w, ClientSucc(w, st))
  {
    hide ClientSeg;
    hide Ins;
    ClientSegItems(w, st);
    hide Msg1;
    Group(FlightReads(w, st), [], []);
  }

  lemma ClientReadsStep(w: World, st: C.State)
    requires ClientPath(w, st) && !st.Done?
    ensures ClientReads(w, st) == Ins(ClientSeg(w, st)) + ClientReads(w, ClientSucc(w, st))
  {
    hide ServerFinishedCovers;
    hide ClientSeg;
    hide Ins;
    ClientSegItems(w, st);
    if InFlight(st) {
      FlightStep(w, st);
      FlightThenTail(w, st);
    } else {
      OutsideStep(w, st);
    }
  }

  /** The ticket, the ChangeCipherSpec and the server's Finished. */
  function Tail(w: World): seq<Item>
  {
    Msg1(w.p.ticket, Plain(NewSessionTicket, w.sd)) + [Ccs] + [Handshake(Mac(true, ServerFinishedCovers(w)))]
  }

  lemma FlightThenTail(w: World, st: C.State)
    requires InFlight(st) && ClientPath(w, st) && FlightReads(w, st) == Ins(ClientSeg(w, st)) + FlightReads(w, ClientSucc(w, st))
    ensures ClientReads(w, st) == Ins(ClientSeg(w, st)) + ClientReads(w, ClientSucc(w, st))
  {
    hide ServerFinishedCovers;
    hide ClientSeg;
    hide Ins;
    hide Msg1;
    var next := ClientSucc(w, st);
    assert ClientReads(w, st) == FlightReads(w, st) + Tail(w);
    assert ClientReads(w, next) == FlightReads(w, next) + Tail(w);
    hide FlightReads;
    Group(Ins(ClientSeg(w, st)), FlightReads(w, next), Tail(w));
  }

  lemma OutsideStep(w: World, st: C.State)
    requires !InFlight(st) && !st.Done? && ClientPath(w, st)
    ensures ClientReads(w, st) == Ins(ClientSeg(w, st)) + ClientReads(w, ClientSucc(w, st))
  {
    hide ServerFinishedCovers;
    hide ClientSeg;
    hide Ins;
    ClientSegItems(w, st);
    hide Msg1;
    var next := ClientSucc(w, st);
    assert FlightReads(w, C.SendClientCertificate) == [];
    Group(Tail(w), [], []);
  }

  // ---------------------------------------------------------------- the server's side of the scripts

  lemma ServerSegItems(w: World, st: S.State)
    ensures Outs(ServerSeg(w, st)) ==
      match st
      case SendServerHello => [Handshake(Hello(w.p, w.sd))]
      case SendServerCertificate => Handshakes(S.CertificateFlight(w.p, w.sd))
      case SendServerKeyExchange => Msg1(w.p.Ske(), Plain(ServerKeyExchange, w.sd))
      case SendServerHelloDone => Handshakes(S.HelloDoneFlight(w.p, w.sd))
      case SendServerFinished => ServerLast(w)
      case _ => []
    ensures Ins(ServerSeg(w, st)) ==
      match st
      case SelectParameters => [Handshake(Plain(ClientHello, w.cd))]
      case ReadClientCertificate => Msg1(w.p.certRequest, Chain(!w.hasCert, w.cd))
      case ReadClientKeyExchange => [Handshake(Plain(ClientKeyExchange, w.cd))]
      case ReadClientCertificateVerify => Msg1(w.p.certRequest && w.hasCert, Signature(UpToClientKey(w)))
      case ReadChangeCipherSpec => [Ccs]
      case ReadNextProto => Msg1(w.p.npn, Plain(NextProto, w.cd))
      case ReadChannelId => Msg1(w.p.channelId, Plain(ChannelId, w.cd))
      case ReadClientFinished => [Handshake(Mac(false, ClientFinishedCovers(w)))]
      case _ => []
  {
    hide UpToClientKey;
    hide ClientFinishedCovers;
    hide ServerLast;
    hide S.CertificateFlight;
    hide S.HelloDoneFlight;
    hide Ins;
    hide Outs;
    var es := ServerSeg(w, st);
    NoEvents();
    if st.SendServerCertificate? {
      WritesOut(Handshakes(S.CertificateFlight(w.p, w.sd)));
    } else if st.SendServerHelloDone? {
      WritesOut(Handshakes(S.HelloDoneFlight(w.p, w.sd)));
    } else if st.SendServerFinished? {
      WritesOut(ServerLast(w));
    } else if es != [] {
      OneEvent(es[0]);
    }
  }

  predicate BeforeHello(st: S.State)
  {
    st.StartAccept? || st.ReadClientHello? || st.SelectCertificate? || st.SelectParameters? || st.SendServerHello?
  }

  /** All the server sends from some state on. */
  function ServerItems(w: World, st: S.State): seq<Item>
  {
    if S.OwnDone(st, w.p.resumed) then []
    else if BeforeHello(st) then
      [Handshake(Hello(w.p, w.sd))]
      + if w.p.resumed then ServerLast(w) else FlightWrites(w, S.SendServerCertificate)
    else if w.p.resumed then ServerLast(w)
    else FlightWrites(w, st)
  }

  /** The server's first flight from some state on, and its last. */
  function FlightWrites(w: World, st: S.State): seq<Item>
  {
    var done := Handshakes(S.HelloDoneFlight(w.p, w.sd)) + ServerLast(w);
    var key := Msg1(w.p.Ske(), Plain(ServerKeyExchange, w.sd)) + done;
    if st.SendServerCertificate? then Handshakes(S.CertificateFlight(w.p, w.sd)) + key
    else if st.SendServerKeyExchange? then key
    else if st.SendServerHelloDone? then done
    else ServerLast(w)
  }

  lemma {:induction false} ServerWrites(w: World, st: S.State)
    requires w.p.resumed ==> S.OnResumedPath(st)
    ensures Outs(ServerScript(w, st)) == ServerItems(w, st)
    decreases S.Rank(st, w.p.resumed)
  {
    hide ServerLast;
    hide ServerSeg;
    hide Outs;
    hide Ins;
    hide ServerItems;
    NoEvents();
    if !st.Done? {
      Join(ServerSeg(w, st), ServerScript(w, ServerSucc(w, st)));
      ServerWrites(w, ServerSucc(w, st));
      ServerWritesStep(w, st);
    } else {
      NothingLeft(w);
    }
  }

  lemma NothingLeft(w: World)
    ensures ServerItems(w, S.Done) == [] && ServerReads(w, S.Done) == []
  {
  }

  lemma ServerWritesResumed(w: World, st: S.State)
    requires !st.Done? && w.p.resumed && S.OnResumedPath(st)
    ensures ServerItems(w, st) == Outs(ServerSeg(w, st)) + ServerItems(w, ServerSucc(w, st))
  {
    hide ServerLast;
    hide ServerSeg;
    hide Outs;
    ServerSegItems(w, st);
    hide Msg1;
    hide S.HelloDoneFlight;
    hide S.CertificateFlight;
    Group(ServerItems(w, st), [], []);
  }

  lemma ServerWritesFlight(w: World, st: S.State)
    requires !st.Done? && !w.p.resumed && !BeforeHello(st)
    ensures ServerItems(w, st) == Outs(ServerSeg(w, st)) + ServerItems(w, ServerSucc(w, st))
  {
    hide ServerLast;
    hide ServerSeg;
    hide Outs;
    ServerSegItems(w, st);
    hide Msg1;
    hide S.HelloDoneFlight;
    hide S.CertificateFlight;
    Group(ServerItems(w, st), [], []);
    match st
    case SendServerCertificate =>
    case SendServerKeyExchange =>
    case SendServerHelloDone =>
    case SendServerFinished =>
    case FinishServerHandshake =>
    case _ =>
  }

  lemma ServerWritesHello(w: World, st: S.State)
    requires !st.Done? && !w.p.resumed && BeforeHello(st)
    ensures ServerItems(w, st) == Outs(ServerSeg(w, st)) + ServerItems(w, ServerSucc(w, st))
  {
    hide ServerLast;
    hide ServerSeg;
    hide Outs;
    ServerSegItems(w, st);
    hide Msg1;
    hide S.HelloDoneFlight;
    hide S.CertificateFlight;
    Group(ServerItems(w, st), [], []);
  }

  lemma ServerWritesStep(w: World, st: S.State)
    requires !st.Done? && (w.p.resumed ==> S.OnResumedPath(st))
    ensures ServerItems(w, st) == Outs(ServerSeg(w, st)) + ServerItems(w, ServerSucc(w, st))
  {
    hide ServerSeg;
    hide ServerItems;
    hide Outs;
    if w.p.resumed {
      ServerWritesResumed(w, st);
    } else if BeforeHello(st) {
      ServerWritesHello(w, st);
    } else {
      ServerWritesFlight(w, st);
    }
  }

  /** All the server reads from some state on. */
  function ServerReads(w: World, st: S.State): seq<Item>
  {
    if S.PeerDone(st, w.p.resumed) then []
    else
      var fin := [Handshake(Mac(false, ClientFinishedCovers(w)))];
      if st.ReadClientFinished? then fin
      else
        var id := Msg1(w.p.channelId, Plain(ChannelId, w.cd)) + fin;
        if st.ReadChannelId? then id
        else
          var proto := Msg1(w.p.npn, Plain(NextProto, w.cd)) + id;
          if st.ReadNextProto? || st.ProcessChangeCipherSpec? then proto else EarlyReads(w, st, [Ccs] + proto)
  }

  /** What the server reads up to the ChangeCipherSpec, and then `last`. */
  function EarlyReads(w: World, st: S.State, last: seq<Item>): seq<Item>
  {
    var verify := Msg1(w.p.certRequest && w.hasCert, Signature(UpToClientKey(w))) + last;
    var key := [Handshake(Plain(ClientKeyExchange, w.cd))] + verify;
    var chain := Msg1(w.p.certRequest, Chain(!w.hasCert, w.cd)) + key;
    if st.ReadChangeCipherSpec? then last
    else if st.ReadClientCertificateVerify? then verify
    else if st.ReadClientKeyExchange? || st.VerifyClientCertificate? then key
    else if BeforeHello(st) && !st.SendServerHello? then
      [Handshake(Plain(ClientHello, w.cd))] + if w.p.resumed then last else chain
    else if w.p.resumed then last
    else chain
  }

  lemma {:induction false} ServerReadsThese(w: World, st: S.State)
    requires w.p.resumed ==> S.OnResumedPath(st)
    ensures Ins(ServerScript(w, st)) == ServerReads(w, st)
    decreases S.Rank(st, w.p.resumed)
  {
    hide ServerSeg;
    hide Outs;
    hide Ins;
    hide ServerReads;
    NoEvents();
    if !st.Done? {
      Join(ServerSeg(w, st), ServerScript(w, ServerSucc(w, st)));
      ServerReadsThese(w, ServerSucc(w, st));
      ServerReadsStep(w, st);
    } else {
      NothingLeft(w);
    }
  }

  /** From the ChangeCipherSpec on, and around the server's Finished. */
  lemma LateStep(w: World, st: S.State)
    requires !st.Done? && (w.p.resumed ==> S.OnResumedPath(st)) && !Early(w, st)
    ensures ServerReads(w, st) == Ins(ServerSeg(w, st)) + ServerReads(w, ServerSucc(w, st))
  {
    hide ClientFinishedCovers;
    hide UpToClientKey;
    hide ServerSeg;
    hide Ins;
    ServerSegItems(w, st);
    hide Msg1;
    Group(ServerReads(w, st), [], []);
    match st
    case ReadChangeCipherSpec =>
    case ProcessChangeCipherSpec =>
    case ReadNextProto =>
    case ReadChannelId =>
    case ReadClientFinished =>
    case SendServerFinished =>
    case FinishServerHandshake =>
  }

  predicate Early(w: World, st: S.State)
  {
    BeforeHello(st) || (S.Rank(st, false) > 8 && !w.p.resumed)
  }

  lemma EarlyIs(w: World, st: S.State)
    requires Early(w, st) || st.ReadChangeCipherSpec? || (w.p.resumed && st.SendServerFinished?)
    ensures ServerReads(w, st) == EarlyReads(w, st, ServerReads(w, S.ReadChangeCipherSpec))
  {
    hide ClientFinishedCovers;
    hide UpToClientKey;
  }

  lemma ServerReadsStep(w: World, st: S.State)
    requires !st.Done? && (w.p.resumed ==> S.OnResumedPath(st))
    ensures ServerReads(w, st) == Ins(ServerSeg(w, st)) + ServerReads(w, ServerSucc(w, st))
  {
    hide ServerSeg;
    hide Ins;
    hide ServerReads;
    hide EarlyReads;
    if Early(w, st) {
      EarlyStep(w, st, ServerReads(w, S.ReadChangeCipherSpec));
      EarlyIs(w, st);
      EarlyIs(w, ServerSucc(w, st));
    } else {
      LateStep(w, st);
    }
  }

  /** Up to the ChangeCipherSpec each state reads its part, whatever comes behind. */
  lemma EarlyStep(w: World, st: S.State, last: seq<Item>)
    requires Early(w, st)
    ensures EarlyReads(w, st, last) == Ins(ServerSeg(w, st)) + EarlyReads(w, ServerSucc(w, st), last)
  {
    hide UpToClientKey;
    hide ServerSeg;
    hide Ins;
    ServerSegItems(w, st);
    hide Msg1;
    Group(EarlyReads(w, st, last), [], []);
    if BeforeHello(st) {
      if w.p.resumed {
      } else {
      }
    } else {
      match st
      case SendServerCertificate =>
      case SendServerKeyExchange =>
      case SendServerHelloDone =>
      case ReadClientCertificate =>
      case VerifyClientCertificate =>
      case ReadClientKeyExchange =>
      case ReadClientCertificateVerify =>
    }
  }

  // ---------------------------------------------------------------- what one writes, the other reads

  lemma HandshakesJoin(a: seq<Msg>, b: seq<Msg>)
    ensures Handshakes(a + b) == Handshakes(a) + Handshakes(b)
  {
  }

  lemma HandshakesOpt(b: bool, m: Msg)
    ensures Handshakes(Opt(b, m)) == Msg1(b, m)
  {
  }

  lemma ClientWritesServerReads(w: World)
    ensures ClientItems(w, C.StartConnect) == ServerReads(w, S.StartAccept)
  {
    hide ClientFinishedCovers;
    hide UpToClientKey;
    HandshakesJoin(Opt(w.p.npn, Plain(NextProto, w.cd)), Opt(w.p.channelId, Plain(ChannelId, w.cd)));
    HandshakesOpt(w.p.npn, Plain(NextProto, w.cd));
    HandshakesOpt(w.p.channelId, Plain(ChannelId, w.cd));
    hide Msg1;
    hide Opt;
    hide Handshakes;
    var proto, id := Msg1(w.p.npn, Plain(NextProto, w.cd)), Msg1(w.p.channelId, Plain(ChannelId, w.cd));
    var fin := [Handshake(Mac(false, ClientFinishedCovers(w)))];
    assert ClientLast(w) == [Ccs] + (proto + id) + fin;
    assert [Ccs] + (proto + id) + fin == [Ccs] + (proto + (id + fin));
  }

  /** The same four parts grouped from the right and as they are written. */
  lemma FlightGroups(a: seq<Item>, b: seq<Item>, k: seq<Item>, r: seq<Item>, d: seq<Item>, t: seq<Item>)
    ensures a + (b + (k + (r + d))) + t == (a + b) + (k + ((r + d) + t))
  {
  }

  lemma ServerWritesClientReads(w: World)
    ensures ServerItems(w, S.StartAccept) == ClientReads(w, C.StartConnect)
  {
    hide ServerFinishedCovers;
    HandshakesOpt(w.p.ticket, Plain(NewSessionTicket, w.sd));
    assert ServerLast(w) == Tail(w);
    hide ServerLast;
    hide Tail;
    FlightMatches(w);
    hide FlightReads;
    hide FlightWrites;
  }

  lemma FlightMatches(w: World)
    requires ServerLast(w) == Tail(w)
    ensures FlightWrites(w, S.SendServerCertificate) == FlightReads(w, C.ReadServerCertificate) + Tail(w)
  {
    hide ServerLast;
    hide Tail;
    HandshakesJoin(Opt(w.p.certAuth, Chain(false, w.sd)), Opt(w.p.certAuth && w.p.status, Plain(CertificateStatus, w.sd)));
    HandshakesOpt(w.p.certAuth, Chain(false, w.sd));
    HandshakesOpt(w.p.certAuth && w.p.status, Plain(CertificateStatus, w.sd));
    HandshakesJoin(Opt(w.p.certRequest, Plain(CertificateRequest, w.sd)), [Plain(ServerHelloDone, w.sd)]);
    HandshakesOpt(w.p.certRequest, Plain(CertificateRequest, w.sd));
    assert Handshakes([Plain(ServerHelloDone, w.sd)]) == [Handshake(Plain(ServerHelloDone, w.sd))];
    hide Msg1;
    hide Opt;
    hide Handshakes;
    FlightGroups(Msg1(w.p.certAuth, Chain(false, w.sd)), Msg1(w.p.certAuth && w.p.status, Plain(CertificateStatus, w.sd)),
                 Msg1(w.p.Ske(), Plain(ServerKeyExchange, w.sd)), Msg1(w.p.certRequest, Plain(CertificateRequest, w.sd)),
                 [Handshake(Plain(ServerHelloDone, w.sd))], Tail(w));
  }
}
