/** Client and server machines joined by two in-order channels, when the flags settled in the hellos agree: no
    message is ever unexpected, the handshake never gets stuck, though what a side composes reaches the other only
    when its flight is flushed and flushes may block, and both sides hash the same messages
    (handshake_client.cc, handshake_server.cc, handshake.cc; sections 7.3 and 7.4.9 of RFC 5246). */
module TlsHandshake {
  import opened Octets
  import opened TlsClientScript
  import opened TlsMessageTypes
  import opened TlsScript
  import opened TlsScriptItems
  import opened TlsServerScript
  import C = TlsClient
  import S = TlsServer

  /** The two machines with their pending flights, and what the transport has taken and not yet handed over. */
  datatype Pair = Pair(c: C.Client, s: S.Server, toServer: seq<Item>, toClient: seq<Item>)

  /** A turn of either machine, with or without its callbacks ready, and with a transport that takes so many items
      if the flight is flushed and can be drained or not; every check succeeds. */
  datatype Act =
    | ClientTurn(ready: bool, sent: nat, drained: bool)
    | ServerTurn(ready: bool, sent: nat, drained: bool)

  /** What the machine that takes the turn is shown of its channel and the world. */
  function Shown(a: Act, q: seq<Item>): Env
  {
    Env(Head(q), a.ready, true, a.sent, a.drained)
  }

  function Head(q: seq<Item>): Option<Item>
  {
    if q == [] then None else Some(q[0])
  }

  function Rest(q: seq<Item>, took: bool): seq<Item>
  {
    if took && q != [] then q[1..] else q
  }

  function Step(p: Pair, a: Act): Pair
  {
    match a
    case ClientTurn(_, _, _) =>
      var t := C.Step(p.c, Shown(a, p.toClient));
      Pair(t.next, p.s, p.toServer + t.out, Rest(p.toClient, t.took))
    case ServerTurn(_, _, _) =>
      var t := S.Step(p.s, Shown(a, p.toServer));
      Pair(p.c, t.next, Rest(p.toServer, t.took), p.toClient + t.out)
  }

  function Run(p: Pair, acts: seq<Act>): Pair
    decreases |acts|
  {
    if acts == [] then p else Run(Step(p, acts[0]), acts[1..])
  }

  /** Each machine is on its script, and each channel with the flight behind it holds what its reader has still
      to read less what its writer has still to compose. */
  ghost predicate Inv(w: World, p: Pair)
  {
    && w.Valid() && ClientAt(w, p.c) && ServerAt(w, p.s) && C.Placed(p.c) && S.Placed(p.s)
    && p.toClient + (p.s.flight + Outs(ServerRest(w, p.s))) == Ins(ClientRest(w, p.c))
    && p.toServer + (p.c.flight + Outs(ClientRest(w, p.c))) == Ins(ServerRest(w, p.s))
  }

  lemma Begin(w: World, c: C.Client, s: S.Server)
    requires w.Valid() && (w.p.certRequest && s.requireCert ==> w.hasCert) && (w.p.resumed ==> c.offered)
    requires c == C.Initial(c.offered, w.hasCert, c.falseStart, w.cd) && s == S.Initial(w.p, s.requireCert, w.sd)
    ensures Inv(w, Pair(c, s, [], []))
  {
    hide ClientScript;
    hide ServerScript;
    hide Ins;
    hide Outs;
    hide ClientItems;
    hide ClientReads;
    hide ServerItems;
    hide ServerReads;
    ClientWrites(w, C.StartConnect);
    ClientReadsThese(w, C.StartConnect);
    ServerWrites(w, S.StartAccept);
    ServerReadsThese(w, S.StartAccept);
    ClientWritesServerReads(w);
    ServerWritesClientReads(w);
    Group(Outs(ClientScript(w, C.StartConnect)), [], []);
    Group(Outs(ServerScript(w, S.StartAccept)), [], []);
  }

  // ---------------------------------------------------------------- every turn keeps to the scripts

  lemma {:induction false} HeadIsDue(q: seq<Item>, others: seq<Item>, rest: seq<Event>)
    requires q + others == Ins(rest)
    ensures Due(rest, Head(q))
  {
    if q != [] {
      assert (q + others)[0] == q[0];
    }
  }

  /** A turn of one machine, seen from the two channels. */
  lemma {:induction false} ChannelsFollow(inbox: seq<Item>, others: seq<Item>, outbox: seq<Item>, flight: seq<Item>, before: seq<Event>,
                       left: seq<Item>, after: seq<Event>, due: seq<Item>, took: bool, out: seq<Item>)
    requires inbox + others == Ins(before) && outbox + (flight + Outs(before)) == due
    requires (took ==> inbox != []) && flight <= out + left
    requires before == Did(took, Head(inbox), Added(flight, out, left)) + after
    ensures Rest(inbox, took) + others == Ins(after)
    ensures outbox + out + (left + Outs(after)) == due
  {
    hide Did;
    hide Ins;
    hide Outs;
    var added := Added(flight, out, left);
    DidJoins(took, Head(inbox), added, after);
    TakenOff(inbox, others, Ins(after), took);
    assert flight + added == out + left;
    assert outbox + (flight + (added + Outs(after))) == outbox + (flight + added) + Outs(after);
    assert outbox + (out + left) + Outs(after) == outbox + out + (left + Outs(after));
  }

  lemma TakenOff(inbox: seq<Item>, others: seq<Item>, rest: seq<Item>, took: bool)
    requires (took ==> inbox != []) && inbox + others == (if took then [inbox[0]] else []) + rest
    ensures Rest(inbox, took) + others == rest
  {
    if took {
      assert inbox + others == [inbox[0]] + (inbox[1..] + others);
      assert ([inbox[0]] + (inbox[1..] + others))[1..] == inbox[1..] + others;
      assert ([inbox[0]] + rest)[1..] == rest;
    } else {
      assert [] + rest == rest;
    }
  }

  /** No message is ever unexpected: every turn of either machine keeps both on their scripts. */
  lemma StepInv(w: World, p: Pair, a: Act)
    requires Inv(w, p)
    ensures Inv(w, Step(p, a))
  {
    hide ClientAt;
    hide ServerAt;
    hide ClientRest;
    hide ServerRest;
    hide C.Step;
    hide S.Step;
    hide C.Placed;
    hide S.Placed;
    hide C.Nearer;
    hide S.Nearer;
    hide C.Appends;
    hide S.Appends;
    hide Did;
    hide Due;
    hide Ins;
    hide Outs;
    match a
    case ClientTurn(_, _, _) =>
      var e := Shown(a, p.toClient);
      var t := C.Step(p.c, e);
      if p.c.state.Done? {
        ClientStays(p.c, e);
        Group(p.toServer, [], []);
      } else {
        HeadIsDue(p.toClient, p.s.flight + Outs(ServerRest(w, p.s)), ClientRest(w, p.c));
        ClientRuns(w, p.c);
        ClientFollows(w, p.c, e);
        C.StepSound(p.c, e);
        ChannelsFollow(p.toClient, p.s.flight + Outs(ServerRest(w, p.s)), p.toServer, p.c.flight, ClientRest(w, p.c),
                       t.next.flight, ClientRest(w, t.next), Ins(ServerRest(w, p.s)), t.took, t.out);
      }
    case ServerTurn(_, _, _) =>
      var e := Shown(a, p.toServer);
      var t := S.Step(p.s, e);
      if p.s.state.Done? {
        ServerStays(p.s, e);
        Group(p.toClient, [], []);
      } else {
        HeadIsDue(p.toServer, p.c.flight + Outs(ClientRest(w, p.c)), ServerRest(w, p.s));
        ServerRuns(w, p.s);
        ServerFollows(w, p.s, e);
        S.StepSound(p.s, e);
        ChannelsFollow(p.toServer, p.c.flight + Outs(ClientRest(w, p.c)), p.toClient, p.s.flight, ServerRest(w, p.s),
                       t.next.flight, ServerRest(w, t.next), Ins(ClientRest(w, p.c)), t.took, t.out);
      }
  }

  lemma ClientRuns(w: World, c: C.Client)
    requires ClientAt(w, c)
    ensures !c.wait.Failed?
  {
  }

  lemma ServerRuns(w: World, s: S.Server)
    requires ServerAt(w, s)
    ensures !s.wait.Failed?
  {
  }

  lemma ClientStays(c: C.Client, e: Env)
    requires c.state.Done?
    ensures C.Step(c, e) == C.Turn(c, false, [])
  {
  }

  lemma ServerStays(s: S.Server, e: Env)
    requires s.state.Done?
    ensures S.Step(s, e) == S.Turn(s, false, [])
  {
  }

  // ---------------------------------------------------------------- no deadlock

  /** Whatever script begins with a read has something to read. */
  lemma {:induction false} StartsInReads(es: seq<Event>)
    requires StartsIn(es)
    ensures Ins(es) != []
  {
  }

  /** In a sending state the next thing is to send. */
  lemma {:induction false} ClientSendsFirst(w: World, st: C.State)
    requires ClientPath(w, st) && (st.StartConnect? || st.SendClientFinished? || st.SendClientCertificateVerify?
                                   || st.SendClientKeyExchange? || st.SendClientCertificate?)
    ensures !StartsIn(ClientScript(w, st))
    decreases C.Rank(st, w.p.resumed)
  {
    hide ClientScript;
    if ClientSeg(w, st) == [] {
      assert ClientScript(w, st) == ClientScript(w, ClientSucc(w, st)) by {
        NothingHere(w, st);
      }
      ClientSendsFirst(w, ClientSucc(w, st));
    } else {
      FirstHere(w, st);
    }
  }

  lemma {:induction false} NothingHere(w: World, st: C.State)
    requires !st.Done? && ClientSeg(w, st) == []
    ensures ClientScript(w, st) == ClientScript(w, ClientSucc(w, st))
  {
    assert [] + ClientScript(w, ClientSucc(w, st)) == ClientScript(w, ClientSucc(w, st));
  }

  lemma {:induction false} FirstHere(w: World, st: C.State)
    requires !st.Done? && ClientSeg(w, st) != []
    ensures ClientScript(w, st) != [] && ClientScript(w, st)[0] == ClientSeg(w, st)[0]
  {
  }

  lemma ClientRestItems(w: World, c: C.Client)
    requires ClientAt(w, c)
    ensures Outs(ClientRest(w, c)) == ClientItems(w, c.state)
    ensures Ins(ClientRest(w, c)) == (if c.wait.ReadCcs? then [Ccs] else []) + ClientReads(w, c.state)
  {
    hide ClientHash;
    hide ClientScript;
    hide ClientItems;
    hide ClientReads;
    hide Ins;
    hide Outs;
    ClientWrites(w, c.state);
    ClientReadsThese(w, c.state);
    OneEvent(In(Ccs));
    Join([In(Ccs)], ClientScript(w, c.state));
    Group(ClientItems(w, c.state), [], []);
    Group(ClientReads(w, c.state), [], []);
  }

  /** A client that waits for an item has nothing to send, or all that comes after its hello; and then, in a full
      handshake, it has more to read than the server's last flight. */
  lemma ClientWaiting(w: World, c: C.Client)
    requires ClientAt(w, c) && StartsIn(ClientRest(w, c))
    ensures Outs(ClientRest(w, c)) == [] || Outs(ClientRest(w, c)) == ClientItems(w, C.EnterEarlyData)
    ensures Outs(ClientRest(w, c)) != [] && !w.p.resumed ==> |Ins(ClientRest(w, c))| > |ServerLast(w)|
  {
    hide ClientHash;
    hide ClientScript;
    hide UpToClientKey;
    hide ServerFinishedCovers;
    hide ClientLast;
    hide Ins;
    hide Outs;
    ClientRestItems(w, c);
    var st := c.state;
    if !c.wait.ReadCcs? {
      if st.StartConnect? || st.SendClientFinished? || st.SendClientCertificateVerify? || st.SendClientKeyExchange?
         || st.SendClientCertificate? {
        ClientSendsFirst(w, st);
      }
    }
    LastSize(w);
    WaitingItems(w, st);
    hide ClientItems;
    hide ClientReads;
  }

  /** In a state that does not send, what is left to send is nothing or everything after the hello. */
  lemma WaitingItems(w: World, st: C.State)
    ensures C.OwnDone(st, w.p.resumed) ==> ClientItems(w, st) == []
    ensures !C.OwnDone(st, w.p.resumed) && !Sends(st) ==> ClientItems(w, st) == ClientItems(w, C.EnterEarlyData)
    ensures !C.OwnDone(st, false) && !Sends(st) && !w.p.resumed ==> |ClientReads(w, st)| > |Tail(w)|
  {
    hide UpToClientKey;
    hide ClientLast;
    hide Msg1;
    hide Tail;
  }

  lemma LastSize(w: World)
    ensures |Tail(w)| == |ServerLast(w)|
  {
  }

  predicate ServerSends(st: S.State)
  {
    || st.SendServerHello? || st.SendServerCertificate? || st.SendServerKeyExchange? || st.SendServerHelloDone?
    || st.SendServerFinished?
  }

  lemma {:induction false} ServerSendsFirst(w: World, st: S.State)
    requires ServerSends(st) && (w.p.resumed ==> S.OnResumedPath(st))
    ensures !StartsIn(ServerScript(w, st))
    decreases S.Rank(st, w.p.resumed)
  {
    hide ServerScript;
    if ServerSeg(w, st) == [] {
      TlsServerScript.DueLater(w, st);
      ServerSendsFirst(w, ServerSucc(w, st));
    } else {
      ServerFirstHere(w, st);
    }
  }

  lemma {:induction false} ServerFirstHere(w: World, st: S.State)
    requires !st.Done? && ServerSeg(w, st) != []
    ensures ServerScript(w, st) != [] && ServerScript(w, st)[0] == ServerSeg(w, st)[0]
  {
  }

  lemma ServerRestItems(w: World, s: S.Server)
    requires ServerAt(w, s)
    ensures Outs(ServerRest(w, s)) == ServerItems(w, s.state)
    ensures !s.wait.ReadCcs? ==> Ins(ServerRest(w, s)) == ServerReads(w, s.state)
  {
    hide ServerHash;
    hide ServerScript;
    hide ServerItems;
    hide ServerReads;
    hide Ins;
    hide Outs;
    ServerWrites(w, s.state);
    ServerReadsThese(w, s.state);
    OneEvent(In(Ccs));
    Join([In(Ccs)], ServerScript(w, s.state));
    Group(ServerItems(w, s.state), [], []);
  }

  /** A server that waits for an item waits for the hello and everything after it, or has nothing to send, or,
      in a full handshake, only its last flight. */
  lemma ServerWaiting(w: World, s: S.Server)
    requires ServerAt(w, s) && StartsIn(ServerRest(w, s))
    ensures || |Ins(ServerRest(w, s))| == 1 + |ClientItems(w, C.EnterEarlyData)|
            || Outs(ServerRest(w, s)) == []
            || (!w.p.resumed && Outs(ServerRest(w, s)) == ServerLast(w))
  {
    hide ServerHash;
    hide ServerScript;
    hide Ins;
    hide Outs;
    hide ClientItems;
    ServerRestItems(w, s);
    if !s.wait.ReadCcs? && ServerSends(s.state) {
      ServerSendsFirst(w, s.state);
    } else {
      ServerWaits(w, s.state);
    }
    hide ServerReads;
    hide ServerItems;
  }

  lemma ServerWaits(w: World, st: S.State)
    requires !ServerSends(st) && (w.p.resumed ==> S.OnResumedPath(st))
    ensures BeforeHello(st) ==> |ServerReads(w, st)| == 1 + |ClientItems(w, C.EnterEarlyData)|
    ensures !BeforeHello(st) ==> ServerItems(w, st) == [] || (!w.p.resumed && ServerItems(w, st) == ServerLast(w))
  {
    hide ClientItems;
    hide ServerReads;
    hide ServerItems;
    if BeforeHello(st) {
      ClientWritesServerReads(w);
      SameBeforeHello(w, st);
      HelloFirst(w);
    } else {
      hide ServerLast;
      hide FlightWrites;
      ServerWaitsLate(w, st);
    }
  }

  lemma SameBeforeHello(w: World, st: S.State)
    requires BeforeHello(st) && !st.SendServerHello?
    ensures ServerReads(w, st) == ServerReads(w, S.StartAccept)
  {
    hide ClientFinishedCovers;
    hide UpToClientKey;
  }

  lemma HelloFirst(w: World)
    ensures |ClientItems(w, C.StartConnect)| == 1 + |ClientItems(w, C.EnterEarlyData)|
  {
    hide AfterHello;
  }

  lemma ServerWaitsLate(w: World, st: S.State)
    requires !ServerSends(st) && !BeforeHello(st) && (w.p.resumed ==> S.OnResumedPath(st))
    ensures ServerItems(w, st) == [] || (!w.p.resumed && ServerItems(w, st) == ServerLast(w))
  {
    hide ServerLast;
    hide Msg1;
  }

  /** A machine that waits for input has nothing pending: all it composed is with the transport. */
  lemma ClientHasFlushed(w: World, c: C.Client)
    requires C.Placed(c) && ClientAt(w, c) && StartsIn(ClientRest(w, c)) && !c.wait.Flush?
    ensures c.flight == []
  {
    hide ClientScript;
    hide ClientHash;
    if C.Composing(c.state) {
      ClientSendsFirst(w, c.state);
    }
  }

  lemma ServerHasFlushed(w: World, s: S.Server)
    requires S.Placed(s) && ServerAt(w, s) && StartsIn(ServerRest(w, s)) && !s.wait.Flush?
    ensures s.flight == []
  {
    hide ServerScript;
    hide ServerHash;
    if S.Composing(s.state) {
      ServerSendsFirst(w, s.state);
    }
  }

  /** A turn of the client in which nothing holds it up: its callbacks are ready and the transport takes all. */
  function GoClient(p: Pair): Act
  {
    ClientTurn(true, |p.c.flight|, true)
  }

  function GoServer(p: Pair): Act
  {
    ServerTurn(true, |p.s.flight|, true)
  }

  /** When such a turn does not bring the client nearer to its end, there is nothing for it to read, it has still
      to read something, and it owes the server nothing but what comes after that. */
  lemma ClientStuck(w: World, p: Pair)
    requires Inv(w, p) && !p.c.state.Done?
    requires C.Measure(Step(p, GoClient(p)).c) >= C.Measure(p.c)
    ensures p.toClient == [] && StartsIn(ClientRest(w, p.c)) && p.c.flight == []
  {
    hide ClientAt;
    hide ServerAt;
    hide ClientRest;
    hide ServerRest;
    hide C.Step;
    hide C.Measure;
    hide C.Placed;
    hide S.Placed;
    hide Ins;
    hide Outs;
    hide ClientFits;
    hide Due;
    HeadIsDue(p.toClient, p.s.flight + Outs(ServerRest(w, p.s)), ClientRest(w, p.c));
    ClientFollows(w, p.c, Shown(GoClient(p), p.toClient));
    ClientHasFlushedOrFlushes(w, p);
  }

  lemma ClientHasFlushedOrFlushes(w: World, p: Pair)
    requires Inv(w, p) && StartsIn(ClientRest(w, p.c)) && !p.c.state.Done?
    requires C.Measure(Step(p, GoClient(p)).c) >= C.Measure(p.c)
    ensures p.c.flight == []
  {
    hide ClientRest;
    hide ServerRest;
    hide Ins;
    hide Outs;
    if !p.c.wait.Flush? {
      ClientHasFlushed(w, p.c);
    }
  }

  lemma ServerStuck(w: World, p: Pair)
    requires Inv(w, p) && !p.s.state.Done?
    requires S.Measure(Step(p, GoServer(p)).s) >= S.Measure(p.s)
    ensures p.toServer == [] && StartsIn(ServerRest(w, p.s)) && p.s.flight == []
  {
    hide ClientAt;
    hide ServerAt;
    hide ClientRest;
    hide ServerRest;
    hide S.Step;
    hide S.Measure;
    hide C.Placed;
    hide S.Placed;
    hide Ins;
    hide Outs;
    hide ServerFits;
    hide Due;
    HeadIsDue(p.toServer, p.c.flight + Outs(ClientRest(w, p.c)), ServerRest(w, p.s));
    ServerFollows(w, p.s, Shown(GoServer(p), p.toServer));
    ServerHasFlushedOrFlushes(w, p);
  }

  lemma ServerHasFlushedOrFlushes(w: World, p: Pair)
    requires Inv(w, p) && StartsIn(ServerRest(w, p.s)) && !p.s.state.Done?
    requires S.Measure(Step(p, GoServer(p)).s) >= S.Measure(p.s)
    ensures p.s.flight == []
  {
    hide ClientRest;
    hide ServerRest;
    hide Ins;
    hide Outs;
    if !p.s.wait.Flush? {
      ServerHasFlushed(w, p.s);
    }
  }

  /** While the handshake is not over, at least one machine can take a turn that brings it nearer to its end. */
  lemma NoDeadlock(w: World, p: Pair)
    requires Inv(w, p) && !(p.c.state.Done? && p.s.state.Done?)
    ensures || C.Measure(Step(p, GoClient(p)).c) < C.Measure(p.c)
            || S.Measure(Step(p, GoServer(p)).s) < S.Measure(p.s)
  {
    hide ClientAt;
    hide ServerAt;
    hide ClientRest;
    hide ServerRest;
    hide Step;
    hide C.Measure;
    hide S.Measure;
    hide Ins;
    hide Outs;
    if C.Measure(Step(p, GoClient(p)).c) >= C.Measure(p.c) && S.Measure(Step(p, GoServer(p)).s) >= S.Measure(p.s) {
      if p.c.state.Done? {
        ClientOver(w, p.c);
      } else {
        ClientStuck(w, p);
        StartsInReads(ClientRest(w, p.c));
        ClientWaiting(w, p.c);
      }
      if p.s.state.Done? {
        ServerOver(w, p.s);
      } else {
        ServerStuck(w, p);
        StartsInReads(ServerRest(w, p.s));
        ServerWaiting(w, p.s);
      }
    }
  }

  lemma ClientOver(w: World, c: C.Client)
    requires ClientAt(w, c) && c.state.Done?
    ensures ClientRest(w, c) == [] && Ins(ClientRest(w, c)) == [] && Outs(ClientRest(w, c)) == []
  {
    hide ClientHash;
  }

  lemma ServerOver(w: World, s: S.Server)
    requires ServerAt(w, s) && s.state.Done?
    ensures ServerRest(w, s) == [] && Ins(ServerRest(w, s)) == [] && Outs(ServerRest(w, s)) == []
  {
    hide ServerHash;
  }

  // ---------------------------------------------------------------- whole handshakes

  /** From every state a handshake can be in, it can still be completed. */
  lemma {:induction false} CanFinish(w: World, p: Pair) returns (acts: seq<Act>)
    requires Inv(w, p)
    ensures var q := Run(p, acts);
            Inv(w, q) && q.c.state.Done? && q.s.state.Done?
    decreases C.Measure(p.c) + S.Measure(p.s)
  {
    hide Inv;
    hide C.Measure;
    hide S.Measure;
    hide C.Step;
    hide S.Step;
    if p.c.state.Done? && p.s.state.Done? {
      return [];
    }
    NoDeadlock(w, p);
    var a := if C.Measure(Step(p, GoClient(p)).c) < C.Measure(p.c) then GoClient(p) else GoServer(p);
    StepInv(w, p, a);
    var rest := CanFinish(w, Step(p, a));
    assert ([a] + rest)[1..] == rest;
    return [a] + rest;
  }

  /** Runs stay on the scripts: no machine ever fails, whichever callbacks are slow, whatever flushes block or send
      a part only, and however the turns fall. */
  lemma {:induction false} RunInv(w: World, p: Pair, acts: seq<Act>)
    requires Inv(w, p)
    ensures Inv(w, Run(p, acts))
    ensures var q := Run(p, acts);
            && !q.c.wait.Failed? && !q.s.wait.Failed?
            && (q.c.wait.ReadMessage? || q.c.wait.ReadCcs? ==> q.c.flight == [])
            && (q.s.wait.ReadMessage? || q.s.wait.ReadCcs? ==> q.s.flight == [])
    decreases |acts|
  {
    hide Step;
    if acts == [] {
    } else {
      hide Inv;
      StepInv(w, p, acts[0]);
      RunInv(w, Step(p, acts[0]), acts[1..]);
    }
  }

  /** At each Finished both sides hold the same list of hashed messages, and at the end too. */
  lemma SameTranscripts(w: World, p: Pair)
    requires Inv(w, p)
    ensures p.c.state.SendClientFinished? ==> p.c.hashed + C.Extras(w.p, w.cd) == ClientFinishedCovers(w)
    ensures p.s.state.ReadClientFinished? ==> p.s.hashed == ClientFinishedCovers(w)
    ensures p.s.state.SendServerFinished? ==> p.s.hashed + Ticket(w) == ServerFinishedCovers(w)
    ensures p.c.state.ReadServerFinished? ==> p.c.hashed == ServerFinishedCovers(w)
    ensures p.c.state.Done? && p.s.state.Done? ==>
      p.c.hashed == p.s.hashed && p.toServer == [] == p.toClient && p.c.flight == [] == p.s.flight
  {
    hide UpToClientKey;
    hide HelloPair;
    hide Ticket;
    hide Ins;
    hide Outs;
    if p.c.state.Done? && p.s.state.Done? {
      ClientOver(w, p.c);
      ServerOver(w, p.s);
    }
  }

  /** The whole claim: from the beginning, in every run of a full or resumed handshake, with flushes blocked for as
      long as may be, neither side ever fails, a side that waits for the other has nothing left to send, both can
      still finish, and when they have, they have hashed the same messages and nothing is under way. */
  lemma EveryRun(w: World, c: C.Client, s: S.Server, acts: seq<Act>) returns (more: seq<Act>)
    requires w.Valid() && (w.p.certRequest && s.requireCert ==> w.hasCert) && (w.p.resumed ==> c.offered)
    requires c == C.Initial(c.offered, w.hasCert, c.falseStart, w.cd) && s == S.Initial(w.p, s.requireCert, w.sd)
    ensures var q := Run(Pair(c, s, [], []), acts);
            var e := Run(q, more);
            && !q.c.wait.Failed? && !q.s.wait.Failed?
            && (q.c.wait.ReadMessage? || q.c.wait.ReadCcs? ==> q.c.flight == [])
            && (q.s.wait.ReadMessage? || q.s.wait.ReadCcs? ==> q.s.flight == [])
            && e.c.state.Done? && e.s.state.Done?
            && e.c.hashed == e.s.hashed && e.toServer == [] == e.toClient && e.c.flight == [] == e.s.flight
  {
    hide Inv;
    hide Run;
    Begin(w, c, s);
    RunInv(w, Pair(c, s, [], []), acts);
    var q := Run(Pair(c, s, [], []), acts);
    more := CanFinish(w, q);
    SameTranscripts(w, Run(q, more));
  }
}
