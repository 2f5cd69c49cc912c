/** A client whose channel brings what the script says never fails, and does what the script says. */
module TlsClientScript {
  import opened Octets
  import opened TlsMessageTypes
  import opened TlsScript
  import C = TlsClient

  ghost predicate ClientFits(w: World, c: C.Client, head: Option<Item>, t: C.Turn)
  {
    && ClientAt(w, t.next) && (t.took ==> head.Some?)
    && c.flight <= t.out + t.next.flight
    && ClientRest(w, c) == Did(t.took, head, Added(c.flight, t.out, t.next.flight)) + ClientRest(w, t.next)
  }

  /** Either the machine got nearer to its end, or it waits for an item that is not there, a callback or the
      transport. */
  ghost predicate ClientMoves(w: World, c: C.Client, e: Env, t: C.Turn)
  {
    || C.Measure(t.next) < C.Measure(c) || !e.ready || (c.wait.Flush? && !FlushDone(c.flight, e))
    || (e.head.None? && StartsIn(ClientRest(w, c)))
  }

  lemma ClientBlocks(w: World, c: C.Client, head: Option<Item>, wt: Wait)
    requires ClientAt(w, c) && c.Free() && (wt == ReadMessage || wt == Retry)
    ensures ClientFits(w, c, head, C.Block(c, wt))
  {
    hide ClientHash;
    hide ClientScript;
    assert [] + ClientRest(w, c) == ClientRest(w, c);
    AddedNothing(c.flight, [], c.flight);
    assert Did(false, head, []) == [];
  }

  /** Flushing, all or a part or not at all, leaves what is to be read and composed. */
  lemma ClientFlushes(w: World, c: C.Client, e: Env)
    requires ClientAt(w, c) && c.wait.Flush?
    ensures ClientFits(w, c, e.head, C.DriveFlush(c, e)) && ClientMoves(w, c, e, C.DriveFlush(c, e))
  {
    hide ClientHash;
    hide ClientScript;
    assert [] + ClientRest(w, c) == ClientRest(w, c);
    var n := Flushed(c.flight, e);
    assert c.flight[..n] + c.flight[n..] == c.flight;
    AddedNothing(c.flight, c.flight[..n], c.flight[n..]);
    assert Did(false, e.head, []) == [];
  }

  /** A turn that does what the state's segment says and lands in its successor. */
  lemma ClientComposes(w: World, c: C.Client, head: Option<Item>, t: C.Turn, added: seq<Item>)
    requires ClientAt(w, c) && ClientAt(w, t.next) && c.Free() && !t.next.wait.ReadCcs? && !c.state.Done?
    requires t.next.state == ClientSucc(w, c.state) && (t.took ==> head.Some?)
    requires t.out == [] && t.next.flight == c.flight + added && Did(t.took, head, added) == ClientSeg(w, c.state)
    requires t.next.params.resumed == c.params.resumed || c.state.ReadServerHello?
    ensures ClientFits(w, c, head, t)
    ensures C.Measure(t.next) < C.Measure(c)
  {
    hide ClientHash;
    hide ClientSeg;
    hide Did;
    AddedIs(c.flight, added);
    SuccIsNearer(w, c.state, c.params.resumed, t.next.params.resumed);
  }

  /** The same for a turn that composes nothing. */
  lemma ClientAdvances(w: World, c: C.Client, head: Option<Item>, t: C.Turn)
    requires ClientAt(w, c) && ClientAt(w, t.next) && c.Free() && !t.next.wait.ReadCcs? && !c.state.Done?
    requires t.next.state == ClientSucc(w, c.state) && (t.took ==> head.Some?)
    requires t.out == [] && t.next.flight == c.flight && Did(t.took, head, []) == ClientSeg(w, c.state)
    requires t.next.params.resumed == c.params.resumed || c.state.ReadServerHello?
    ensures ClientFits(w, c, head, t)
    ensures C.Measure(t.next) < C.Measure(c)
  {
    hide ClientFits;
    hide ClientAt;
    hide ClientSeg;
    hide ClientSucc;
    hide Did;
    assert c.flight + [] == c.flight;
    ClientComposes(w, c, head, t, []);
  }

  lemma SuccIsNearer(w: World, st: C.State, before: bool, after: bool)
    requires !st.Done? && ClientPath(w, st)
    requires before == after || st.ReadServerHello?
    requires st.StartConnect? || st.EnterEarlyData? || after == w.p.resumed
    ensures C.Rank(ClientSucc(w, st), after) < C.Rank(st, before)
  {
  }

  /** If the state's segment begins with a read, that is what is due. */
  lemma {:induction false} DueHere(w: World, st: C.State, head: Option<Item>)
    requires !st.Done? && ClientSeg(w, st) != [] && ClientSeg(w, st)[0].In? && Due(ClientScript(w, st), head)
    ensures head.Some? ==> head.value == ClientSeg(w, st)[0].i
    ensures StartsIn(ClientScript(w, st))
  {
    assert ClientScript(w, st)[0] == ClientSeg(w, st)[0];
  }

  /** If the state reads and writes nothing, what is due is due to its successor. */
  lemma {:induction false} DueLater(w: World, st: C.State, head: Option<Item>)
    requires !st.Done? && ClientSeg(w, st) == []
    ensures ClientScript(w, st) == ClientScript(w, ClientSucc(w, st))
  {
    assert [] + ClientScript(w, ClientSucc(w, st)) == ClientScript(w, ClientSucc(w, st));
  }

  /** At an optional message the client may look past it: what is due is the next message there is. */
  lemma {:induction false} DueAtRequest(w: World, head: Option<Item>)
    requires Due(ClientScript(w, C.ReadCertificateRequest), head)
    ensures StartsIn(ClientScript(w, C.ReadCertificateRequest))
    ensures head.Some? ==>
      && head.value.Handshake?
      && TypeOf(head.value.m) == if w.p.certRequest then CertificateRequest else ServerHelloDone
  {
    hide ClientScript;
    if w.p.certRequest {
      DueHere(w, C.ReadCertificateRequest, head);
    } else {
      DueLater(w, C.ReadCertificateRequest, head);
      DueHere(w, C.ReadServerHelloDone, head);
    }
  }

  lemma {:induction false} DueAtKeyExchange(w: World, head: Option<Item>)
    requires Due(ClientScript(w, C.ReadServerKeyExchange), head)
    ensures StartsIn(ClientScript(w, C.ReadServerKeyExchange))
    ensures head.Some? ==>
      && head.value.Handshake? && TypeOf(head.value.m) != CertificateStatus
      && (TypeOf(head.value.m) == ServerKeyExchange <==> w.p.Ske())
  {
    hide ClientScript;
    if w.p.Ske() {
      DueHere(w, C.ReadServerKeyExchange, head);
    } else {
      DueLater(w, C.ReadServerKeyExchange, head);
      DueAtRequest(w, head);
    }
  }

  lemma {:induction false} DueAtStatus(w: World, head: Option<Item>)
    requires Due(ClientScript(w, C.ReadCertificateStatus), head)
    ensures StartsIn(ClientScript(w, C.ReadCertificateStatus))
    ensures head.Some? ==>
      && head.value.Handshake?
      && (TypeOf(head.value.m) == CertificateStatus <==> w.p.certAuth && w.p.status)
  {
    hide ClientScript;
    if w.p.certAuth && w.p.status {
      DueHere(w, C.ReadCertificateStatus, head);
    } else {
      DueLater(w, C.ReadCertificateStatus, head);
      DueLater(w, C.VerifyServerCertificate, head);
      DueAtKeyExchange(w, head);
    }
  }

  lemma ClientReadsHello(w: World, c: C.Client, e: Env)
    requires w.Valid() && ClientAt(w, c) && c.Free() && c.state.ReadServerHello? && e.ok && Due(ClientRest(w, c), e.head)
    ensures ClientFits(w, c, e.head, C.DoReadServerHello(c, e)) && ClientMoves(w, c, e, C.DoReadServerHello(c, e))
  {
    hide ClientScript;
    hide Due;
    hide ClientFits;
    hide C.Measure;
    hide FlushDone;
    DueHere(w, c.state, e.head);
    if e.head.None? {
      ClientBlocks(w, c, e.head, ReadMessage);
    } else {
      OneHead(Hello(w.p, w.sd));
      ClientAdvances(w, c, e.head, C.DoReadServerHello(c, e));
    }
  }

  lemma ClientReadsCertificate(w: World, c: C.Client, e: Env)
    requires w.Valid() && ClientAt(w, c) && c.Free() && c.state.ReadServerCertificate? && e.ok && Due(ClientRest(w, c), e.head)
    ensures ClientFits(w, c, e.head, C.DoReadServerCertificate(c, e)) && ClientMoves(w, c, e, C.DoReadServerCertificate(c, e))
  {
    hide ClientScript;
    hide Due;
    hide ClientFits;
    hide C.Measure;
    hide FlushDone;
    if !w.p.certAuth {
      NoHead(e.head);
      ClientAdvances(w, c, e.head, C.DoReadServerCertificate(c, e));
    } else {
      DueHere(w, c.state, e.head);
      if e.head.None? {
        ClientBlocks(w, c, e.head, ReadMessage);
      } else {
        OneHead(Chain(false, w.sd));
        ClientAdvances(w, c, e.head, C.DoReadServerCertificate(c, e));
      }
    }
  }

  lemma StatusAt(w: World, c: C.Client)
    requires ClientAt(w, c) && c.Free() && c.state.ReadCertificateStatus?
    ensures c.params == w.p
    ensures if w.p.certAuth && w.p.status then
              ClientAt(w, C.Take(c, C.VerifyServerCertificate, Plain(CertificateStatus, w.sd)).next)
            else ClientAt(w, C.Goto(c, C.VerifyServerCertificate).next)
  {
    hide HelloPair;
    hide UpToKeyExchange;
    hide UpToRequest;
    hide UpToHelloDone;
    hide UpToClientCertificate;
    hide UpToClientKey;
    hide UpToVerify;
    hide BeforeClientLast;
    hide UpToProto;
    hide ClientFinishedCovers;
    hide UpToClientFinished;
    hide ServerFinishedCovers;
    hide UpToServerFinished;
    hide Ticket;
    if w.p.certAuth && w.p.status {
    } else {
    }
  }

  lemma StatusTurn(c: C.Client, e: Env)
    requires e.ok && (e.head.Some? ==> e.head.value.Handshake?)
    ensures var t := C.DoReadCertificateStatus(c, e);
            if !c.params.status then t == C.Goto(c, C.VerifyServerCertificate)
            else if e.head.None? then t == C.Block(c, ReadMessage)
            else if TypeOf(e.head.value.m) != CertificateStatus then t == C.Goto(c, C.VerifyServerCertificate)
            else t == C.Take(c, C.VerifyServerCertificate, e.head.value.m)
  {
  }

  lemma StatusHere(w: World, st: C.State)
    requires st.ReadCertificateStatus?
    ensures ClientSeg(w, st) == Opt(w.p.certAuth && w.p.status, In(Handshake(Plain(CertificateStatus, w.sd)))) && ClientSucc(w, st) == C.VerifyServerCertificate
  {
  }

  lemma ClientReadsStatus(w: World, c: C.Client, e: Env)
    requires w.Valid() && ClientAt(w, c) && c.Free() && c.state.ReadCertificateStatus? && e.ok && Due(ClientRest(w, c), e.head)
    ensures ClientFits(w, c, e.head, C.DoReadCertificateStatus(c, e)) && ClientMoves(w, c, e, C.DoReadCertificateStatus(c, e))
  {
    hide ClientScript;
    hide ClientSeg;
    hide ClientSucc;
    hide Due;
    hide ClientFits;
    hide ClientAt;
    hide ClientHash;
    hide C.Measure;
    hide C.DoReadCertificateStatus;
    hide FlushDone;
    StatusHere(w, c.state);
    DueAtStatus(w, e.head);
    StatusAt(w, c);
    StatusTurn(c, e);
    if w.p.status && e.head.None? {
      ClientBlocks(w, c, e.head, ReadMessage);
    } else if w.p.status && w.p.certAuth {
      DueHere(w, c.state, e.head);
      OneHead(Plain(CertificateStatus, w.sd));
      ClientAdvances(w, c, e.head, C.DoReadCertificateStatus(c, e));
    } else {
      NoHead(e.head);
      ClientAdvances(w, c, e.head, C.DoReadCertificateStatus(c, e));
    }
  }

  lemma ClientVerifies(w: World, c: C.Client, e: Env)
    requires w.Valid() && ClientAt(w, c) && c.Free() && c.state.VerifyServerCertificate? && e.ok && Due(ClientRest(w, c), e.head)
    ensures ClientFits(w, c, e.head, C.DoVerifyServerCertificate(c, e)) && ClientMoves(w, c, e, C.DoVerifyServerCertificate(c, e))
  {
    hide ClientScript;
    hide Due;
    hide ClientFits;
    hide C.Measure;
    hide FlushDone;
    if w.p.certAuth && !e.ready {
      ClientBlocks(w, c, e.head, Retry);
    } else {
      NoHead(e.head);
      ClientAdvances(w, c, e.head, C.DoVerifyServerCertificate(c, e));
    }
  }

  lemma ClientReadsKeyExchange(w: World, c: C.Client, e: Env)
    requires w.Valid() && ClientAt(w, c) && c.Free() && c.state.ReadServerKeyExchange? && e.ok && Due(ClientRest(w, c), e.head)
    ensures ClientFits(w, c, e.head, C.DoReadServerKeyExchange(c, e)) && ClientMoves(w, c, e, C.DoReadServerKeyExchange(c, e))
  {
    hide ClientScript;
    hide Due;
    hide ClientFits;
    hide C.Measure;
    hide FlushDone;
    DueAtKeyExchange(w, e.head);
    if e.head.None? {
      ClientBlocks(w, c, e.head, ReadMessage);
    } else if w.p.Ske() {
      DueHere(w, c.state, e.head);
      OneHead(Plain(ServerKeyExchange, w.sd));
      ClientAdvances(w, c, e.head, C.DoReadServerKeyExchange(c, e));
    } else {
      NoHead(e.head);
      ClientAdvances(w, c, e.head, C.DoReadServerKeyExchange(c, e));
    }
  }

  lemma RequestAt(w: World, c: C.Client)
    requires ClientAt(w, c) && c.Free() && c.state.ReadCertificateRequest?
    ensures c.params == w.p
    ensures if w.p.certRequest then
              ClientAt(w, C.Take(c.(certRequest := true), C.ReadServerHelloDone, Plain(CertificateRequest, w.sd)).next)
            else ClientAt(w, C.Goto(c, C.ReadServerHelloDone).next)
  {
    hide HelloPair;
    hide UpToCertificates;
    hide UpToKeyExchange;
    hide UpToHelloDone;
    hide UpToClientCertificate;
    hide UpToClientKey;
    hide UpToVerify;
    hide BeforeClientLast;
    hide UpToProto;
    hide ClientFinishedCovers;
    hide UpToClientFinished;
    hide ServerFinishedCovers;
    hide UpToServerFinished;
    hide Ticket;
    if w.p.certRequest {
    } else {
    }
  }

  lemma RequestTurn(c: C.Client, e: Env)
    requires e.ok && (e.head.Some? ==> e.head.value.Handshake?)
    ensures var t := C.DoReadCertificateRequest(c, e);
            if !c.params.certAuth then t == C.Goto(c, C.ReadServerHelloDone)
            else if e.head.None? then t == C.Block(c, ReadMessage)
            else if TypeOf(e.head.value.m) == ServerHelloDone then t == C.Goto(c, C.ReadServerHelloDone)
            else TypeOf(e.head.value.m) == CertificateRequest ==>
              t == C.Take(c.(certRequest := true), C.ReadServerHelloDone, e.head.value.m)
  {
  }

  lemma RequestHere(w: World, st: C.State)
    requires st.ReadCertificateRequest?
    ensures ClientSeg(w, st) == Opt(w.p.certRequest, In(Handshake(Plain(CertificateRequest, w.sd)))) && ClientSucc(w, st) == C.ReadServerHelloDone
  {
  }

  lemma ClientReadsRequest(w: World, c: C.Client, e: Env)
    requires w.Valid() && ClientAt(w, c) && c.Free() && c.state.ReadCertificateRequest? && e.ok && Due(ClientRest(w, c), e.head)
    ensures ClientFits(w, c, e.head, C.DoReadCertificateRequest(c, e)) && ClientMoves(w, c, e, C.DoReadCertificateRequest(c, e))
  {
    hide ClientScript;
    hide ClientSeg;
    hide ClientSucc;
    hide Due;
    hide ClientFits;
    hide ClientAt;
    hide ClientHash;
    hide C.Measure;
    hide C.DoReadCertificateRequest;
    hide FlushDone;
    RequestHere(w, c.state);
    DueAtRequest(w, e.head);
    RequestAt(w, c);
    RequestTurn(c, e);
    if w.p.certAuth && e.head.None? {
      ClientBlocks(w, c, e.head, ReadMessage);
    } else if w.p.certRequest {
      DueHere(w, c.state, e.head);
      OneHead(Plain(CertificateRequest, w.sd));
      ClientAdvances(w, c, e.head, C.DoReadCertificateRequest(c, e));
    } else {
      NoHead(e.head);
      ClientAdvances(w, c, e.head, C.DoReadCertificateRequest(c, e));
    }
  }

  lemma ClientReadsDone(w: World, c: C.Client, e: Env)
    requires w.Valid() && ClientAt(w, c) && c.Free() && c.state.ReadServerHelloDone? && e.ok && Due(ClientRest(w, c), e.head)
    ensures ClientFits(w, c, e.head, C.ReadPlain(c, e, ServerHelloDone, C.SendClientCertificate)) && ClientMoves(w, c, e, C.ReadPlain(c, e, ServerHelloDone, C.SendClientCertificate))
  {
    hide ClientScript;
    hide Due;
    hide ClientFits;
    hide C.Measure;
    hide FlushDone;
    DueHere(w, c.state, e.head);
    if e.head.None? {
      ClientBlocks(w, c, e.head, ReadMessage);
    } else {
      OneHead(Plain(ServerHelloDone, w.sd));
      ClientAdvances(w, c, e.head, C.ReadPlain(c, e, ServerHelloDone, C.SendClientCertificate));
    }
  }

  lemma ClientSendsCertificate(w: World, c: C.Client, e: Env)
    requires w.Valid() && ClientAt(w, c) && c.Free() && c.state.SendClientCertificate? && e.ok && Due(ClientRest(w, c), e.head)
    ensures ClientFits(w, c, e.head, C.DoSendClientCertificate(c, e)) && ClientMoves(w, c, e, C.DoSendClientCertificate(c, e))
  {
    hide ClientScript;
    hide Due;
    hide ClientFits;
    hide C.Measure;
    hide FlushDone;
    if !w.p.certRequest {
      NoHead(e.head);
      ClientAdvances(w, c, e.head, C.DoSendClientCertificate(c, e));
    } else if !e.ready {
      ClientBlocks(w, c, e.head, Retry);
    } else {
      OneOut(e.head, [Chain(!w.hasCert, w.cd)]);
      ClientComposes(w, c, e.head, C.DoSendClientCertificate(c, e), Handshakes([Chain(!w.hasCert, w.cd)]));
    }
  }

  lemma ClientSendsKeyExchange(w: World, c: C.Client, e: Env)
    requires w.Valid() && ClientAt(w, c) && c.Free() && c.state.SendClientKeyExchange? && e.ok && Due(ClientRest(w, c), e.head)
    ensures ClientFits(w, c, e.head, C.DoSendClientKeyExchange(c, e)) && ClientMoves(w, c, e, C.DoSendClientKeyExchange(c, e))
  {
    hide ClientScript;
    hide Due;
    hide ClientFits;
    hide C.Measure;
    hide FlushDone;
    OneOut(e.head, [Plain(ClientKeyExchange, w.cd)]);
    ClientComposes(w, c, e.head, C.DoSendClientKeyExchange(c, e), Handshakes([Plain(ClientKeyExchange, w.cd)]));
  }

  lemma ClientSendsVerify(w: World, c: C.Client, e: Env)
    requires w.Valid() && ClientAt(w, c) && c.Free() && c.state.SendClientCertificateVerify? && e.ok && Due(ClientRest(w, c), e.head)
    ensures ClientFits(w, c, e.head, C.DoSendClientCertificateVerify(c, e)) && ClientMoves(w, c, e, C.DoSendClientCertificateVerify(c, e))
  {
    hide ClientScript;
    hide Due;
    hide ClientFits;
    hide C.Measure;
    hide FlushDone;
    if !w.p.certRequest || !w.hasCert {
      NoHead(e.head);
      ClientAdvances(w, c, e.head, C.DoSendClientCertificateVerify(c, e));
    } else if !e.ready {
      ClientBlocks(w, c, e.head, Retry);
    } else {
      OneOut(e.head, [Signature(UpToClientKey(w))]);
      ClientComposes(w, c, e.head, C.DoSendClientCertificateVerify(c, e), Handshakes([Signature(UpToClientKey(w))]));
    }
  }

  lemma ClientSendsFinished(w: World, c: C.Client, e: Env)
    requires w.Valid() && ClientAt(w, c) && c.Free() && c.state.SendClientFinished? && e.ok && Due(ClientRest(w, c), e.head)
    ensures ClientFits(w, c, e.head, C.DoSendClientFinished(c, e)) && ClientMoves(w, c, e, C.DoSendClientFinished(c, e))
  {
    hide HelloPair;
    hide UpToCertificates;
    hide UpToKeyExchange;
    hide UpToRequest;
    hide UpToHelloDone;
    hide UpToClientCertificate;
    hide UpToClientKey;
    hide UpToVerify;
    hide BeforeClientLast;
    hide UpToProto;
    hide ServerFinishedCovers;
    hide UpToServerFinished;
    hide Ticket;
    hide ClientScript;
    hide Due;
    hide ClientFits;
    hide C.Measure;
    hide FlushDone;
    if w.p.channelId && !e.ready {
      ClientBlocks(w, c, e.head, Retry);
    } else {
      assert Did(false, e.head, ClientLast(w)) == Writes(ClientLast(w));
      ClientComposes(w, c, e.head, C.DoSendClientFinished(c, e), ClientLast(w));
    }
  }

  lemma ClientFinishesFlight(w: World, c: C.Client, e: Env)
    requires w.Valid() && ClientAt(w, c) && c.Free() && c.state.FinishFlight? && e.ok && Due(ClientRest(w, c), e.head)
    ensures ClientFits(w, c, e.head, C.DoFinishFlight(c)) && ClientMoves(w, c, e, C.DoFinishFlight(c))
  {
    hide HelloPair;
    hide UpToCertificates;
    hide UpToKeyExchange;
    hide UpToRequest;
    hide UpToHelloDone;
    hide UpToClientCertificate;
    hide UpToClientKey;
    hide UpToVerify;
    hide BeforeClientLast;
    hide UpToProto;
    hide ClientFinishedCovers;
    hide UpToClientFinished;
    hide ServerFinishedCovers;
    hide UpToServerFinished;
    hide Ticket;
    hide ClientScript;
    hide Due;
    hide ClientFits;
    hide C.Measure;
    hide FlushDone;
    NoHead(e.head);
    if w.p.resumed {
    } else {
    }
    ClientAdvances(w, c, e.head, C.DoFinishFlight(c));
  }

  lemma ClientReadsFinished(w: World, c: C.Client, e: Env)
    requires w.Valid() && ClientAt(w, c) && c.Free() && c.state.ReadServerFinished? && e.ok && Due(ClientRest(w, c), e.head)
    ensures ClientFits(w, c, e.head, C.DoReadServerFinished(c, e)) && ClientMoves(w, c, e, C.DoReadServerFinished(c, e))
  {
    hide HelloPair;
    hide UpToCertificates;
    hide UpToKeyExchange;
    hide UpToRequest;
    hide UpToHelloDone;
    hide UpToClientCertificate;
    hide UpToClientKey;
    hide UpToVerify;
    hide UpToProto;
    hide ClientFinishedCovers;
    hide UpToClientFinished;
    hide Ticket;
    hide ClientScript;
    hide Due;
    hide ClientFits;
    hide C.Measure;
    hide FlushDone;
    DueHere(w, c.state, e.head);
    if e.head.None? {
      ClientBlocks(w, c, e.head, ReadMessage);
    } else {
      OneHead(Mac(true, ServerFinishedCovers(w)));
      ClientAdvances(w, c, e.head, C.DoReadServerFinished(c, e));
    }
  }

  lemma TicketHashed(w: World, c: C.Client)
    requires c.state.ReadSessionTicket? && c.hashed == ClientHash(w, c.state)
    ensures c.hashed + Ticket(w) == ClientHash(w, C.ProcessChangeCipherSpec)
  {
    hide HelloPair;
    hide UpToCertificates;
    hide UpToKeyExchange;
    hide UpToRequest;
    hide UpToHelloDone;
    hide UpToClientCertificate;
    hide UpToClientKey;
    hide UpToVerify;
    hide BeforeClientLast;
    hide UpToProto;
    hide ClientFinishedCovers;
    hide UpToClientFinished;
    hide UpToServerFinished;
    hide Ticket;
  }

  lemma ClientAsksAt(w: World, c: C.Client, m: Option<Msg>)
    requires ClientAt(w, c) && c.state.ReadSessionTicket?
    requires m == (if w.p.ticket then Some(Plain(NewSessionTicket, w.sd)) else None)
    ensures ClientAt(w, C.AskForCcs(c, m).next)
  {
    TicketHashed(w, c);
    hide ClientHash;
    assert c.hashed + [] == c.hashed;
    if m.Some? {
    } else {
    }
  }

  lemma {:induction false} TicketScript(w: World, st: C.State)
    requires st.ReadSessionTicket?
    ensures ClientScript(w, st)
         == Opt(w.p.ticket, In(Handshake(Plain(NewSessionTicket, w.sd)))) + ([In(Ccs)] + ClientScript(w, C.ProcessChangeCipherSpec))
  {
    Reassociate(Opt(w.p.ticket, In(Handshake(Plain(NewSessionTicket, w.sd)))), [In(Ccs)],
                ClientScript(w, C.ProcessChangeCipherSpec));
  }

  /** With the ticket taken, if there is one, the ChangeCipherSpec is what comes next. */
  lemma ClientAsks(w: World, c: C.Client, head: Option<Item>, m: Option<Msg>)
    requires ClientAt(w, c) && c.Free() && c.state.ReadSessionTicket?
    requires m == (if w.p.ticket then Some(Plain(NewSessionTicket, w.sd)) else None)
    requires m.Some? ==> head == Some(Handshake(m.value))
    ensures ClientFits(w, c, head, C.AskForCcs(c, m)) && C.Measure(C.AskForCcs(c, m).next) < C.Measure(c)
  {
    hide ClientAt;
    hide ClientHash;
    hide Did;
    hide ClientScript;
    hide ClientSeg;
    ClientAsksAt(w, c, m);
    TicketScript(w, c.state);
    assert c.flight <= [] + c.flight && Added(c.flight, [], c.flight) == [];
    if m.None? {
      NoHead(head);
    } else {
      OneHead(m.value);
    }
  }

  lemma ClientReadsTicket(w: World, c: C.Client, e: Env)
    requires w.Valid() && ClientAt(w, c) && c.Free() && c.state.ReadSessionTicket? && Due(ClientRest(w, c), e.head)
    requires e.ok
    ensures ClientFits(w, c, e.head, C.DoReadSessionTicket(c, e)) && ClientMoves(w, c, e, C.DoReadSessionTicket(c, e))
  {
    hide ClientScript;
    hide ClientFits;
    hide ClientHash;
    hide C.AskForCcs;
    hide Due;
    DueHere(w, c.state, e.head);
    if !w.p.ticket {
      ClientAsks(w, c, e.head, None);
    } else if e.head.None? {
      ClientBlocks(w, c, e.head, ReadMessage);
    } else {
      ClientAsks(w, c, e.head, Some(Plain(NewSessionTicket, w.sd)));
    }
  }

  /** The driver finds the ChangeCipherSpec at the head. */
  lemma ClientReadsCcs(w: World, c: C.Client, e: Env)
    requires ClientAt(w, c) && c.wait.ReadCcs? && Due(ClientRest(w, c), e.head)
    ensures ClientFits(w, c, e.head, C.DriveCcs(c, e)) && ClientMoves(w, c, e, C.DriveCcs(c, e))
  {
    hide ClientScript;
    hide ClientHash;
    var rest := ClientRest(w, c);
    assert rest[0] == In(Ccs);
    if e.head.None? {
      NoHead(e.head);
      assert [] + rest == rest;
    } else {
      assert Did(true, e.head, []) == [In(Ccs)];
    }
  }

  lemma ClientStarts(w: World, c: C.Client, e: Env)
    requires ClientAt(w, c) && c.Free() && c.state.StartConnect? && e.ok
    ensures ClientFits(w, c, e.head, C.DoStartConnect(c, e)) && ClientMoves(w, c, e, C.DoStartConnect(c, e))
  {
    hide ClientScript;
    hide ClientFits;
    hide HelloPair;
    hide UpToCertificates;
    hide UpToKeyExchange;
    hide UpToRequest;
    hide UpToHelloDone;
    hide UpToClientCertificate;
    hide UpToClientKey;
    hide UpToVerify;
    hide BeforeClientLast;
    hide UpToProto;
    hide ClientFinishedCovers;
    hide UpToClientFinished;
    hide ServerFinishedCovers;
    hide UpToServerFinished;
    hide Ticket;
    NoHead(e.head);
    assert Did(false, e.head, [Handshake(Plain(ClientHello, w.cd))]) == [Out(Handshake(Plain(ClientHello, w.cd)))];
    ClientComposes(w, c, e.head, C.DoStartConnect(c, e), [Handshake(Plain(ClientHello, w.cd))]);
  }

  lemma ClientEnters(w: World, c: C.Client, e: Env)
    requires ClientAt(w, c) && c.Free() && c.state.EnterEarlyData? && e.ok
    ensures ClientFits(w, c, e.head, C.Goto(c, C.ReadServerHello)) && ClientMoves(w, c, e, C.Goto(c, C.ReadServerHello))
  {
    hide ClientScript;
    hide ClientFits;
    hide HelloPair;
    hide UpToCertificates;
    hide UpToKeyExchange;
    hide UpToRequest;
    hide UpToHelloDone;
    hide UpToClientCertificate;
    hide UpToClientKey;
    hide UpToVerify;
    hide BeforeClientLast;
    hide UpToProto;
    hide ClientFinishedCovers;
    hide UpToClientFinished;
    hide ServerFinishedCovers;
    hide UpToServerFinished;
    hide Ticket;
    NoHead(e.head);
    ClientAdvances(w, c, e.head, C.Goto(c, C.ReadServerHello));
  }

  lemma ClientProcesses(w: World, c: C.Client, e: Env)
    requires ClientAt(w, c) && c.Free() && c.state.ProcessChangeCipherSpec? && e.ok
    ensures ClientFits(w, c, e.head, C.Pass(c, e, C.ReadServerFinished)) && ClientMoves(w, c, e, C.Pass(c, e, C.ReadServerFinished))
  {
    hide ClientScript;
    hide ClientFits;
    hide HelloPair;
    hide UpToCertificates;
    hide UpToKeyExchange;
    hide UpToRequest;
    hide UpToHelloDone;
    hide UpToClientCertificate;
    hide UpToClientKey;
    hide UpToVerify;
    hide BeforeClientLast;
    hide UpToProto;
    hide ClientFinishedCovers;
    hide UpToClientFinished;
    hide ServerFinishedCovers;
    hide UpToServerFinished;
    hide Ticket;
    NoHead(e.head);
    ClientAdvances(w, c, e.head, C.Pass(c, e, C.ReadServerFinished));
  }

  lemma ClientEnds(w: World, c: C.Client, e: Env)
    requires ClientAt(w, c) && c.Free() && c.state.FinishClientHandshake? && e.ok
    ensures ClientFits(w, c, e.head, C.Pass(c, e, C.Done)) && ClientMoves(w, c, e, C.Pass(c, e, C.Done))
  {
    hide ClientScript;
    hide ClientFits;
    hide HelloPair;
    hide UpToCertificates;
    hide UpToKeyExchange;
    hide UpToRequest;
    hide UpToHelloDone;
    hide UpToClientCertificate;
    hide UpToClientKey;
    hide UpToVerify;
    hide BeforeClientLast;
    hide UpToProto;
    hide ClientFinishedCovers;
    hide UpToClientFinished;
    hide ServerFinishedCovers;
    hide UpToServerFinished;
    hide Ticket;
    NoHead(e.head);
    ClientAdvances(w, c, e.head, C.Pass(c, e, C.Done));
  }

  /** No turn of a client on its script fails; each does the next part of the script, or waits. */
  lemma ClientFollows(w: World, c: C.Client, e: Env)
    requires w.Valid() && ClientAt(w, c) && !c.state.Done? && e.ok && Due(ClientRest(w, c), e.head)
    ensures ClientFits(w, c, e.head, C.Step(c, e)) && ClientMoves(w, c, e, C.Step(c, e))
  {
    hide C.DoStartConnect;
    hide C.DoReadServerHello;
    hide C.DoReadServerCertificate;
    hide C.DoReadCertificateStatus;
    hide C.DoVerifyServerCertificate;
    hide C.DoReadServerKeyExchange;
    hide C.DoReadCertificateRequest;
    hide C.DoSendClientCertificate;
    hide C.DoSendClientKeyExchange;
    hide C.DoSendClientCertificateVerify;
    hide C.DoSendClientFinished;
    hide C.DoFinishFlight;
    hide C.DoReadSessionTicket;
    hide C.DoReadServerFinished;
    hide C.ReadPlain;
    hide C.Pass;
    hide C.DriveCcs;
    hide C.DriveFlush;
    hide C.Goto;
    hide ClientFits;
    hide ClientMoves;
    hide ClientHash;
    hide Due;
    if c.wait.ReadCcs? {
      ClientReadsCcs(w, c, e);
    } else if c.wait.Flush? {
      ClientFlushes(w, c, e);
    } else {
      match c.state
      case ReadServerHello => ClientReadsHello(w, c, e);
      case ReadServerCertificate => ClientReadsCertificate(w, c, e);
      case ReadCertificateStatus => ClientReadsStatus(w, c, e);
      case VerifyServerCertificate => ClientVerifies(w, c, e);
      case ReadServerKeyExchange => ClientReadsKeyExchange(w, c, e);
      case ReadCertificateRequest => ClientReadsRequest(w, c, e);
      case ReadServerHelloDone => ClientReadsDone(w, c, e);
      case SendClientCertificate => ClientSendsCertificate(w, c, e);
      case SendClientKeyExchange => ClientSendsKeyExchange(w, c, e);
      case SendClientCertificateVerify => ClientSendsVerify(w, c, e);
      case SendClientFinished => ClientSendsFinished(w, c, e);
      case FinishFlight => ClientFinishesFlight(w, c, e);
      case ReadSessionTicket => ClientReadsTicket(w, c, e);
      case ReadServerFinished => ClientReadsFinished(w, c, e);
      case StartConnect => ClientStarts(w, c, e);
      case EnterEarlyData => ClientEnters(w, c, e);
      case ProcessChangeCipherSpec => ClientProcesses(w, c, e);
      case FinishClientHandshake => ClientEnds(w, c, e);
    }
  }
}
