/** A server whose channel brings what the script says never fails, and does what the script says. */
module TlsServerScript {
  import opened Octets
  import opened TlsMessageTypes
  import opened TlsScript
  import S = TlsServer

  ghost predicate ServerFits(w: World, s: S.Server, head: Option<Item>, t: S.Turn)
  {
    && ServerAt(w, t.next) && (t.took ==> head.Some?)
    && s.flight <= t.out + t.next.flight
    && ServerRest(w, s) == Did(t.took, head, Added(s.flight, t.out, t.next.flight)) + ServerRest(w, t.next)
  }

  /** Either the machine got nearer to its end, or it waits for an item that is not there, a callback or the
      transport. */
  ghost predicate ServerMoves(w: World, s: S.Server, e: Env, t: S.Turn)
  {
    || S.Measure(t.next) < S.Measure(s) || !e.ready || (s.wait.Flush? && !FlushDone(s.flight, e))
    || (e.head.None? && StartsIn(ServerRest(w, s)))
  }

  lemma ServerBlocks(w: World, s: S.Server, head: Option<Item>, wt: Wait)
    requires ServerAt(w, s) && s.Free() && (wt == ReadMessage || wt == Retry)
    ensures ServerFits(w, s, head, S.Block(s, wt))
  {
    hide ServerHash;
    hide ServerScript;
    assert [] + ServerRest(w, s) == ServerRest(w, s);
    AddedNothing(s.flight, [], s.flight);
    assert Did(false, head, []) == [];
  }

  /** Flushing, all or a part or not at all, leaves what is to be read and composed. */
  lemma ServerFlushes(w: World, s: S.Server, e: Env)
    requires ServerAt(w, s) && s.wait.Flush?
    ensures ServerFits(w, s, e.head, S.DriveFlush(s, e)) && ServerMoves(w, s, e, S.DriveFlush(s, e))
  {
    hide ServerHash;
    hide ServerScript;
    assert [] + ServerRest(w, s) == ServerRest(w, s);
    var n := Flushed(s.flight, e);
    assert s.flight[..n] + s.flight[n..] == s.flight;
    AddedNothing(s.flight, s.flight[..n], s.flight[n..]);
    assert Did(false, e.head, []) == [];
  }

  /** A turn that does what the state's segment says and lands in its successor. */
  lemma ServerComposes(w: World, s: S.Server, head: Option<Item>, t: S.Turn, added: seq<Item>)
    requires ServerAt(w, s) && ServerAt(w, t.next) && s.Free() && !t.next.wait.ReadCcs? && !s.state.Done?
    requires t.next.state == ServerSucc(w, s.state) && (t.took ==> head.Some?)
    requires t.out == [] && t.next.flight == s.flight + added && Did(t.took, head, added) == ServerSeg(w, s.state)
    ensures ServerFits(w, s, head, t)
    ensures S.Measure(t.next) < S.Measure(s)
  {
    hide ServerHash;
    hide ServerSeg;
    hide Did;
    AddedIs(s.flight, added);
    SuccIsNearer(w, s.state);
  }

  /** The same for a turn that composes nothing. */
  lemma ServerAdvances(w: World, s: S.Server, head: Option<Item>, t: S.Turn)
    requires ServerAt(w, s) && ServerAt(w, t.next) && s.Free() && !t.next.wait.ReadCcs? && !s.state.Done?
    requires t.next.state == ServerSucc(w, s.state) && (t.took ==> head.Some?)
    requires t.out == [] && t.next.flight == s.flight && Did(t.took, head, []) == ServerSeg(w, s.state)
    ensures ServerFits(w, s, head, t)
    ensures S.Measure(t.next) < S.Measure(s)
  {
    hide ServerFits;
    hide ServerAt;
    hide ServerSeg;
    hide ServerSucc;
    hide Did;
    assert s.flight + [] == s.flight;
    ServerComposes(w, s, head, t, []);
  }

  lemma SuccIsNearer(w: World, st: S.State)
    requires !st.Done? && (w.p.resumed ==> S.OnResumedPath(st))
    ensures S.Rank(ServerSucc(w, st), w.p.resumed) < S.Rank(st, w.p.resumed)
  {
  }

  /** If the state's segment begins with a read, that is what is due. */
  lemma {:induction false} DueHere(w: World, st: S.State, head: Option<Item>)
    requires !st.Done? && ServerSeg(w, st) != [] && ServerSeg(w, st)[0].In? && Due(ServerScript(w, st), head)
    ensures head.Some? ==> head.value == ServerSeg(w, st)[0].i
    ensures StartsIn(ServerScript(w, st))
  {
    assert ServerScript(w, st)[0] == ServerSeg(w, st)[0];
  }

  /** If the state reads and writes nothing, what is due is due to its successor. */
  lemma {:induction false} DueLater(w: World, st: S.State)
    requires !st.Done? && ServerSeg(w, st) == []
    ensures ServerScript(w, st) == ServerScript(w, ServerSucc(w, st))
  {
    assert [] + ServerScript(w, ServerSucc(w, st)) == ServerScript(w, ServerSucc(w, st));
  }

  /** The ClientHello is due in all three states that look at it. */
  lemma {:induction false} DueAtHello(w: World, st: S.State, head: Option<Item>)
    requires st.ReadClientHello? || st.SelectCertificate? || st.SelectParameters?
    requires Due(ServerScript(w, st), head)
    ensures head.Some? ==> head.value == Handshake(Plain(ClientHello, w.cd))
    ensures StartsIn(ServerScript(w, st))
    decreases S.Rank(st, false)
  {
    hide ServerScript;
    hide Due;
    if st.ReadClientHello? {
      DueLater(w, st);
      DueAtHello(w, S.SelectCertificate, head);
    } else if st.SelectCertificate? {
      DueLater(w, st);
      DueAtHello(w, S.SelectParameters, head);
    } else {
      DueHere(w, st, head);
    }
  }

  lemma ServerReadsHello(w: World, s: S.Server, e: Env)
    requires w.Valid() && ServerAt(w, s) && s.Free() && s.state.ReadClientHello? && e.ok && Due(ServerRest(w, s), e.head)
    ensures ServerFits(w, s, e.head, S.DoReadClientHello(s, e)) && ServerMoves(w, s, e, S.DoReadClientHello(s, e))
  {
    hide ServerScript;
    hide Due;
    hide ServerFits;
    hide S.Measure;
    hide FlushDone;
    hide HelloPair;
    hide UpToCertificates;
    hide UpToKeyExchange;
    hide UpToRequest;
    hide UpToHelloDone;
    hide UpToClientCertificate;
    hide UpToClientKey;
    hide UpToVerify;
    hide BeforeClientLast;
    hide UpToProto;
    hide ClientFinishedCovers;
    hide UpToClientFinished;
    hide ServerFinishedCovers;
    hide UpToServerFinished;
    hide Ticket;
    DueAtHello(w, s.state, e.head);
    if e.head.None? {
      ServerBlocks(w, s, e.head, ReadMessage);
    } else if !e.ready {
      ServerBlocks(w, s, e.head, Retry);
    } else {
      NoHead(e.head);
      ServerAdvances(w, s, e.head, S.DoReadClientHello(s, e));
    }
  }

  lemma ServerSelectsCertificate(w: World, s: S.Server, e: Env)
    requires w.Valid() && ServerAt(w, s) && s.Free() && s.state.SelectCertificate? && e.ok && Due(ServerRest(w, s), e.head)
    ensures ServerFits(w, s, e.head, S.DoSelectCertificate(s, e)) && ServerMoves(w, s, e, S.DoSelectCertificate(s, e))
  {
    hide ServerScript;
    hide Due;
    hide ServerFits;
    hide S.Measure;
    hide FlushDone;
    hide HelloPair;
    hide UpToCertificates;
    hide UpToKeyExchange;
    hide UpToRequest;
    hide UpToHelloDone;
    hide UpToClientCertificate;
    hide UpToClientKey;
    hide UpToVerify;
    hide BeforeClientLast;
    hide UpToProto;
    hide ClientFinishedCovers;
    hide UpToClientFinished;
    hide ServerFinishedCovers;
    hide UpToServerFinished;
    hide Ticket;
    DueAtHello(w, s.state, e.head);
    if e.head.None? {
      ServerBlocks(w, s, e.head, ReadMessage);
    } else if !e.ready {
      ServerBlocks(w, s, e.head, Retry);
    } else {
      NoHead(e.head);
      ServerAdvances(w, s, e.head, S.DoSelectCertificate(s, e));
    }
  }

  lemma ServerSelectsParameters(w: World, s: S.Server, e: Env)
    requires w.Valid() && ServerAt(w, s) && s.Free() && s.state.SelectParameters? && e.ok && Due(ServerRest(w, s), e.head)
    ensures ServerFits(w, s, e.head, S.DoSelectParameters(s, e)) && ServerMoves(w, s, e, S.DoSelectParameters(s, e))
  {
    hide ServerScript;
    hide Due;
    hide ServerFits;
    hide S.Measure;
    hide FlushDone;
    hide HelloPair;
    hide UpToCertificates;
    hide UpToKeyExchange;
    hide UpToRequest;
    hide UpToHelloDone;
    hide UpToClientCertificate;
    hide UpToClientKey;
    hide UpToVerify;
    hide BeforeClientLast;
    hide UpToProto;
    hide ClientFinishedCovers;
    hide UpToClientFinished;
    hide ServerFinishedCovers;
    hide UpToServerFinished;
    hide Ticket;
    DueAtHello(w, s.state, e.head);
    if e.head.None? {
      ServerBlocks(w, s, e.head, ReadMessage);
    } else if !e.ready {
      ServerBlocks(w, s, e.head, Retry);
    } else {
      OneHead(Plain(ClientHello, w.cd));
      ServerAdvances(w, s, e.head, S.DoSelectParameters(s, e));
    }
  }

  lemma ServerSendsHello(w: World, s: S.Server, e: Env)
    requires w.Valid() && ServerAt(w, s) && s.Free() && s.state.SendServerHello? && e.ok && Due(ServerRest(w, s), e.head)
    ensures ServerFits(w, s, e.head, S.DoSendServerHello(s, e)) && ServerMoves(w, s, e, S.DoSendServerHello(s, e))
  {
    hide ServerScript;
    hide Due;
    hide ServerFits;
    hide S.Measure;
    hide FlushDone;
    hide UpToCertificates;
    hide UpToKeyExchange;
    hide UpToRequest;
    hide UpToHelloDone;
    hide UpToClientCertificate;
    hide UpToClientKey;
    hide UpToVerify;
    hide BeforeClientLast;
    hide UpToProto;
    hide ClientFinishedCovers;
    hide UpToClientFinished;
    hide ServerFinishedCovers;
    hide UpToServerFinished;
    hide Ticket;
    OneOut(e.head, [Hello(w.p, w.sd)]);
    if w.p.resumed {
      ServerComposes(w, s, e.head, S.DoSendServerHello(s, e), Handshakes([Hello(w.p, w.sd)]));
    } else {
      ServerComposes(w, s, e.head, S.DoSendServerHello(s, e), Handshakes([Hello(w.p, w.sd)]));
    }
  }

  lemma ServerSendsCertificate(w: World, s: S.Server, e: Env)
    requires w.Valid() && ServerAt(w, s) && s.Free() && s.state.SendServerCertificate? && e.ok && Due(ServerRest(w, s), e.head)
    ensures ServerFits(w, s, e.head, S.DoSendServerCertificate(s, e)) && ServerMoves(w, s, e, S.DoSendServerCertificate(s, e))
  {
    hide ServerScript;
    hide Due;
    hide ServerFits;
    hide S.Measure;
    hide FlushDone;
    hide HelloPair;
    hide UpToKeyExchange;
    hide UpToRequest;
    hide UpToHelloDone;
    hide UpToClientCertificate;
    hide UpToClientKey;
    hide UpToVerify;
    hide BeforeClientLast;
    hide UpToProto;
    hide ClientFinishedCovers;
    hide UpToClientFinished;
    hide ServerFinishedCovers;
    hide UpToServerFinished;
    hide Ticket;
    OneOut(e.head, S.CertificateFlight(w.p, w.sd));
    ServerComposes(w, s, e.head, S.DoSendServerCertificate(s, e), Handshakes(S.CertificateFlight(w.p, w.sd)));
  }

  lemma ServerSendsKeyExchange(w: World, s: S.Server, e: Env)
    requires w.Valid() && ServerAt(w, s) && s.Free() && s.state.SendServerKeyExchange? && e.ok && Due(ServerRest(w, s), e.head)
    ensures ServerFits(w, s, e.head, S.DoSendServerKeyExchange(s, e)) && ServerMoves(w, s, e, S.DoSendServerKeyExchange(s, e))
  {
    hide ServerScript;
    hide Due;
    hide ServerFits;
    hide S.Measure;
    hide FlushDone;
    hide HelloPair;
    hide UpToCertificates;
    hide UpToRequest;
    hide UpToHelloDone;
    hide UpToClientCertificate;
    hide UpToClientKey;
    hide UpToVerify;
    hide BeforeClientLast;
    hide UpToProto;
    hide ClientFinishedCovers;
    hide UpToClientFinished;
    hide ServerFinishedCovers;
    hide UpToServerFinished;
    hide Ticket;
    if !w.p.Ske() {
      NoHead(e.head);
      ServerAdvances(w, s, e.head, S.DoSendServerKeyExchange(s, e));
    } else if w.p.certAuth && !e.ready {
      ServerBlocks(w, s, e.head, Retry);
    } else {
      OneOut(e.head, [Plain(ServerKeyExchange, w.sd)]);
      ServerComposes(w, s, e.head, S.DoSendServerKeyExchange(s, e), Handshakes([Plain(ServerKeyExchange, w.sd)]));
    }
  }

  lemma ServerSendsHelloDone(w: World, s: S.Server, e: Env)
    requires w.Valid() && ServerAt(w, s) && s.Free() && s.state.SendServerHelloDone? && e.ok && Due(ServerRest(w, s), e.head)
    ensures ServerFits(w, s, e.head, S.DoSendServerHelloDone(s, e)) && ServerMoves(w, s, e, S.DoSendServerHelloDone(s, e))
  {
    hide ServerScript;
    hide Due;
    hide ServerFits;
    hide S.Measure;
    hide FlushDone;
    hide HelloPair;
    hide UpToCertificates;
    hide UpToKeyExchange;
    hide UpToRequest;
    hide UpToHelloDone;
    hide UpToClientCertificate;
    hide UpToClientKey;
    hide UpToVerify;
    hide BeforeClientLast;
    hide UpToProto;
    hide ClientFinishedCovers;
    hide UpToClientFinished;
    hide ServerFinishedCovers;
    hide UpToServerFinished;
    hide Ticket;
    OneOut(e.head, S.HelloDoneFlight(w.p, w.sd));
    HelloDoneHashed(w);
    ServerComposes(w, s, e.head, S.DoSendServerHelloDone(s, e), Handshakes(S.HelloDoneFlight(w.p, w.sd)));
  }

  lemma ServerReadsCertificate(w: World, s: S.Server, e: Env)
    requires w.Valid() && ServerAt(w, s) && s.Free() && s.state.ReadClientCertificate? && e.ok && Due(ServerRest(w, s), e.head)
    ensures ServerFits(w, s, e.head, S.DoReadClientCertificate(s, e)) && ServerMoves(w, s, e, S.DoReadClientCertificate(s, e))
  {
    hide ServerScript;
    hide Due;
    hide ServerFits;
    hide S.Measure;
    hide FlushDone;
    hide HelloPair;
    hide UpToCertificates;
    hide UpToKeyExchange;
    hide UpToRequest;
    hide UpToHelloDone;
    hide UpToClientKey;
    hide UpToVerify;
    hide BeforeClientLast;
    hide UpToProto;
    hide ClientFinishedCovers;
    hide UpToClientFinished;
    hide ServerFinishedCovers;
    hide UpToServerFinished;
    hide Ticket;
    if !w.p.certRequest {
      NoHead(e.head);
      ServerAdvances(w, s, e.head, S.DoReadClientCertificate(s, e));
    } else {
      DueHere(w, s.state, e.head);
      if e.head.None? {
        ServerBlocks(w, s, e.head, ReadMessage);
      } else {
        OneHead(Chain(!w.hasCert, w.cd));
        ServerAdvances(w, s, e.head, S.DoReadClientCertificate(s, e));
      }
    }
  }

  lemma ServerVerifies(w: World, s: S.Server, e: Env)
    requires w.Valid() && ServerAt(w, s) && s.Free() && s.state.VerifyClientCertificate? && e.ok && Due(ServerRest(w, s), e.head)
    ensures ServerFits(w, s, e.head, S.DoVerifyClientCertificate(s, e)) && ServerMoves(w, s, e, S.DoVerifyClientCertificate(s, e))
  {
    hide ServerScript;
    hide Due;
    hide ServerFits;
    hide S.Measure;
    hide FlushDone;
    hide HelloPair;
    hide UpToCertificates;
    hide UpToKeyExchange;
    hide UpToRequest;
    hide UpToHelloDone;
    hide UpToClientCertificate;
    hide UpToClientKey;
    hide UpToVerify;
    hide BeforeClientLast;
    hide UpToProto;
    hide ClientFinishedCovers;
    hide UpToClientFinished;
    hide ServerFinishedCovers;
    hide UpToServerFinished;
    hide Ticket;
    if s.peerKey && !e.ready {
      ServerBlocks(w, s, e.head, Retry);
    } else {
      NoHead(e.head);
      ServerAdvances(w, s, e.head, S.DoVerifyClientCertificate(s, e));
    }
  }

  lemma ServerReadsKeyExchange(w: World, s: S.Server, e: Env)
    requires w.Valid() && ServerAt(w, s) && s.Free() && s.state.ReadClientKeyExchange? && e.ok && Due(ServerRest(w, s), e.head)
    ensures ServerFits(w, s, e.head, S.DoReadClientKeyExchange(s, e)) && ServerMoves(w, s, e, S.DoReadClientKeyExchange(s, e))
  {
    hide ServerScript;
    hide Due;
    hide ServerFits;
    hide S.Measure;
    hide FlushDone;
    hide HelloPair;
    hide UpToCertificates;
    hide UpToKeyExchange;
    hide UpToRequest;
    hide UpToHelloDone;
    hide UpToClientCertificate;
    hide UpToVerify;
    hide BeforeClientLast;
    hide UpToProto;
    hide ClientFinishedCovers;
    hide UpToClientFinished;
    hide ServerFinishedCovers;
    hide UpToServerFinished;
    hide Ticket;
    DueHere(w, s.state, e.head);
    if e.head.None? {
      ServerBlocks(w, s, e.head, ReadMessage);
    } else if !e.ready {
      ServerBlocks(w, s, e.head, Retry);
    } else {
      OneHead(Plain(ClientKeyExchange, w.cd));
      ServerAdvances(w, s, e.head, S.DoReadClientKeyExchange(s, e));
    }
  }

  lemma ServerReadsVerify(w: World, s: S.Server, e: Env)
    requires w.Valid() && ServerAt(w, s) && s.Free() && s.state.ReadClientCertificateVerify? && e.ok && Due(ServerRest(w, s), e.head)
    ensures ServerFits(w, s, e.head, S.DoReadClientCertificateVerify(s, e)) && ServerMoves(w, s, e, S.DoReadClientCertificateVerify(s, e))
  {
    hide ServerScript;
    hide Due;
    hide ServerFits;
    hide S.Measure;
    hide FlushDone;
    hide HelloPair;
    hide UpToCertificates;
    hide UpToKeyExchange;
    hide UpToRequest;
    hide UpToHelloDone;
    hide UpToClientCertificate;
    hide UpToClientKey;
    hide UpToProto;
    hide ClientFinishedCovers;
    hide UpToClientFinished;
    hide ServerFinishedCovers;
    hide UpToServerFinished;
    hide Ticket;
    if !s.peerKey {
      NoHead(e.head);
      ServerAdvances(w, s, e.head, S.DoReadClientCertificateVerify(s, e));
    } else {
      DueHere(w, s.state, e.head);
      if e.head.None? {
        ServerBlocks(w, s, e.head, ReadMessage);
      } else {
        OneHead(Signature(UpToClientKey(w)));
        ServerAdvances(w, s, e.head, S.DoReadClientCertificateVerify(s, e));
      }
    }
  }

  lemma ServerReadsProto(w: World, s: S.Server, e: Env)
    requires w.Valid() && ServerAt(w, s) && s.Free() && s.state.ReadNextProto? && e.ok && Due(ServerRest(w, s), e.head)
    ensures ServerFits(w, s, e.head, S.DoReadNextProto(s, e)) && ServerMoves(w, s, e, S.DoReadNextProto(s, e))
  {
    hide ServerScript;
    hide Due;
    hide ServerFits;
    hide S.Measure;
    hide FlushDone;
    hide ServerAt;
    ProtoHashed(w, s);
    if !w.p.npn {
      NoHead(e.head);
      ServerAdvances(w, s, e.head, S.Goto(s, S.ReadChannelId));
    } else {
      DueHere(w, s.state, e.head);
      if e.head.None? {
        ServerBlocks(w, s, e.head, ReadMessage);
      } else {
        OneHead(Plain(NextProto, w.cd));
        ServerAdvances(w, s, e.head, S.Take(s, S.ReadChannelId, Plain(NextProto, w.cd)));
      }
    }
  }

  lemma ProtoHashed(w: World, s: S.Server)
    requires ServerAt(w, s) && s.Free() && s.state.ReadNextProto?
    ensures s.params == w.p
    ensures w.p.npn ==> ServerAt(w, S.Take(s, S.ReadChannelId, Plain(NextProto, w.cd)).next)
    ensures !w.p.npn ==> ServerAt(w, S.Goto(s, S.ReadChannelId).next)
  {
    hide HelloPair;
    hide UpToCertificates;
    hide UpToKeyExchange;
    hide UpToRequest;
    hide UpToHelloDone;
    hide UpToClientCertificate;
    hide UpToClientKey;
    hide UpToVerify;
    hide BeforeClientLast;
    hide UpToClientFinished;
    hide ServerFinishedCovers;
    hide UpToServerFinished;
    hide Ticket;
  }

  lemma ServerReadsId(w: World, s: S.Server, e: Env)
    requires w.Valid() && ServerAt(w, s) && s.Free() && s.state.ReadChannelId? && e.ok && Due(ServerRest(w, s), e.head)
    ensures ServerFits(w, s, e.head, S.DoReadChannelId(s, e)) && ServerMoves(w, s, e, S.DoReadChannelId(s, e))
  {
    hide ServerScript;
    hide Due;
    hide ServerFits;
    hide S.Measure;
    hide FlushDone;
    hide ServerAt;
    IdHashed(w, s);
    if !w.p.channelId {
      NoHead(e.head);
      ServerAdvances(w, s, e.head, S.Goto(s, S.ReadClientFinished));
    } else {
      DueHere(w, s.state, e.head);
      if e.head.None? {
        ServerBlocks(w, s, e.head, ReadMessage);
      } else {
        OneHead(Plain(ChannelId, w.cd));
        ServerAdvances(w, s, e.head, S.Take(s, S.ReadClientFinished, Plain(ChannelId, w.cd)));
      }
    }
  }

  lemma IdHashed(w: World, s: S.Server)
    requires ServerAt(w, s) && s.Free() && s.state.ReadChannelId?
    ensures s.params == w.p
    ensures w.p.channelId ==> ServerAt(w, S.Take(s, S.ReadClientFinished, Plain(ChannelId, w.cd)).next)
    ensures !w.p.channelId ==> ServerAt(w, S.Goto(s, S.ReadClientFinished).next)
  {
    hide HelloPair;
    hide UpToCertificates;
    hide UpToKeyExchange;
    hide UpToRequest;
    hide UpToHelloDone;
    hide UpToClientCertificate;
    hide UpToClientKey;
    hide UpToVerify;
    hide BeforeClientLast;
    hide UpToClientFinished;
    hide ServerFinishedCovers;
    hide UpToServerFinished;
    hide Ticket;
  }

  lemma ServerReadsFinished(w: World, s: S.Server, e: Env)
    requires w.Valid() && ServerAt(w, s) && s.Free() && s.state.ReadClientFinished? && e.ok && Due(ServerRest(w, s), e.head)
    ensures ServerFits(w, s, e.head, S.DoReadClientFinished(s, e)) && ServerMoves(w, s, e, S.DoReadClientFinished(s, e))
  {
    hide ServerScript;
    hide Due;
    hide ServerFits;
    hide S.Measure;
    hide FlushDone;
    hide HelloPair;
    hide UpToCertificates;
    hide UpToKeyExchange;
    hide UpToRequest;
    hide UpToHelloDone;
    hide UpToClientCertificate;
    hide UpToClientKey;
    hide UpToVerify;
    hide BeforeClientLast;
    hide UpToProto;
    hide ClientFinishedCovers;
    hide ServerFinishedCovers;
    hide UpToServerFinished;
    hide Ticket;
    DueHere(w, s.state, e.head);
    if e.head.None? {
      ServerBlocks(w, s, e.head, ReadMessage);
    } else {
      OneHead(Mac(false, ClientFinishedCovers(w)));
      ServerAdvances(w, s, e.head, S.DoReadClientFinished(s, e));
    }
  }

  lemma ServerSendsFinished(w: World, s: S.Server, e: Env)
    requires w.Valid() && ServerAt(w, s) && s.Free() && s.state.SendServerFinished? && e.ok && Due(ServerRest(w, s), e.head)
    ensures ServerFits(w, s, e.head, S.DoSendServerFinished(s, e)) && ServerMoves(w, s, e, S.DoSendServerFinished(s, e))
  {
    hide ServerScript;
    hide Due;
    hide ServerFits;
    hide S.Measure;
    hide FlushDone;
    hide HelloPair;
    hide UpToCertificates;
    hide UpToKeyExchange;
    hide UpToRequest;
    hide UpToHelloDone;
    hide UpToClientCertificate;
    hide UpToClientKey;
    hide UpToVerify;
    hide BeforeClientLast;
    hide UpToProto;
    hide ClientFinishedCovers;
    hide UpToClientFinished;
    hide ServerFinishedCovers;
    hide UpToServerFinished;
    assert Did(false, e.head, ServerLast(w)) == Writes(ServerLast(w));
    LastHashed(w, s);
    if w.p.resumed {
      ServerComposes(w, s, e.head, S.DoSendServerFinished(s, e), ServerLast(w));
    } else {
      ServerComposes(w, s, e.head, S.DoSendServerFinished(s, e), ServerLast(w));
    }
  }

  lemma HelloDoneHashed(w: World)
    ensures UpToKeyExchange(w) + S.HelloDoneFlight(w.p, w.sd) == UpToHelloDone(w)
  {
    hide UpToKeyExchange;
  }

  lemma LastHashed(w: World, s: S.Server)
    requires s.state.SendServerFinished? && s.hashed == ServerHash(w, s.state)
    ensures s.hashed + Ticket(w) == ServerFinishedCovers(w)
    ensures s.hashed + Ticket(w) + [Mac(true, s.hashed + Ticket(w))]
         == if w.p.resumed then BeforeClientLast(w) else UpToServerFinished(w)
  {
    hide UpToClientFinished;
    hide HelloPair;
    hide UpToVerify;
    hide Ticket;
  }

  lemma ServerPasses(w: World, s: S.Server, e: Env, st: S.State)
    requires ServerAt(w, s) && s.Free() && st == ServerSucc(w, s.state)
    requires s.state.StartAccept? || s.state.ProcessChangeCipherSpec? || s.state.FinishServerHandshake?
    ensures ServerFits(w, s, e.head, S.Goto(s, st)) && ServerMoves(w, s, e, S.Goto(s, st))
  {
    hide ServerScript;
    hide ServerFits;
    hide HelloPair;
    hide UpToCertificates;
    hide UpToKeyExchange;
    hide UpToRequest;
    hide UpToHelloDone;
    hide UpToClientCertificate;
    hide UpToClientKey;
    hide UpToVerify;
    hide BeforeClientLast;
    hide UpToProto;
    hide ClientFinishedCovers;
    hide UpToClientFinished;
    hide ServerFinishedCovers;
    hide UpToServerFinished;
    hide Ticket;
    NoHead(e.head);
    if s.state.StartAccept? {
      ServerAdvances(w, s, e.head, S.Goto(s, st));
    } else if s.state.ProcessChangeCipherSpec? {
      ServerAdvances(w, s, e.head, S.Goto(s, st));
    } else {
      ServerAdvances(w, s, e.head, S.Goto(s, st));
    }
  }

  lemma ServerAsks(w: World, s: S.Server, e: Env)
    requires ServerAt(w, s) && s.Free() && s.state.ReadChangeCipherSpec?
    ensures ServerFits(w, s, e.head, S.AskForCcs(s)) && ServerMoves(w, s, e, S.AskForCcs(s))
  {
    hide HelloPair;
    hide UpToCertificates;
    hide UpToKeyExchange;
    hide UpToRequest;
    hide UpToHelloDone;
    hide UpToClientCertificate;
    hide UpToClientKey;
    hide UpToVerify;
    hide BeforeClientLast;
    hide UpToProto;
    hide ClientFinishedCovers;
    hide UpToClientFinished;
    hide ServerFinishedCovers;
    hide UpToServerFinished;
    hide Ticket;
    NoHead(e.head);
    var rest := [In(Ccs)] + ServerScript(w, S.ProcessChangeCipherSpec);
    assert ServerScript(w, s.state) == rest;
    hide ServerScript;
    assert [] + rest == rest;
  }

  /** The driver finds the ChangeCipherSpec at the head. */
  lemma ServerReadsCcs(w: World, s: S.Server, e: Env)
    requires ServerAt(w, s) && s.wait.ReadCcs? && Due(ServerRest(w, s), e.head)
    ensures ServerFits(w, s, e.head, S.DriveCcs(s, e)) && ServerMoves(w, s, e, S.DriveCcs(s, e))
  {
    hide ServerScript;
    hide ServerHash;
    var rest := ServerRest(w, s);
    assert rest[0] == In(Ccs);
    if e.head.None? {
      NoHead(e.head);
      assert [] + rest == rest;
    } else {
      assert Did(true, e.head, []) == [In(Ccs)];
    }
  }

  /** No turn of a server on its script fails; each does the next part of the script, or waits. */
  lemma ServerFollows(w: World, s: S.Server, e: Env)
    requires w.Valid() && ServerAt(w, s) && !s.state.Done? && e.ok && Due(ServerRest(w, s), e.head)
    ensures ServerFits(w, s, e.head, S.Step(s, e)) && ServerMoves(w, s, e, S.Step(s, e))
  {
    hide S.DoReadClientHello;
    hide S.DoSelectCertificate;
    hide S.DoSelectParameters;
    hide S.DoSendServerHello;
    hide S.DoSendServerCertificate;
    hide S.DoSendServerKeyExchange;
    hide S.DoSendServerHelloDone;
    hide S.DoReadClientCertificate;
    hide S.DoVerifyClientCertificate;
    hide S.DoReadClientKeyExchange;
    hide S.DoReadClientCertificateVerify;
    hide S.DoReadNextProto;
    hide S.DoReadChannelId;
    hide S.DoReadClientFinished;
    hide S.DoSendServerFinished;
    hide S.AskForCcs;
    hide S.DriveCcs;
    hide S.DriveFlush;
    hide S.Goto;
    hide ServerFits;
    hide ServerMoves;
    hide ServerHash;
    hide Due;
    if s.wait.ReadCcs? {
      ServerReadsCcs(w, s, e);
    } else if s.wait.Flush? {
      ServerFlushes(w, s, e);
    } else {
      match s.state
      case StartAccept => ServerPasses(w, s, e, S.ReadClientHello);
      case ReadClientHello => ServerReadsHello(w, s, e);
      case SelectCertificate => ServerSelectsCertificate(w, s, e);
      case SelectParameters => ServerSelectsParameters(w, s, e);
      case SendServerHello => ServerSendsHello(w, s, e);
      case SendServerCertificate => ServerSendsCertificate(w, s, e);
      case SendServerKeyExchange => ServerSendsKeyExchange(w, s, e);
      case SendServerHelloDone => ServerSendsHelloDone(w, s, e);
      case ReadClientCertificate => ServerReadsCertificate(w, s, e);
      case VerifyClientCertificate => ServerVerifies(w, s, e);
      case ReadClientKeyExchange => ServerReadsKeyExchange(w, s, e);
      case ReadClientCertificateVerify => ServerReadsVerify(w, s, e);
      case ReadChangeCipherSpec => ServerAsks(w, s, e);
      case ProcessChangeCipherSpec => ServerPasses(w, s, e, S.ReadNextProto);
      case ReadNextProto => ServerReadsProto(w, s, e);
      case ReadChannelId => ServerReadsId(w, s, e);
      case ReadClientFinished => ServerReadsFinished(w, s, e);
      case SendServerFinished => ServerSendsFinished(w, s, e);
      case FinishServerHandshake => ServerPasses(w, s, e, S.Done);
    }
  }
}
