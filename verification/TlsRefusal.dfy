/** A server that requires a client certificate and a client that has none (handshake_server.cc, section 7.4.6 of
    RFC 5246). */
module TlsRefusal {
  import opened TlsHandshake
  import opened TlsMessageTypes
  import opened TlsScript
  import C = TlsClient
  import S = TlsServer

  /** The same server, but strict. */
  function Strict(s: S.Server): S.Server
  {
    s.(requireCert := true)
  }

  function StrictPair(p: Pair): Pair
  {
    p.(s := Strict(p.s))
  }

  /** The server has refused the client's empty certificate. */
  predicate Refused(p: Pair)
  {
    p.s.wait.Failed? && p.s.state.ReadClientCertificate?
  }

  /** The strict server's turn is the same, or the refusal. */
  predicate SameTurn(t: S.Turn, u: S.Turn)
  {
    || (u.next == Strict(t.next) && u.took == t.took && u.out == t.out)
    || (u.next.wait.Failed? && u.next.state.ReadClientCertificate?)
  }

  lemma StrictTakes(s: S.Server, st: S.State, m: Msg)
    ensures S.Take(Strict(s), st, m).next == Strict(S.Take(s, st, m).next)
    ensures S.Take(s, st, m).took && S.Take(Strict(s), st, m).took && S.Take(s, st, m).out == [] == S.Take(Strict(s), st, m).out
  {
  }

  lemma StrictPasses(s: S.Server, e: Env, st: S.State)
    ensures SameTurn(S.Goto(s, st), S.Goto(Strict(s), st)) && SameTurn(S.Pass(s, e, st), S.Pass(Strict(s), e, st))
    ensures SameTurn(S.AskForCcs(s), S.AskForCcs(Strict(s)))
  {
  }

  lemma StrictStops(s: S.Server, w: Wait)
    ensures S.Block(Strict(s), w).next == Strict(S.Block(s, w).next) && S.Fail(Strict(s)).next == Strict(S.Fail(s).next)
    ensures SameTurn(S.Block(s, w), S.Block(Strict(s), w)) && SameTurn(S.Fail(s), S.Fail(Strict(s)))
    ensures S.Fail(s).next.state == s.state && S.Fail(s).next.wait == Failed
  {
  }

  lemma StrictReadsHello(s: S.Server, e: Env)
    ensures SameTurn(S.DoReadClientHello(s, e), S.DoReadClientHello(Strict(s), e))
  {
    hide PeekAny;
    hide PeekType;
    var p := PeekType(e, ClientHello);
    if p.NoMessage? {
    } else if p.Wrong? {
    } else if !e.ready {
    }
  }

  lemma StrictSelects(s: S.Server, e: Env)
    ensures SameTurn(S.DoSelectCertificate(s, e), S.DoSelectCertificate(Strict(s), e))
  {
    hide PeekAny;
    hide PeekType;
    var p := PeekAny(e);
    if p.NoMessage? {
    } else if p.Wrong? {
    } else if !e.ready {
    }
  }

  lemma StrictSettles(s: S.Server, e: Env)
    ensures SameTurn(S.DoSelectParameters(s, e), S.DoSelectParameters(Strict(s), e))
  {
    hide PeekAny;
    hide PeekType;
    hide S.Take;
    var p := PeekAny(e);
    if p.Got? {
      StrictTakes(s, S.SendServerHello, p.m);
    }
  }

  lemma StrictReadsKey(s: S.Server, e: Env)
    ensures SameTurn(S.DoReadClientKeyExchange(s, e), S.DoReadClientKeyExchange(Strict(s), e))
  {
    hide PeekAny;
    hide PeekType;
    hide S.Take;
    var p := PeekType(e, ClientKeyExchange);
    if p.Got? {
      StrictTakes(s, S.ReadClientCertificateVerify, p.m);
    }
  }

  lemma StrictReadsCertificate(s: S.Server, e: Env)
    requires s.state.ReadClientCertificate?
    ensures SameTurn(S.DoReadClientCertificate(s, e), S.DoReadClientCertificate(Strict(s), e))
  {
    hide PeekAny;
    hide PeekType;
    hide S.Take;
    hide S.Goto;
    hide S.Block;
    hide S.Fail;
    var p := PeekType(e, Certificate);
    StrictPasses(s, e, S.VerifyClientCertificate);
    StrictStops(s, ReadMessage);
    if s.params.certRequest && p.Got? && p.m.Chain? {
      StrictTakes(s.(peerKey := !p.m.empty), S.VerifyClientCertificate, p.m);
    }
  }

  lemma StrictVerifies(s: S.Server, e: Env)
    ensures SameTurn(S.DoVerifyClientCertificate(s, e), S.DoVerifyClientCertificate(Strict(s), e))
  {
  }

  lemma StrictReadsVerify(s: S.Server, e: Env)
    ensures SameTurn(S.DoReadClientCertificateVerify(s, e), S.DoReadClientCertificateVerify(Strict(s), e))
  {
    hide PeekAny;
    hide PeekType;
    hide S.Take;
    var p := PeekType(e, CertificateVerify);
    if p.Got? {
      StrictTakes(s.(sigVerified := true), S.ReadChangeCipherSpec, p.m);
    }
  }

  lemma StrictReadsPlain(s: S.Server, e: Env, ty: MsgType, st: S.State)
    ensures SameTurn(S.ReadPlain(s, e, ty, st), S.ReadPlain(Strict(s), e, ty, st))
  {
    hide PeekAny;
    hide PeekType;
    hide S.Take;
    var p := PeekType(e, ty);
    if p.Got? {
      StrictTakes(s, st, p.m);
    } else if p.NoMessage? {
    }
  }

  lemma StrictReadsProto(s: S.Server, e: Env)
    ensures SameTurn(S.DoReadNextProto(s, e), S.DoReadNextProto(Strict(s), e))
  {
    hide S.ReadPlain;
    StrictReadsPlain(s, e, NextProto, S.ReadChannelId);
  }

  lemma StrictReadsId(s: S.Server, e: Env)
    ensures SameTurn(S.DoReadChannelId(s, e), S.DoReadChannelId(Strict(s), e))
  {
    hide S.ReadPlain;
    StrictReadsPlain(s, e, ChannelId, S.ReadClientFinished);
  }

  lemma StrictReadsFinished(s: S.Server, e: Env)
    ensures SameTurn(S.DoReadClientFinished(s, e), S.DoReadClientFinished(Strict(s), e))
  {
    hide PeekAny;
    hide PeekType;
    hide S.Take;
    var p := PeekType(e, Finished);
    if p.Got? {
      StrictTakes(s.(peerFinished := s.peerFinished + 1), if s.params.resumed then S.FinishServerHandshake else S.SendServerFinished, p.m);
    }
  }

  lemma StrictSendsHello(s: S.Server, e: Env)
    ensures SameTurn(S.DoSendServerHello(s, e), S.DoSendServerHello(Strict(s), e))
  {
    hide Handshakes;
    hide Opt;
    hide S.CertificateFlight;
    hide S.HelloDoneFlight;
  }

  lemma StrictSendsCertificate(s: S.Server, e: Env)
    ensures SameTurn(S.DoSendServerCertificate(s, e), S.DoSendServerCertificate(Strict(s), e))
  {
    hide Handshakes;
    hide Opt;
    hide S.CertificateFlight;
    hide S.HelloDoneFlight;
  }

  lemma StrictSendsKey(s: S.Server, e: Env)
    ensures SameTurn(S.DoSendServerKeyExchange(s, e), S.DoSendServerKeyExchange(Strict(s), e))
  {
    hide Handshakes;
    hide Opt;
    hide S.CertificateFlight;
    hide S.HelloDoneFlight;
  }

  lemma StrictSendsDone(s: S.Server, e: Env)
    ensures SameTurn(S.DoSendServerHelloDone(s, e), S.DoSendServerHelloDone(Strict(s), e))
  {
    hide Handshakes;
    hide Opt;
    hide S.CertificateFlight;
    hide S.HelloDoneFlight;
  }

  lemma StrictSendsFinished(s: S.Server, e: Env)
    ensures SameTurn(S.DoSendServerFinished(s, e), S.DoSendServerFinished(Strict(s), e))
  {
    hide Handshakes;
    hide Opt;
    hide S.CertificateFlight;
    hide S.HelloDoneFlight;
  }

  lemma StrictDrives(s: S.Server, e: Env)
    ensures SameTurn(S.DriveCcs(s, e), S.DriveCcs(Strict(s), e))
    ensures SameTurn(S.DriveFlush(s, e), S.DriveFlush(Strict(s), e))
  {
    hide Flushed;
    hide FlushDone;
  }

  /** Being strict makes no difference to a turn, unless it refuses. */
  lemma StrictTurn(s: S.Server, e: Env)
    ensures SameTurn(S.Step(s, e), S.Step(Strict(s), e))
  {
    hide SameTurn;
    hide S.DoReadClientHello;
    hide S.DoSelectCertificate;
    hide S.DoSelectParameters;
    hide S.DoSendServerHello;
    hide S.DoSendServerCertificate;
    hide S.DoSendServerKeyExchange;
    hide S.DoSendServerHelloDone;
    hide S.DoReadClientCertificate;
    hide S.DoVerifyClientCertificate;
    hide S.DoReadClientKeyExchange;
    hide S.DoReadClientCertificateVerify;
    hide S.DoReadNextProto;
    hide S.DoReadChannelId;
    hide S.DoReadClientFinished;
    hide S.DoSendServerFinished;
    hide S.Pass;
    hide S.Goto;
    hide S.AskForCcs;
    hide S.DriveCcs;
    hide S.DriveFlush;
    if s.wait.Failed? || s.state.Done? {
      StrictStays(s, e);
    } else if s.wait.ReadCcs? || s.wait.Flush? {
      StrictDrives(s, e);
    } else {
      match s.state
      case StartAccept => StrictPasses(s, e, S.ReadClientHello);
      case ReadClientHello => StrictReadsHello(s, e);
      case SelectCertificate => StrictSelects(s, e);
      case SelectParameters => StrictSettles(s, e);
      case SendServerHello => StrictSendsHello(s, e);
      case SendServerCertificate => StrictSendsCertificate(s, e);
      case SendServerKeyExchange => StrictSendsKey(s, e);
      case SendServerHelloDone => StrictSendsDone(s, e);
      case ReadClientCertificate => StrictReadsCertificate(s, e);
      case VerifyClientCertificate => StrictVerifies(s, e);
      case ReadClientKeyExchange => StrictReadsKey(s, e);
      case ReadClientCertificateVerify => StrictReadsVerify(s, e);
      case ReadChangeCipherSpec => StrictPasses(s, e, S.Done);
      case ProcessChangeCipherSpec => StrictPasses(s, e, S.ReadNextProto);
      case ReadNextProto => StrictReadsProto(s, e);
      case ReadChannelId => StrictReadsId(s, e);
      case ReadClientFinished => StrictReadsFinished(s, e);
      case SendServerFinished => StrictSendsFinished(s, e);
      case FinishServerHandshake => StrictPasses(s, e, S.Done);
    }
  }

  lemma StrictStays(s: S.Server, e: Env)
    requires s.wait.Failed? || s.state.Done?
    ensures SameTurn(S.Step(s, e), S.Step(Strict(s), e))
  {
  }

  lemma RefusedStays(p: Pair, a: Act)
    requires Refused(p)
    ensures Refused(Step(p, a))
  {
    hide C.Step;
  }

  lemma PlacedTurn(s: S.Server, e: Env)
    requires S.Placed(s)
    ensures S.Placed(S.Step(s, e).next)
  {
    hide S.Placed;
    hide S.Nearer;
    hide S.Appends;
    if s.wait.Failed? || s.state.Done? {
      S.Stopped(s, e);
    } else {
      S.StepSound(s, e);
    }
  }

  /** A pair with the strict server takes the same turns as one without, until the server refuses. */
  lemma {:induction false} StrictRun(p: Pair, acts: seq<Act>)
    requires S.Placed(Strict(p.s))
    ensures var q := Run(p, acts);
            Refused(Run(StrictPair(p), acts)) || (Run(StrictPair(p), acts) == StrictPair(q) && S.Placed(Strict(q.s)))
    decreases |acts|
  {
    hide C.Step;
    hide S.Step;
    hide S.Placed;
    if acts != [] {
      var a, q := acts[0], StrictPair(p);
      if a.ServerTurn? {
        StrictTurn(p.s, Shown(a, p.toServer));
        PlacedTurn(q.s, Shown(a, p.toServer));
      }
      if Step(q, a) == StrictPair(Step(p, a)) {
        StrictRun(Step(p, a), acts[1..]);
      } else {
        StaysRefused(Step(q, a), acts[1..]);
      }
    }
  }

  /** A strict server is never done with a client that has no certificate. */
  lemma NotDone(w: World, p: Pair)
    requires Inv(w, p) && S.Placed(Strict(p.s)) && w.p.certRequest && !w.hasCert && w.Valid()
    ensures !p.s.state.Done?
  {
    hide ServerHash;
    hide ClientAt;
    hide ServerRest;
    hide ClientRest;
  }

  lemma {:induction false} StaysRefused(p: Pair, acts: seq<Act>)
    requires Refused(p)
    ensures Refused(Run(p, acts))
    decreases |acts|
  {
    hide Step;
    if acts != [] {
      RefusedStays(p, acts[0]);
      StaysRefused(Step(p, acts[0]), acts[1..]);
    }
  }

  /** If the server asks for a certificate and requires one, and the client has none, then no run of the two completes the
      handshake on the server's side, the server fails for no other reason than that, and every run can be continued to
      where it does. */
  lemma EmptyCertificateIsRefused(w: World, c: C.Client, s: S.Server, acts: seq<Act>) returns (more: seq<Act>)
    requires w.Valid() && w.p.certRequest && !w.hasCert && s.requireCert
    requires c == C.Initial(c.offered, w.hasCert, c.falseStart, w.cd) && s == S.Initial(w.p, s.requireCert, w.sd)
    ensures var q := Run(Pair(c, s, [], []), acts);
            && !q.s.state.Done? && (q.s.wait.Failed? ==> Refused(q))
            && Refused(Run(q, more))
  {
    hide Inv;
    hide Run;
    hide Step;
    var p := Pair(c, s.(requireCert := false), [], []);
    assert StrictPair(p) == Pair(c, s, [], []);
    Begin(w, c, s.(requireCert := false));
    RunInv(w, p, acts);
    var q := Run(p, acts);
    StrictRun(p, acts);
    more := CanFinish(w, q);
    if !Refused(Run(StrictPair(p), acts)) {
      NotDone(w, q);
      StrictRun(q, more);
      if !Refused(Run(StrictPair(q), more)) {
        NotDone(w, Run(q, more));
      }
    } else {
      StaysRefused(Run(StrictPair(p), acts), more);
    }
  }
}
