/** When a turn of the server fails, when it waits, and what it takes, for every state and whatever the peer and the callbacks
    answer (handshake_server.cc, handshake.cc). */
module TlsServerVerdicts {
  import opened Octets
  import opened TlsMessageTypes
  import opened TlsServer

  /** The state looks at the client's next message. */
  predicate Reads(s: Server)
  {
    match s.state
    case ReadClientHello | SelectCertificate | SelectParameters | ReadClientKeyExchange | ReadClientFinished => true
    case ReadClientCertificate => s.params.certRequest
    case ReadClientCertificateVerify => s.peerKey
    case ReadNextProto => s.params.npn
    case ReadChannelId => s.params.channelId
    case _ => false
  }

  /** The message the state is there to take, or the ClientHello that is looked at before it is taken. */
  predicate Fits(s: Server, m: Msg)
  {
    match s.state
    case ReadClientHello => TypeOf(m) == ClientHello
    case SelectCertificate | SelectParameters => true
    case ReadClientCertificate => m.Chain? && !(m.empty && s.requireCert)
    case ReadClientKeyExchange => TypeOf(m) == ClientKeyExchange
    case ReadClientCertificateVerify => m == Signature(s.hashed)
    case ReadNextProto => TypeOf(m) == NextProto
    case ReadChannelId => TypeOf(m) == ChannelId
    case ReadClientFinished => m == Mac(false, s.hashed)
    case _ => false
  }

  /** The state asks a callback, or a key that may be slow. */
  predicate Calls(s: Server)
  {
    match s.state
    case ReadClientHello | SelectCertificate | SelectParameters | ReadClientKeyExchange => true
    case SendServerKeyExchange => s.hasParams && s.params.certAuth
    case VerifyClientCertificate => s.peerKey
    case _ => false
  }

  /** The state does something that can go wrong. */
  predicate Works(s: Server)
  {
    match s.state
    case SendServerHello | SendServerCertificate | SendServerHelloDone | SendServerFinished | ProcessChangeCipherSpec => true
    case SendServerKeyExchange => s.hasParams
    case _ => Reads(s) || Calls(s)
  }

  /** What a turn of a state comes to. */
  predicate Decided(s: Server, e: Env, t: Turn)
  {
    if Reads(s) && e.head.None? then t == Turn(s.(wait := ReadMessage), false, [])
    else if Reads(s) && (e.head.value.Ccs? || !Fits(s, e.head.value.m)) then t == Turn(s.(wait := Failed), false, [])
    else if Calls(s) && !e.ready then t == Turn(s.(wait := Retry), false, [])
    else if Works(s) && !e.ok then t == Turn(s.(wait := Failed), false, [])
    else
      && !t.next.wait.Failed? && t.next.state != s.state && t.out == []
      && (t.took <==> Reads(s) && !s.state.ReadClientHello? && !s.state.SelectCertificate?)
      && (t.took ==> t.next.hashed == s.hashed + [e.head.value.m])
      && (t.next.peerKey <==> if t.took && s.state.ReadClientCertificate? then !e.head.value.m.empty else s.peerKey)
      && (t.next.chainVerified <==> s.chainVerified || (s.state.VerifyClientCertificate? && s.peerKey))
      && (t.next.sigVerified <==> s.sigVerified || (t.took && s.state.ReadClientCertificateVerify?))
  }

  lemma HelloDecided(s: Server, e: Env)
    requires s.Free() && s.state.ReadClientHello?
    ensures Decided(s, e, DoReadClientHello(s, e))
  {
  }

  lemma SelectDecided(s: Server, e: Env)
    requires s.Free() && s.state.SelectCertificate?
    ensures Decided(s, e, DoSelectCertificate(s, e))
  {
  }

  lemma ParametersDecided(s: Server, e: Env)
    requires s.Free() && s.state.SelectParameters?
    ensures Decided(s, e, DoSelectParameters(s, e))
  {
  }

  lemma OwnKeyDecided(s: Server, e: Env)
    requires s.Free() && s.state.SendServerKeyExchange?
    ensures Decided(s, e, DoSendServerKeyExchange(s, e))
  {
  }

  lemma CertificateDecided(s: Server, e: Env)
    requires s.Free() && s.state.ReadClientCertificate?
    ensures Decided(s, e, DoReadClientCertificate(s, e))
  {
  }

  lemma VerifyDecided(s: Server, e: Env)
    requires s.Free() && s.state.VerifyClientCertificate?
    ensures Decided(s, e, DoVerifyClientCertificate(s, e))
  {
  }

  lemma KeyDecided(s: Server, e: Env)
    requires s.Free() && s.state.ReadClientKeyExchange?
    ensures Decided(s, e, DoReadClientKeyExchange(s, e))
  {
  }

  lemma SignatureDecided(s: Server, e: Env)
    requires s.Free() && s.state.ReadClientCertificateVerify?
    ensures Decided(s, e, DoReadClientCertificateVerify(s, e))
  {
  }

  lemma NextProtoDecided(s: Server, e: Env)
    requires s.Free() && s.state.ReadNextProto?
    ensures Decided(s, e, DoReadNextProto(s, e))
  {
    if s.params.npn {
      assert Reads(s) && !Calls(s) && Works(s);
      hide Reads;
      hide Calls;
      hide Works;
    }
  }

  lemma ChannelIdDecided(s: Server, e: Env)
    requires s.Free() && s.state.ReadChannelId?
    ensures Decided(s, e, DoReadChannelId(s, e))
  {
    if s.params.channelId {
      assert Reads(s) && !Calls(s) && Works(s);
      hide Reads;
      hide Calls;
      hide Works;
    }
  }

  lemma FinishedDecided(s: Server, e: Env)
    requires s.Free() && s.state.ReadClientFinished?
    ensures Decided(s, e, DoReadClientFinished(s, e))
  {
  }

  /** For every state, and nothing else: a turn waits for a message that is not there or a callback that is not ready; it
      fails if the message is not the one it is there for or what it does goes wrong; otherwise it goes on to another state.
      A certificate, its chain and its signature are noted exactly where they were checked. */
  lemma Verdict(s: Server, e: Env)
    requires s.Free() && !s.wait.Failed? && !s.state.Done?
    ensures Decided(s, e, Step(s, e))
  {
    match s.state
    case ReadClientHello => hide Decided; HelloDecided(s, e);
    case SelectCertificate => hide Decided; SelectDecided(s, e);
    case SelectParameters => hide Decided; ParametersDecided(s, e);
    case SendServerKeyExchange => hide Decided; OwnKeyDecided(s, e);
    case ReadClientCertificate => hide Decided; CertificateDecided(s, e);
    case VerifyClientCertificate => hide Decided; VerifyDecided(s, e);
    case ReadClientKeyExchange => hide Decided; KeyDecided(s, e);
    case ReadClientCertificateVerify => hide Decided; SignatureDecided(s, e);
    case ReadNextProto => hide Decided; NextProtoDecided(s, e);
    case ReadChannelId => hide Decided; ChannelIdDecided(s, e);
    case ReadClientFinished => hide Decided; FinishedDecided(s, e);
    case _ =>
  }

  /** The driver takes a ChangeCipherSpec and nothing else where one was asked for, and goes on from a flush when
      all of the flight is out and the transport is drained. */
  lemma DriverVerdict(s: Server, e: Env)
    requires !s.Free() && !s.state.Done?
    ensures var t := Step(s, e);
            if s.wait.ReadCcs? then
              && t.out == []
              && t.took == (e.head == Some(Ccs))
              && t.next == s.(wait := if e.head.None? then ReadCcs else if e.head.value.Ccs? then Running else Failed)
            else
              var n := if e.sent < |s.flight| then e.sent else |s.flight|;
              && !t.took && t.out == s.flight[..n]
              && t.next == s.(flight := s.flight[n..], wait := if n == |s.flight| && e.drained then Running else Flush)
  {
  }

  lemma Idle(s: Server, e: Env)
    requires s.wait.Failed? || s.state.Done?
    ensures Step(s, e) == Turn(s, false, [])
  {
  }

  lemma Noted(s: Server, e: Env)
    ensures var t := Step(s, e);
            && (t.next.chainVerified && !s.chainVerified ==> s.state.VerifyClientCertificate? && s.peerKey && e.ready && e.ok)
            && (t.next.sigVerified && !s.sigVerified ==>
                s.state.ReadClientCertificateVerify? && e.ok && e.head == Some(Handshake(Signature(s.hashed))))
  {
    hide Step;
    if s.wait.Failed? || s.state.Done? {
      Idle(s, e);
    } else if s.Free() {
      Verdict(s, e);
    } else {
      DriverVerdict(s, e);
    }
  }

  /** The turn in a run at which the client's chain was verified. */
  lemma {:induction false} ChainVerifiedAt(s: Server, es: seq<Env>) returns (i: nat)
    requires !s.chainVerified && Run(s, es).chainVerified
    ensures i < |es| && es[i].ready && es[i].ok
    ensures var d := Run(s, es[..i]); d.state.VerifyClientCertificate? && d.peerKey
    decreases |es|
  {
    hide Step;
    Noted(s, es[0]);
    var d := Step(s, es[0]).next;
    if d.chainVerified {
      i := 0;
    } else {
      var j := ChainVerifiedAt(d, es[1..]);
      i := j + 1;
      assert es[..i][1..] == es[1..][..j];
    }
  }

  /** The turn in a run at which the client's signature was verified. */
  lemma {:induction false} SignatureVerifiedAt(s: Server, es: seq<Env>) returns (i: nat)
    requires !s.sigVerified && Run(s, es).sigVerified
    ensures i < |es| && es[i].ok
    ensures es[i].head == Some(Handshake(Signature(Run(s, es[..i]).hashed)))
    decreases |es|
  {
    hide Step;
    Noted(s, es[0]);
    var d := Step(s, es[0]).next;
    if d.sigVerified {
      i := 0;
    } else {
      var j := SignatureVerifiedAt(d, es[1..]);
      i := j + 1;
      assert es[..i][1..] == es[1..][..j];
    }
  }

  /** In every run against any peer that completes a full handshake in which the client showed a certificate there was a turn
      at which the callback accepted its chain, and one at which its signature over the transcript was checked. */
  lemma {:induction false} DoneWasVerified(params: Params, requireCert: bool, data: nat, es: seq<Env>) returns (i: nat, j: nat)
    requires var d := Run(Initial(params, requireCert, data), es);
             d.state.Done? && d.peerKey
    ensures i < |es| && es[i].ready && es[i].ok
    ensures Run(Initial(params, requireCert, data), es[..i]).state.VerifyClientCertificate?
    ensures j < |es| && es[j].ok
    ensures es[j].head == Some(Handshake(Signature(Run(Initial(params, requireCert, data), es[..j]).hashed)))
  {
    hide Run;
    var s := Initial(params, requireCert, data);
    RunIsSafe(s, es);
    i := ChainVerifiedAt(s, es);
    j := SignatureVerifiedAt(s, es);
  }
}
