/** When a turn of the client fails, when it waits, and what it takes, for every state and whatever the peer and the callbacks
    answer (handshake_client.cc, handshake.cc). */
module TlsClientVerdicts {
  import opened Octets
  import opened TlsClient
  import opened TlsMessageTypes

  /** The state looks at the server's next message. */
  predicate Reads(c: Client)
  {
    match c.state
    case ReadServerHello | ReadServerKeyExchange | ReadServerHelloDone | ReadServerFinished => true
    case ReadServerCertificate | ReadCertificateRequest => c.params.certAuth
    case ReadCertificateStatus => c.params.status
    case ReadSessionTicket => c.params.ticket
    case _ => false
  }

  /** The message the state is there to take. */
  predicate Fits(c: Client, m: Msg)
  {
    match c.state
    case ReadServerHello => m.Hello?
    case ReadServerCertificate => m.Chain? && !m.empty
    case ReadCertificateStatus => TypeOf(m) == CertificateStatus
    case ReadServerKeyExchange => TypeOf(m) == ServerKeyExchange
    case ReadCertificateRequest => TypeOf(m) == CertificateRequest
    case ReadServerHelloDone => TypeOf(m) == ServerHelloDone
    case ReadSessionTicket => TypeOf(m) == NewSessionTicket
    case ReadServerFinished => m == Mac(true, c.hashed)
    case _ => false
  }

  /** A message the state leaves to the next one, since what it is there to take may be missing. */
  predicate Leaves(c: Client, m: Msg)
  {
    match c.state
    case ReadCertificateStatus => TypeOf(m) != CertificateStatus
    case ReadServerKeyExchange => TypeOf(m) != ServerKeyExchange && !c.params.skeRequired
    case ReadCertificateRequest => TypeOf(m) == ServerHelloDone
    case _ => false
  }

  /** The state asks a callback, or a key that may be slow. */
  predicate Calls(c: Client)
  {
    match c.state
    case VerifyServerCertificate => c.params.certAuth
    case SendClientCertificate => c.certRequest
    case SendClientCertificateVerify => c.certRequest && c.hasCert
    case SendClientFinished => c.params.channelId
    case _ => false
  }

  /** The state does something that can go wrong without looking at a message. */
  predicate Works(c: Client)
  {
    || Calls(c) || c.state.StartConnect? || c.state.SendClientKeyExchange? || c.state.SendClientFinished?
    || c.state.ProcessChangeCipherSpec? || c.state.FinishClientHandshake?
  }

  /** What the server sent does not go with the state, or was found to be wrong. */
  predicate Refuses(c: Client, e: Env)
  {
    Reads(c) && e.head.Some? &&
      (e.head.value.Ccs? || (!Leaves(c, e.head.value.m) && !(Fits(c, e.head.value.m) && (e.ok || c.state.ReadServerFinished?))))
  }

  /** What a turn of a state comes to. */
  predicate Decided(c: Client, e: Env, t: Turn)
  {
    if Reads(c) && e.head.None? then t == Turn(c.(wait := ReadMessage), false, [])
    else if Refuses(c, e) then t == Turn(c.(wait := Failed), false, [])
    else if Calls(c) && !e.ready then t == Turn(c.(wait := Retry), false, [])
    else if Works(c) && !e.ok then t == Turn(c.(wait := Failed), false, [])
    else
      && !t.next.wait.Failed? && t.next.state != c.state && t.out == []
      && (t.took <==> Reads(c) && Fits(c, e.head.value.m))
      && (t.took ==> t.next.hashed == c.hashed + [e.head.value.m])
      && (t.next.verified <==> c.verified || (c.state.VerifyServerCertificate? && c.params.certAuth))
      && (t.next.certRequest <==> c.certRequest || (t.took && c.state.ReadCertificateRequest?))
      && (t.next.wait.EarlyReturn? <==> c.state.FinishFlight? && !c.params.resumed && c.falseStart)
  }

  lemma HelloDecided(c: Client, e: Env)
    requires c.Free() && c.state.ReadServerHello?
    ensures Decided(c, e, DoReadServerHello(c, e))
  {
  }

  lemma CertificateDecided(c: Client, e: Env)
    requires c.Free() && c.state.ReadServerCertificate?
    ensures Decided(c, e, DoReadServerCertificate(c, e))
  {
  }

  lemma StatusDecided(c: Client, e: Env)
    requires c.Free() && c.state.ReadCertificateStatus?
    ensures Decided(c, e, DoReadCertificateStatus(c, e))
  {
    if !c.params.status {
    } else if e.head.Some? && e.head.value.Handshake? {
      var m := e.head.value.m;
      assert PeekAny(e) == Got(m);
      if TypeOf(m) != CertificateStatus {
        assert Leaves(c, m) && !Fits(c, m);
      } else {
        assert Fits(c, m) && !Leaves(c, m);
      }
    }
  }

  lemma VerifyDecided(c: Client, e: Env)
    requires c.Free() && c.state.VerifyServerCertificate?
    ensures Decided(c, e, DoVerifyServerCertificate(c, e))
  {
  }

  lemma KeyDecided(c: Client, e: Env)
    requires c.Free() && c.state.ReadServerKeyExchange?
    ensures Decided(c, e, DoReadServerKeyExchange(c, e))
  {
  }

  lemma RequestDecided(c: Client, e: Env)
    requires c.Free() && c.state.ReadCertificateRequest?
    ensures Decided(c, e, DoReadCertificateRequest(c, e))
  {
  }

  lemma HelloDoneDecided(c: Client, e: Env)
    requires c.Free() && c.state.ReadServerHelloDone?
    ensures Decided(c, e, ReadPlain(c, e, ServerHelloDone, SendClientCertificate))
  {
  }

  lemma OwnCertificateDecided(c: Client, e: Env)
    requires c.Free() && c.state.SendClientCertificate?
    ensures Decided(c, e, DoSendClientCertificate(c, e))
  {
  }

  lemma OwnVerifyDecided(c: Client, e: Env)
    requires c.Free() && c.state.SendClientCertificateVerify?
    ensures Decided(c, e, DoSendClientCertificateVerify(c, e))
  {
  }

  lemma OwnFinishedDecided(c: Client, e: Env)
    requires c.Free() && c.state.SendClientFinished?
    ensures Decided(c, e, DoSendClientFinished(c, e))
  {
  }

  lemma TicketDecided(c: Client, e: Env)
    requires c.Free() && c.state.ReadSessionTicket?
    ensures Decided(c, e, DoReadSessionTicket(c, e))
  {
  }

  lemma FinishedDecided(c: Client, e: Env)
    requires c.Free() && c.state.ReadServerFinished?
    ensures Decided(c, e, DoReadServerFinished(c, e))
  {
  }

  /** For every state, and nothing else: a turn waits for a message that is not there or a callback that is not ready; it
      fails if the message is refused or what it does goes wrong; otherwise it goes on to another state. It takes and hashes
      a message exactly if that fits, it notes a verification exactly if the callback says so, and it returns early exactly
      at the end of the client's flight in a full handshake with false start. */
  lemma Verdict(c: Client, e: Env)
    requires c.Free() && !c.wait.Failed? && !c.state.Done?
    ensures Decided(c, e, Step(c, e))
  {
    match c.state
    case ReadServerHello => hide Decided; HelloDecided(c, e);
    case ReadServerCertificate => hide Decided; CertificateDecided(c, e);
    case ReadCertificateStatus => hide Decided; StatusDecided(c, e);
    case VerifyServerCertificate => hide Decided; VerifyDecided(c, e);
    case ReadServerKeyExchange => hide Decided; KeyDecided(c, e);
    case ReadCertificateRequest => hide Decided; RequestDecided(c, e);
    case ReadServerHelloDone => hide Decided; HelloDoneDecided(c, e);
    case SendClientCertificate => hide Decided; OwnCertificateDecided(c, e);
    case SendClientCertificateVerify => hide Decided; OwnVerifyDecided(c, e);
    case SendClientFinished => hide Decided; OwnFinishedDecided(c, e);
    case ReadSessionTicket => hide Decided; TicketDecided(c, e);
    case ReadServerFinished => hide Decided; FinishedDecided(c, e);
    case _ =>
  }

  /** The driver takes a ChangeCipherSpec and nothing else where one was asked for, and goes on from a flush when
      all of the flight is out and the transport is drained. */
  lemma DriverVerdict(c: Client, e: Env)
    requires !c.Free() && !c.state.Done?
    ensures var t := Step(c, e);
            if c.wait.ReadCcs? then
              && t.out == []
              && t.took == (e.head == Some(Ccs))
              && t.next == c.(wait := if e.head.None? then ReadCcs else if e.head.value.Ccs? then Running else Failed)
            else
              var n := if e.sent < |c.flight| then e.sent else |c.flight|;
              && !t.took && t.out == c.flight[..n]
              && t.next == c.(flight := c.flight[n..], wait := if n == |c.flight| && e.drained then Running else Flush)
  {
  }

  /** The turn in a run at which the server's certificate was verified. */
  lemma {:induction false} VerifiedAt(c: Client, es: seq<Env>) returns (i: nat)
    requires !c.verified && Run(c, es).verified
    ensures i < |es| && es[i].ready && es[i].ok
    ensures var d := Run(c, es[..i]); d.Free() && d.state.VerifyServerCertificate? && d.params.certAuth
    decreases |es|
  {
    hide Step;
    if c.wait.Failed? || c.state.Done? {
      Idle(c, es[0]);
    } else if c.Free() {
      Verdict(c, es[0]);
    } else {
      DriverVerdict(c, es[0]);
    }
    var d := Step(c, es[0]).next;
    if d.verified {
      i := 0;
    } else {
      var j := VerifiedAt(d, es[1..]);
      i := j + 1;
      assert es[..i][1..] == es[1..][..j];
    }
  }

  lemma Idle(c: Client, e: Env)
    requires c.wait.Failed? || c.state.Done?
    ensures Step(c, e) == Turn(c, false, [])
  {
  }

  /** In every run against any peer that completes a full handshake with a certificate cipher there was a turn at which the
      certificate was there and the callback accepted it. */
  lemma {:induction false} DoneWasVerified(offered: bool, hasCert: bool, falseStart: bool, data: nat, es: seq<Env>) returns (i: nat)
    requires var d := Run(Initial(offered, hasCert, falseStart, data), es);
             d.state.Done? && d.params.certAuth && !d.params.resumed
    ensures i < |es| && es[i].ready && es[i].ok
    ensures Run(Initial(offered, hasCert, falseStart, data), es[..i]).state.VerifyServerCertificate?
  {
    hide Run;
    var c := Initial(offered, hasCert, falseStart, data);
    RunIsSafe(c, es);
    i := VerifiedAt(c, es);
  }
}
