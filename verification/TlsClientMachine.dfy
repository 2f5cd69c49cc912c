/** The client's handshake state as the code updates it, each turn proved to be the one of TlsClient
    (handshake_client.cc, handshake.cc). */
module TlsClientMachine {
  import opened Octets
  import opened TlsMessageTypes
  import C = TlsClient

  /** SSL_HANDSHAKE of a client. */
  class ClientHandshake {
    var state: C.State
    var wait: Wait
    const offered: bool
    const hasCert: bool
    const falseStart: bool
    const data: nat
    var params: Params
    var certRequest: bool
    var verified: bool
    var hashed: seq<Msg>
    /** pending_flight */
    var flight: seq<Item>
    var peerFinished: nat
    var ownFinished: nat

    ghost function Model(): C.Client
      reads this
    {
      C.Client(state, wait, offered, hasCert, falseStart, data, params, certRequest, verified, hashed, flight,
               peerFinished, ownFinished)
    }

    constructor (offered: bool, hasCert: bool, falseStart: bool, data: nat)
      ensures Model() == C.Initial(offered, hasCert, falseStart, data)
    {
      state, wait := C.StartConnect, Running;
      this.offered, this.hasCert, this.falseStart, this.data := offered, hasCert, falseStart, data;
      params := Params(false, false, false, false, false, false, false, false, false);
      certRequest, verified, hashed, flight, peerFinished, ownFinished := false, false, [], [], 0, 0;
    }

    method Stop(w: Wait) returns (took: bool, out: seq<Item>)
      modifies this`wait
      ensures C.Turn(Model(), took, out) == C.Block(old(Model()), w)
    {
      wait := w;
      return false, [];
    }

    method Goto(s: C.State) returns (took: bool, out: seq<Item>)
      modifies this`state, this`wait
      ensures C.Turn(Model(), took, out) == C.Goto(old(Model()), s)
    {
      state, wait := s, Running;
      return false, [];
    }

    /** ssl_hash_message and next_message */
    method Take(s: C.State, m: Msg) returns (took: bool, out: seq<Item>)
      modifies this`state, this`wait, this`hashed
      ensures C.Turn(Model(), took, out) == C.Take(old(Model()), s, m)
    {
      hashed := hashed + [m];
      state, wait := s, Running;
      return true, [];
    }

    /** ssl_add_message_cbb */
    method Send(s: C.State, ms: seq<Msg>) returns (took: bool, out: seq<Item>)
      modifies this`state, this`wait, this`hashed, this`flight
      ensures C.Turn(Model(), took, out) == C.Send(old(Model()), s, ms)
    {
      hashed := hashed + ms;
      state, wait := s, Running;
      flight := flight + Handshakes(ms);
      return false, [];
    }

    method DoStartConnect(e: Env) returns (took: bool, out: seq<Item>)
      modifies this
      ensures C.Turn(Model(), took, out) == C.DoStartConnect(old(Model()), e)
      ensures !wait.ReadMessage? && !wait.ReadCcs?
    {
      if !e.ok {
        took, out := Stop(Failed);
        return;
      }
      took, out := Send(C.EnterEarlyData, [Plain(ClientHello, data)]);
      wait := Flush;
    }

    /** The end of do_read_server_hello. */
    method AcceptHello(p: Params, m: Msg) returns (took: bool, out: seq<Item>)
      modifies this
      ensures C.Turn(Model(), took, out)
           == C.Take(old(Model()).(params := p), if p.resumed then C.ReadSessionTicket else C.ReadServerCertificate, m)
    {
      params := p;
      took, out := Take(if p.resumed then C.ReadSessionTicket else C.ReadServerCertificate, m);
    }

    method DoReadServerHello(e: Env) returns (took: bool, out: seq<Item>)
      modifies this
      ensures C.Turn(Model(), took, out) == C.DoReadServerHello(old(Model()), e)
      ensures (wait.ReadMessage? ==> e.head.None?) && !wait.ReadCcs?
    {
      var p := PeekType(e, ServerHello);
      if p.NoMessage? {
        took, out := Stop(ReadMessage);
      } else if p.Wrong? || !e.ok || !p.m.Hello? {
        took, out := Stop(Failed);
      } else {
        took, out := AcceptHello(p.m.params.(resumed := p.m.params.resumed && offered), p.m);
      }
    }

    method DoReadServerCertificate(e: Env) returns (took: bool, out: seq<Item>)
      modifies this
      ensures C.Turn(Model(), took, out) == C.DoReadServerCertificate(old(Model()), e)
      ensures (wait.ReadMessage? ==> e.head.None?) && !wait.ReadCcs?
    {
      if !params.certAuth {
        took, out := Goto(C.ReadCertificateStatus);
        return;
      }
      var p := PeekType(e, Certificate);
      if p.NoMessage? {
        took, out := Stop(ReadMessage);
      } else if p.Wrong? || !e.ok || !p.m.Chain? || p.m.empty {
        took, out := Stop(Failed);
      } else {
        took, out := Take(C.ReadCertificateStatus, p.m);
      }
    }

    method DoReadCertificateStatus(e: Env) returns (took: bool, out: seq<Item>)
      modifies this
      ensures C.Turn(Model(), took, out) == C.DoReadCertificateStatus(old(Model()), e)
      ensures (wait.ReadMessage? ==> e.head.None?) && !wait.ReadCcs?
    {
      if !params.status {
        took, out := Goto(C.VerifyServerCertificate);
        return;
      }
      var p := PeekAny(e);
      if p.NoMessage? {
        took, out := Stop(ReadMessage);
      } else if p.Wrong? {
        took, out := Stop(Failed);
      } else if TypeOf(p.m) != CertificateStatus {
        took, out := Goto(C.VerifyServerCertificate);
      } else if !e.ok {
        took, out := Stop(Failed);
      } else {
        took, out := Take(C.VerifyServerCertificate, p.m);
      }
    }

    method DoVerifyServerCertificate(e: Env) returns (took: bool, out: seq<Item>)
      modifies this
      ensures C.Turn(Model(), took, out) == C.DoVerifyServerCertificate(old(Model()), e)
      ensures !wait.ReadMessage? && !wait.ReadCcs?
    {
      if params.certAuth {
        if !e.ready {
          took, out := Stop(Retry);
          return;
        }
        if !e.ok {
          took, out := Stop(Failed);
          return;
        }
        verified := true;
      }
      took, out := Goto(C.ReadServerKeyExchange);
    }

    method DoReadServerKeyExchange(e: Env) returns (took: bool, out: seq<Item>)
      modifies this
      ensures C.Turn(Model(), took, out) == C.DoReadServerKeyExchange(old(Model()), e)
      ensures (wait.ReadMessage? ==> e.head.None?) && !wait.ReadCcs?
    {
      var p := PeekAny(e);
      if p.NoMessage? {
        took, out := Stop(ReadMessage);
      } else if p.Wrong? {
        took, out := Stop(Failed);
      } else if TypeOf(p.m) != ServerKeyExchange {
        if params.skeRequired {
          took, out := Stop(Failed);
        } else {
          took, out := Goto(C.ReadCertificateRequest);
        }
      } else if !e.ok {
        took, out := Stop(Failed);
      } else {
        took, out := Take(C.ReadCertificateRequest, p.m);
      }
    }

    method DoReadCertificateRequest(e: Env) returns (took: bool, out: seq<Item>)
      modifies this
      ensures C.Turn(Model(), took, out) == C.DoReadCertificateRequest(old(Model()), e)
      ensures (wait.ReadMessage? ==> e.head.None?) && !wait.ReadCcs?
    {
      if !params.certAuth {
        took, out := Goto(C.ReadServerHelloDone);
        return;
      }
      var p := PeekAny(e);
      if p.NoMessage? {
        took, out := Stop(ReadMessage);
      } else if p.Wrong? {
        took, out := Stop(Failed);
      } else if TypeOf(p.m) == ServerHelloDone {
        took, out := Goto(C.ReadServerHelloDone);
      } else if TypeOf(p.m) != CertificateRequest || !e.ok {
        took, out := Stop(Failed);
      } else {
        certRequest := true;
        took, out := Take(C.ReadServerHelloDone, p.m);
      }
    }

    method DoReadServerHelloDone(e: Env) returns (took: bool, out: seq<Item>)
      modifies this
      ensures C.Turn(Model(), took, out) == C.ReadPlain(old(Model()), e, ServerHelloDone, C.SendClientCertificate)
      ensures (wait.ReadMessage? ==> e.head.None?) && !wait.ReadCcs?
    {
      var p := PeekType(e, ServerHelloDone);
      if p.NoMessage? {
        took, out := Stop(ReadMessage);
      } else if p.Wrong? || !e.ok {
        took, out := Stop(Failed);
      } else {
        took, out := Take(C.SendClientCertificate, p.m);
      }
    }

    method DoSendClientCertificate(e: Env) returns (took: bool, out: seq<Item>)
      modifies this
      ensures C.Turn(Model(), took, out) == C.DoSendClientCertificate(old(Model()), e)
      ensures !wait.ReadMessage? && !wait.ReadCcs?
    {
      if !certRequest {
        took, out := Goto(C.SendClientKeyExchange);
      } else if !e.ready {
        took, out := Stop(Retry);
      } else if !e.ok {
        took, out := Stop(Failed);
      } else {
        took, out := Send(C.SendClientKeyExchange, [Chain(!hasCert, data)]);
      }
    }

    method DoSendClientKeyExchange(e: Env) returns (took: bool, out: seq<Item>)
      modifies this
      ensures C.Turn(Model(), took, out) == C.DoSendClientKeyExchange(old(Model()), e)
      ensures !wait.ReadMessage? && !wait.ReadCcs?
    {
      if !e.ok {
        took, out := Stop(Failed);
      } else {
        took, out := Send(C.SendClientCertificateVerify, [Plain(ClientKeyExchange, data)]);
      }
    }

    method DoSendClientCertificateVerify(e: Env) returns (took: bool, out: seq<Item>)
      modifies this
      ensures C.Turn(Model(), took, out) == C.DoSendClientCertificateVerify(old(Model()), e)
      ensures !wait.ReadMessage? && !wait.ReadCcs?
    {
      if !certRequest || !hasCert {
        took, out := Goto(C.SendClientFinished);
      } else if !e.ready {
        took, out := Stop(Retry);
      } else if !e.ok {
        took, out := Stop(Failed);
      } else {
        took, out := Send(C.SendClientFinished, [Signature(hashed)]);
      }
    }

    method DoSendClientFinished(e: Env) returns (took: bool, out: seq<Item>)
      modifies this
      ensures C.Turn(Model(), took, out) == C.DoSendClientFinished(old(Model()), e)
      ensures !wait.ReadMessage? && !wait.ReadCcs?
    {
      if params.channelId && !e.ready {
        took, out := Stop(Retry);
        return;
      }
      if !e.ok {
        took, out := Stop(Failed);
        return;
      }
      var extras := C.Extras(params, data);
      hashed := hashed + extras;
      var fin := Mac(false, hashed);
      hashed := hashed + [fin];
      ownFinished := ownFinished + 1;
      state, wait := C.FinishFlight, Flush;
      flight := flight + ([Ccs] + Handshakes(extras) + [Handshake(fin)]);
      return false, [];
    }

    method DoFinishFlight() returns (took: bool, out: seq<Item>)
      modifies this
      ensures C.Turn(Model(), took, out) == C.DoFinishFlight(old(Model()))
      ensures !wait.ReadMessage? && !wait.ReadCcs?
    {
      if params.resumed {
        took, out := Goto(C.FinishClientHandshake);
        return;
      }
      state := C.ReadSessionTicket;
      wait := if falseStart then EarlyReturn else Running;
      return false, [];
    }

    method DoReadSessionTicket(e: Env) returns (took: bool, out: seq<Item>)
      modifies this
      ensures C.Turn(Model(), took, out) == C.DoReadSessionTicket(old(Model()), e)
      ensures wait.ReadMessage? ==> e.head.None?
      ensures wait.ReadCcs? ==> state.ProcessChangeCipherSpec?
    {
      if params.ticket {
        var p := PeekType(e, NewSessionTicket);
        if p.NoMessage? {
          took, out := Stop(ReadMessage);
          return;
        }
        if p.Wrong? || !e.ok {
          took, out := Stop(Failed);
          return;
        }
        hashed := hashed + [p.m];
      }
      state, wait := C.ProcessChangeCipherSpec, ReadCcs;
      return params.ticket, [];
    }

    method DoReadServerFinished(e: Env) returns (took: bool, out: seq<Item>)
      modifies this
      ensures C.Turn(Model(), took, out) == C.DoReadServerFinished(old(Model()), e)
      ensures (wait.ReadMessage? ==> e.head.None?) && !wait.ReadCcs?
    {
      var p := PeekType(e, Finished);
      if p.NoMessage? {
        took, out := Stop(ReadMessage);
      } else if p.Wrong? || p.m != Mac(true, hashed) {
        took, out := Stop(Failed);
      } else {
        peerFinished := peerFinished + 1;
        took, out := Take(if params.resumed then C.SendClientFinished else C.FinishClientHandshake, p.m);
      }
    }

    method DoPass(e: Env, s: C.State) returns (took: bool, out: seq<Item>)
      modifies this
      ensures C.Turn(Model(), took, out) == C.Pass(old(Model()), e, s)
      ensures !wait.ReadMessage? && !wait.ReadCcs?
    {
      if e.ok {
        took, out := Goto(s);
      } else {
        took, out := Stop(Failed);
      }
    }

    /** The ChangeCipherSpec case of ssl_run_handshake. */
    method DriveCcs(e: Env) returns (took: bool, out: seq<Item>)
      modifies this
      ensures C.Turn(Model(), took, out) == C.DriveCcs(old(Model()), e)
      requires wait.ReadCcs?
      ensures (wait.ReadCcs? && e.head.None?) || wait.Running? || wait.Failed?
    {
      if e.head.None? {
        return false, [];
      }
      if !e.head.value.Ccs? {
        took, out := Stop(Failed);
        return;
      }
      wait := Running;
      return true, [];
    }

    /** The flush case of ssl_run_handshake. */
    method DriveFlush(e: Env) returns (took: bool, out: seq<Item>)
      requires wait.Flush?
      modifies this`wait, this`flight
      ensures C.Turn(Model(), took, out) == C.DriveFlush(old(Model()), e)
      ensures if FlushDone(old(flight), e) then wait.Running? else wait.Flush?
    {
      var n := Flushed(flight, e);
      out := flight[..n];
      if n == |flight| && e.drained {
        wait := Running;
      }
      flight := flight[n..];
      return false, out;
    }

    /** One turn of ssl_run_handshake and of the switch in ssl_client_handshake. */
    method Turn(e: Env) returns (took: bool, out: seq<Item>)
      modifies this
      ensures C.Turn(Model(), took, out) == C.Step(old(Model()), e)
      ensures !old(wait.Failed? || state.Done?) ==>
        && (wait.ReadMessage? ==> e.head.None?)
        && (wait.ReadCcs? && old(wait.ReadCcs?) ==> e.head.None?)
        && (wait.Flush? && old(wait.Flush?) ==> !FlushDone(old(flight), e))
        && (wait.ReadCcs? && !old(wait.ReadCcs?) ==> old(state) != state)
    {
      hide C.DoStartConnect;
      hide C.DoReadServerHello;
      hide C.DoReadServerCertificate;
      hide C.DoReadCertificateStatus;
      hide C.DoVerifyServerCertificate;
      hide C.DoReadServerKeyExchange;
      hide C.DoReadCertificateRequest;
      hide C.DoSendClientCertificate;
      hide C.DoSendClientKeyExchange;
      hide C.DoSendClientCertificateVerify;
      hide C.DoSendClientFinished;
      hide C.DoFinishFlight;
      hide C.DoReadSessionTicket;
      hide C.DoReadServerFinished;
      hide C.ReadPlain;
      hide C.Pass;
      hide C.DriveCcs;
      hide C.DriveFlush;
      if wait.Failed? || state.Done? {
        return false, [];
      }
      if wait.ReadCcs? {
        took, out := DriveCcs(e);
        return;
      }
      if wait.Flush? {
        took, out := DriveFlush(e);
        return;
      }
      match state
      case StartConnect => took, out := DoStartConnect(e);
      case EnterEarlyData => took, out := Goto(C.ReadServerHello);
      case ReadServerHello => took, out := DoReadServerHello(e);
      case ReadServerCertificate => took, out := DoReadServerCertificate(e);
      case ReadCertificateStatus => took, out := DoReadCertificateStatus(e);
      case VerifyServerCertificate => took, out := DoVerifyServerCertificate(e);
      case ReadServerKeyExchange => took, out := DoReadServerKeyExchange(e);
      case ReadCertificateRequest => took, out := DoReadCertificateRequest(e);
      case ReadServerHelloDone => took, out := DoReadServerHelloDone(e);
      case SendClientCertificate => took, out := DoSendClientCertificate(e);
      case SendClientKeyExchange => took, out := DoSendClientKeyExchange(e);
      case SendClientCertificateVerify => took, out := DoSendClientCertificateVerify(e);
      case SendClientFinished => took, out := DoSendClientFinished(e);
      case FinishFlight => took, out := DoFinishFlight();
      case ReadSessionTicket => took, out := DoReadSessionTicket(e);
      case ProcessChangeCipherSpec => took, out := DoPass(e, C.ReadServerFinished);
      case ReadServerFinished => took, out := DoReadServerFinished(e);
      case FinishClientHandshake => took, out := DoPass(e, C.Done);
    }

    /** ssl_run_handshake until it has to return: the handshake is over or has failed, the transport does not take
        the whole flight, an item is missing and everything composed is out, or a callback is not ready. The k-th
        turn is answered by `ready(k)`, `ok(k)`, and, if it flushes, `sent(k)` and `drained(k)`. */
    method RunHandshake(inbox: seq<Item>, ready: nat -> bool, ok: nat -> bool, sent: nat -> nat, drained: nat -> bool)
      returns (rest: seq<Item>, out: seq<Item>, ghost answers: seq<Answer>)
      requires C.Placed(Model()) && C.Backed(Model())
      modifies this
      ensures C.Placed(Model()) && C.Backed(Model())
      ensures |rest| <= |inbox| && C.Course(Model(), inbox[..|inbox| - |rest|], rest, out) == C.Feed(C.Course(old(Model()), [], inbox, []), answers)
      ensures || state.Done? || wait.Failed? || wait.Retry? || wait.EarlyReturn? || wait.Flush?
              || ((wait.ReadMessage? || wait.ReadCcs?) && rest == [])
      ensures state.Done? || wait.ReadMessage? || wait.ReadCcs? ==> flight == []
      ensures wait.EarlyReturn? ==> falseStart && !params.resumed && ownFinished == 1 && peerFinished == 0 && flight == []
      ensures state.Done? ==>
        && peerFinished == 1 && ownFinished == 1 && HasMac(hashed, true) && HasMac(hashed, false)
        && (params.certAuth && !params.resumed ==> verified)
    {
      hide C.Step;
      hide C.Backed;
      hide C.Placed;
      hide C.Measure;
      hide HasMac;
      hide FlushDone;
      hide C.Feed;
      hide C.Next;
      ghost var start := C.Course(Model(), [], inbox, []);
      out, answers := [], [];
      var n, k := 0, 0;
      Start(start, inbox);
      while !state.Done? && !wait.Failed?
        invariant C.Placed(Model()) && C.Backed(Model()) && n <= |inbox|
        invariant C.Course(Model(), inbox[..n], inbox[n..], out) == C.Feed(start, answers)
        decreases if state.Done? || wait.Failed? then 0 else 1 + C.Measure(Model())
      {
        ghost var c := Model();
        var flushing := wait.Flush?;
        var a := Answer(true, ready(k), ok(k), sent(k), drained(k));
        var e := Facing(inbox[n..], a);
        C.TurnKeeps(c, e);
        C.NextAt(c, inbox, n, out, a);
        C.FeedSnoc(start, answers, a);
        var took, o := Turn(e);
        answers := answers + [a];
        out, k := out + o, k + 1;
        if took && n < |inbox| {
          n := n + 1;
        }
        if wait.Retry? || wait.EarlyReturn? || (flushing && wait.Flush?) {
          break;
        }
        if e.head.None? && (wait.ReadMessage? || wait.ReadCcs?) {
          break;
        }
      }
      C.AtRest(Model());
      rest := inbox[n..];
      assert |inbox| - |rest| == n;
    }

    static lemma {:induction false} Start(k: C.Course, inbox: seq<Item>)
      requires k.read == [] && k.inbox == inbox
      ensures C.Feed(k, []) == k && inbox[..0] == [] && inbox[0..] == inbox
    {
    }
  }
}
