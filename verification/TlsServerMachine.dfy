/** The server's handshake state as the code updates it, each turn proved to be the one of TlsServer
    (handshake_server.cc, handshake.cc). */
module TlsServerMachine {
  import opened Octets
  import opened TlsMessageTypes
  import S = TlsServer

  /** SSL_HANDSHAKE of a server. */
  class ServerHandshake {
    var state: S.State
    var wait: Wait
    const requireCert: bool
    const data: nat
    const params: Params
    var hasParams: bool
    var peerKey: bool
    var chainVerified: bool
    var sigVerified: bool
    var hashed: seq<Msg>
    /** pending_flight */
    var flight: seq<Item>
    var peerFinished: nat
    var ownFinished: nat

    ghost function Model(): S.Server
      reads this
    {
      S.Server(state, wait, requireCert, data, params, hasParams, peerKey, chainVerified, sigVerified, hashed, flight,
               peerFinished, ownFinished)
    }

    constructor (params: Params, requireCert: bool, data: nat)
      ensures Model() == S.Initial(params, requireCert, data)
    {
      state, wait := S.StartAccept, Running;
      this.requireCert, this.data, this.params := requireCert, data, params;
      hasParams, peerKey, chainVerified, sigVerified := false, false, false, false;
      hashed, flight, peerFinished, ownFinished := [], [], 0, 0;
    }

    method Stop(w: Wait) returns (took: bool, out: seq<Item>)
      modifies this`wait
      ensures S.Turn(Model(), took, out) == S.Block(old(Model()), w)
    {
      wait := w;
      return false, [];
    }

    method Goto(st: S.State) returns (took: bool, out: seq<Item>)
      modifies this`state, this`wait
      ensures S.Turn(Model(), took, out) == S.Goto(old(Model()), st)
    {
      state, wait := st, Running;
      return false, [];
    }

    /** ssl_hash_message and next_message */
    method Take(st: S.State, m: Msg) returns (took: bool, out: seq<Item>)
      modifies this`state, this`wait, this`hashed
      ensures S.Turn(Model(), took, out) == S.Take(old(Model()), st, m)
    {
      hashed := hashed + [m];
      state, wait := st, Running;
      return true, [];
    }

    /** ssl_add_message_cbb, and the flush a state may ask for */
    method Send(st: S.State, w: Wait, ms: seq<Msg>) returns (took: bool, out: seq<Item>)
      modifies this`state, this`wait, this`hashed, this`flight
      ensures S.Turn(Model(), took, out) == S.Send(old(Model()), st, w, ms)
    {
      hashed := hashed + ms;
      state, wait := st, w;
      flight := flight + Handshakes(ms);
      return false, [];
    }

    method DoReadClientHello(e: Env) returns (took: bool, out: seq<Item>)
      modifies this
      ensures S.Turn(Model(), took, out) == S.DoReadClientHello(old(Model()), e)
      ensures (wait.ReadMessage? ==> e.head.None?) && !wait.ReadCcs?
    {
      var p := PeekType(e, ClientHello);
      if p.NoMessage? {
        took, out := Stop(ReadMessage);
      } else if p.Wrong? {
        took, out := Stop(Failed);
      } else if !e.ready {
        took, out := Stop(Retry);
      } else if !e.ok {
        took, out := Stop(Failed);
      } else {
        took, out := Goto(S.SelectCertificate);
      }
    }

    method DoSelectCertificate(e: Env) returns (took: bool, out: seq<Item>)
      modifies this
      ensures S.Turn(Model(), took, out) == S.DoSelectCertificate(old(Model()), e)
      ensures (wait.ReadMessage? ==> e.head.None?) && !wait.ReadCcs?
    {
      var p := PeekAny(e);
      if p.NoMessage? {
        took, out := Stop(ReadMessage);
      } else if p.Wrong? {
        took, out := Stop(Failed);
      } else if !e.ready {
        took, out := Stop(Retry);
      } else if !e.ok {
        took, out := Stop(Failed);
      } else {
        took, out := Goto(S.SelectParameters);
      }
    }

    method DoSelectParameters(e: Env) returns (took: bool, out: seq<Item>)
      modifies this
      ensures S.Turn(Model(), took, out) == S.DoSelectParameters(old(Model()), e)
      ensures (wait.ReadMessage? ==> e.head.None?) && !wait.ReadCcs?
    {
      var p := PeekAny(e);
      if p.NoMessage? {
        took, out := Stop(ReadMessage);
      } else if p.Wrong? {
        took, out := Stop(Failed);
      } else if !e.ready {
        took, out := Stop(Retry);
      } else if !e.ok {
        took, out := Stop(Failed);
      } else {
        took, out := Take(S.SendServerHello, p.m);
      }
    }

    method DoSendServerHello(e: Env) returns (took: bool, out: seq<Item>)
      modifies this
      ensures S.Turn(Model(), took, out) == S.DoSendServerHello(old(Model()), e)
      ensures !wait.ReadMessage? && !wait.ReadCcs?
    {
      if !e.ok {
        took, out := Stop(Failed);
      } else {
        took, out := Send(if params.resumed then S.SendServerFinished else S.SendServerCertificate, Running,
                          [Hello(params, data)]);
      }
    }

    method DoSendServerCertificate(e: Env) returns (took: bool, out: seq<Item>)
      modifies this
      ensures S.Turn(Model(), took, out) == S.DoSendServerCertificate(old(Model()), e)
      ensures !wait.ReadMessage? && !wait.ReadCcs?
    {
      if !e.ok {
        took, out := Stop(Failed);
        return;
      }
      hasParams := params.Ske();
      took, out := Send(S.SendServerKeyExchange, Running, S.CertificateFlight(params, data));
    }

    method DoSendServerKeyExchange(e: Env) returns (took: bool, out: seq<Item>)
      modifies this
      ensures S.Turn(Model(), took, out) == S.DoSendServerKeyExchange(old(Model()), e)
      ensures !wait.ReadMessage? && !wait.ReadCcs?
    {
      if !hasParams {
        took, out := Goto(S.SendServerHelloDone);
      } else if params.certAuth && !e.ready {
        took, out := Stop(Retry);
      } else if !e.ok {
        took, out := Stop(Failed);
      } else {
        hasParams := false;
        took, out := Send(S.SendServerHelloDone, Running, [Plain(ServerKeyExchange, data)]);
      }
    }

    method DoSendServerHelloDone(e: Env) returns (took: bool, out: seq<Item>)
      modifies this
      ensures S.Turn(Model(), took, out) == S.DoSendServerHelloDone(old(Model()), e)
      ensures !wait.ReadMessage? && !wait.ReadCcs?
    {
      if !e.ok {
        took, out := Stop(Failed);
      } else {
        took, out := Send(S.ReadClientCertificate, Flush, S.HelloDoneFlight(params, data));
      }
    }

    method DoReadClientCertificate(e: Env) returns (took: bool, out: seq<Item>)
      modifies this
      ensures S.Turn(Model(), took, out) == S.DoReadClientCertificate(old(Model()), e)
      ensures (wait.ReadMessage? ==> e.head.None?) && !wait.ReadCcs?
    {
      if !params.certRequest {
        took, out := Goto(S.VerifyClientCertificate);
        return;
      }
      var p := PeekType(e, Certificate);
      if p.NoMessage? {
        took, out := Stop(ReadMessage);
      } else if p.Wrong? || !e.ok || !p.m.Chain? || (p.m.empty && requireCert) {
        took, out := Stop(Failed);
      } else {
        peerKey := !p.m.empty;
        took, out := Take(S.VerifyClientCertificate, p.m);
      }
    }

    method DoVerifyClientCertificate(e: Env) returns (took: bool, out: seq<Item>)
      modifies this
      ensures S.Turn(Model(), took, out) == S.DoVerifyClientCertificate(old(Model()), e)
      ensures !wait.ReadMessage? && !wait.ReadCcs?
    {
      if peerKey {
        if !e.ready {
          took, out := Stop(Retry);
          return;
        }
        if !e.ok {
          took, out := Stop(Failed);
          return;
        }
        chainVerified := true;
      }
      took, out := Goto(S.ReadClientKeyExchange);
    }

    method DoReadClientKeyExchange(e: Env) returns (took: bool, out: seq<Item>)
      modifies this
      ensures S.Turn(Model(), took, out) == S.DoReadClientKeyExchange(old(Model()), e)
      ensures (wait.ReadMessage? ==> e.head.None?) && !wait.ReadCcs?
    {
      var p := PeekType(e, ClientKeyExchange);
      if p.NoMessage? {
        took, out := Stop(ReadMessage);
      } else if p.Wrong? {
        took, out := Stop(Failed);
      } else if !e.ready {
        took, out := Stop(Retry);
      } else if !e.ok {
        took, out := Stop(Failed);
      } else {
        took, out := Take(S.ReadClientCertificateVerify, p.m);
      }
    }

    method DoReadClientCertificateVerify(e: Env) returns (took: bool, out: seq<Item>)
      modifies this
      ensures S.Turn(Model(), took, out) == S.DoReadClientCertificateVerify(old(Model()), e)
      ensures (wait.ReadMessage? ==> e.head.None?) && !wait.ReadCcs?
    {
      if !peerKey {
        took, out := Goto(S.ReadChangeCipherSpec);
        return;
      }
      var p := PeekType(e, CertificateVerify);
      if p.NoMessage? {
        took, out := Stop(ReadMessage);
      } else if p.Wrong? || !e.ok || p.m != Signature(hashed) {
        took, out := Stop(Failed);
      } else {
        sigVerified := true;
        took, out := Take(S.ReadChangeCipherSpec, p.m);
      }
    }

    method ReadPlain(e: Env, ty: MsgType, st: S.State) returns (took: bool, out: seq<Item>)
      modifies this
      ensures S.Turn(Model(), took, out) == S.ReadPlain(old(Model()), e, ty, st)
      ensures (wait.ReadMessage? ==> e.head.None?) && !wait.ReadCcs?
    {
      hide PeekType;
      hide PeekAny;
      hide TypeOf;
      var p := PeekType(e, ty);
      ghost var t := S.ReadPlain(Model(), e, ty, st);
      if p.NoMessage? {
        assert t == S.Block(Model(), ReadMessage);
        took, out := Stop(ReadMessage);
      } else if p.Wrong? || !e.ok {
        assert t == S.Fail(Model());
        took, out := Stop(Failed);
      } else {
        assert t == S.Take(Model(), st, p.m);
        took, out := Take(st, p.m);
      }
    }

    method DoReadNextProto(e: Env) returns (took: bool, out: seq<Item>)
      modifies this
      ensures S.Turn(Model(), took, out) == S.DoReadNextProto(old(Model()), e)
      ensures (wait.ReadMessage? ==> e.head.None?) && !wait.ReadCcs?
    {
      if params.npn {
        took, out := ReadPlain(e, NextProto, S.ReadChannelId);
      } else {
        took, out := Goto(S.ReadChannelId);
      }
    }

    method DoReadChannelId(e: Env) returns (took: bool, out: seq<Item>)
      modifies this
      ensures S.Turn(Model(), took, out) == S.DoReadChannelId(old(Model()), e)
      ensures (wait.ReadMessage? ==> e.head.None?) && !wait.ReadCcs?
    {
      if params.channelId {
        took, out := ReadPlain(e, ChannelId, S.ReadClientFinished);
      } else {
        took, out := Goto(S.ReadClientFinished);
      }
    }

    method DoReadClientFinished(e: Env) returns (took: bool, out: seq<Item>)
      modifies this
      ensures S.Turn(Model(), took, out) == S.DoReadClientFinished(old(Model()), e)
      ensures (wait.ReadMessage? ==> e.head.None?) && !wait.ReadCcs?
    {
      var p := PeekType(e, Finished);
      if p.NoMessage? {
        took, out := Stop(ReadMessage);
      } else if p.Wrong? || p.m != Mac(false, hashed) || !e.ok {
        took, out := Stop(Failed);
      } else {
        peerFinished := peerFinished + 1;
        took, out := Take(if params.resumed then S.FinishServerHandshake else S.SendServerFinished, p.m);
      }
    }

    method DoSendServerFinished(e: Env) returns (took: bool, out: seq<Item>)
      modifies this
      ensures S.Turn(Model(), took, out) == S.DoSendServerFinished(old(Model()), e)
      ensures !wait.ReadMessage? && !wait.ReadCcs?
    {
      if !e.ok {
        took, out := Stop(Failed);
        return;
      }
      var ticket := Opt(params.ticket, Plain(NewSessionTicket, data));
      hashed := hashed + ticket;
      var fin := Mac(true, hashed);
      hashed := hashed + [fin];
      ownFinished := ownFinished + 1;
      state := if params.resumed then S.ReadChangeCipherSpec else S.FinishServerHandshake;
      wait := Flush;
      flight := flight + (Handshakes(ticket) + [Ccs] + [Handshake(fin)]);
      return false, [];
    }

    method DoReadChangeCipherSpec() returns (took: bool, out: seq<Item>)
      modifies this
      ensures S.Turn(Model(), took, out) == S.AskForCcs(old(Model()))
    {
      state, wait := S.ProcessChangeCipherSpec, ReadCcs;
      return false, [];
    }

    method DoProcessChangeCipherSpec(e: Env) returns (took: bool, out: seq<Item>)
      modifies this
      ensures S.Turn(Model(), took, out) == S.Pass(old(Model()), e, S.ReadNextProto)
      ensures !wait.ReadMessage? && !wait.ReadCcs?
    {
      if e.ok {
        took, out := Goto(S.ReadNextProto);
      } else {
        took, out := Stop(Failed);
      }
    }

    /** The ChangeCipherSpec case of ssl_run_handshake. */
    method DriveCcs(e: Env) returns (took: bool, out: seq<Item>)
      requires wait.ReadCcs?
      modifies this
      ensures S.Turn(Model(), took, out) == S.DriveCcs(old(Model()), e)
      ensures (wait.ReadCcs? && e.head.None?) || wait.Running? || wait.Failed?
    {
      if e.head.None? {
        return false, [];
      }
      if !e.head.value.Ccs? {
        took, out := Stop(Failed);
        return;
      }
      wait := Running;
      return true, [];
    }

    /** The flush case of ssl_run_handshake. */
    method DriveFlush(e: Env) returns (took: bool, out: seq<Item>)
      requires wait.Flush?
      modifies this`wait, this`flight
      ensures S.Turn(Model(), took, out) == S.DriveFlush(old(Model()), e)
      ensures if FlushDone(old(flight), e) then wait.Running? else wait.Flush?
    {
      var n := Flushed(flight, e);
      out := flight[..n];
      if n == |flight| && e.drained {
        wait := Running;
      }
      flight := flight[n..];
      return false, out;
    }

    /** One turn of ssl_run_handshake and of the switch in ssl_server_handshake. */
    method Turn(e: Env) returns (took: bool, out: seq<Item>)
      modifies this
      ensures S.Turn(Model(), took, out) == S.Step(old(Model()), e)
      ensures !old(wait.Failed? || state.Done?) ==>
        && (wait.ReadMessage? ==> e.head.None?)
        && (wait.ReadCcs? && old(wait.ReadCcs?) ==> e.head.None?)
        && (wait.Flush? && old(wait.Flush?) ==> !FlushDone(old(flight), e))
        && (wait.ReadCcs? && !old(wait.ReadCcs?) ==> old(state) != state)
    {
      hide S.DoReadClientHello;
      hide S.DoSelectCertificate;
      hide S.DoSelectParameters;
      hide S.DoSendServerHello;
      hide S.DoSendServerCertificate;
      hide S.DoSendServerKeyExchange;
      hide S.DoSendServerHelloDone;
      hide S.DoReadClientCertificate;
      hide S.DoVerifyClientCertificate;
      hide S.DoReadClientKeyExchange;
      hide S.DoReadClientCertificateVerify;
      hide S.DoReadNextProto;
      hide S.DoReadChannelId;
      hide S.DoReadClientFinished;
      hide S.DoSendServerFinished;
      hide S.ReadPlain;
      hide S.Pass;
      hide S.DriveCcs;
      hide S.DriveFlush;
      if wait.Failed? || state.Done? {
        return false, [];
      }
      if wait.ReadCcs? {
        took, out := DriveCcs(e);
        return;
      }
      if wait.Flush? {
        took, out := DriveFlush(e);
        return;
      }
      match state
      case StartAccept => took, out := Goto(S.ReadClientHello);
      case ReadClientHello => took, out := DoReadClientHello(e);
      case SelectCertificate => took, out := DoSelectCertificate(e);
      case SelectParameters => took, out := DoSelectParameters(e);
      case SendServerHello => took, out := DoSendServerHello(e);
      case SendServerCertificate => took, out := DoSendServerCertificate(e);
      case SendServerKeyExchange => took, out := DoSendServerKeyExchange(e);
      case SendServerHelloDone => took, out := DoSendServerHelloDone(e);
      case ReadClientCertificate => took, out := DoReadClientCertificate(e);
      case VerifyClientCertificate => took, out := DoVerifyClientCertificate(e);
      case ReadClientKeyExchange => took, out := DoReadClientKeyExchange(e);
      case ReadClientCertificateVerify => took, out := DoReadClientCertificateVerify(e);
      case ReadChangeCipherSpec => took, out := DoReadChangeCipherSpec();
      case ProcessChangeCipherSpec => took, out := DoProcessChangeCipherSpec(e);
      case ReadNextProto => took, out := DoReadNextProto(e);
      case ReadChannelId => took, out := DoReadChannelId(e);
      case ReadClientFinished => took, out := DoReadClientFinished(e);
      case SendServerFinished => took, out := DoSendServerFinished(e);
      case FinishServerHandshake => took, out := Goto(S.Done);
    }

    /** ssl_run_handshake until it has to return: the handshake is over or has failed, the transport does not take
        the whole flight, an item is missing and everything composed is out, or a callback is not ready. The k-th
        turn is answered by `ready(k)`, `ok(k)`, and, if it flushes, `sent(k)` and `drained(k)`. */
    method RunHandshake(inbox: seq<Item>, ready: nat -> bool, ok: nat -> bool, sent: nat -> nat, drained: nat -> bool)
      returns (rest: seq<Item>, out: seq<Item>, ghost answers: seq<Answer>)
      requires S.Placed(Model()) && S.Backed(Model())
      modifies this
      ensures S.Placed(Model()) && S.Backed(Model())
      ensures |rest| <= |inbox| && S.Course(Model(), inbox[..|inbox| - |rest|], rest, out) == S.Feed(S.Course(old(Model()), [], inbox, []), answers)
      ensures || state.Done? || wait.Failed? || wait.Retry? || wait.Flush?
              || ((wait.ReadMessage? || wait.ReadCcs?) && rest == [])
      ensures state.Done? || wait.ReadMessage? || wait.ReadCcs? ==> flight == []
      ensures state.Done? ==>
        && peerFinished == 1 && ownFinished == 1 && HasMac(hashed, true) && HasMac(hashed, false)
        && (peerKey || (params.certRequest && requireCert && !params.resumed) ==> peerKey && chainVerified && sigVerified)
    {
      hide S.Step;
      hide S.Backed;
      hide S.Placed;
      hide S.Appends;
      hide S.Rank;
      hide HasMac;
      hide FlushDone;
      hide S.Feed;
      hide S.Next;
      ghost var start := S.Course(Model(), [], inbox, []);
      out, answers := [], [];
      var n, k := 0, 0;
      Start(start, inbox);
      while !state.Done? && !wait.Failed?
        invariant S.Placed(Model()) && S.Backed(Model()) && n <= |inbox|
        invariant S.Course(Model(), inbox[..n], inbox[n..], out) == S.Feed(start, answers)
        decreases if state.Done? || wait.Failed? then 0 else 1 + S.Measure(Model())
      {
        ghost var s := Model();
        var flushing := wait.Flush?;
        var a := Answer(true, ready(k), ok(k), sent(k), drained(k));
        var e := Facing(inbox[n..], a);
        S.StepSound(s, e);
        S.StepBacked(s, S.Step(s, e));
        S.NextAt(s, inbox, n, out, a);
        S.FeedSnoc(start, answers, a);
        var took, o := Turn(e);
        answers := answers + [a];
        out, k := out + o, k + 1;
        if took && n < |inbox| {
          n := n + 1;
        }
        if wait.Retry? || (flushing && wait.Flush?) {
          break;
        }
        if e.head.None? && (wait.ReadMessage? || wait.ReadCcs?) {
          break;
        }
      }
      S.RunIsSafe(Model(), []);
      rest := inbox[n..];
      assert |inbox| - |rest| == n;
    }

    static lemma {:induction false} Start(k: S.Course, inbox: seq<Item>)
      requires k.read == [] && k.inbox == inbox
      ensures S.Feed(k, []) == k && inbox[..0] == [] && inbox[0..] == inbox
    {
    }
  }
}
