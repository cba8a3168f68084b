/** Runs of the composed system, as far as the faults that an application and its network allow. */
module NetRuns {
  import opened Wire
  import opened Codec
  import opened Framing
  import opened Client
  import opened Orderliness
  import opened Scenario
  import opened System

  predicate AllowsEvent(f: Faults, e: Event) {
    match e
    case Local(a) => f.Allows(a)
    case SendThenFail(_, _) => f.late
    case _ => true
  }

  ghost predicate ExecutesWithin(cfg: Server.Config, f: Faults, events: seq<Event>, t: Net) {
    Executes(cfg, START, events, t) && forall e :: e in events ==> AllowsEvent(f, e)
  }

  ghost predicate NetReachable(cfg: Server.Config, f: Faults, t: Net) {
    exists events :: ExecutesWithin(cfg, f, events, t)
  }

  /** The client's part in an event, if it has one. */
  function ClientAction(cfg: Server.Config, n: Net, e: Event): Option<Action> {
    match e
    case Local(a) => Some(a)
    case Send(c, _) => Some(Write(c))
    case SendThenFail(c, _) => Some(WriteError(c))
    case SendEvent(_, _) => None
    case ServeTurn(_, _) => None
    case ReadTurn(st) =>
      var r := ReadFrame(On(n.down, st));
      if !r.Frame? then None
      else
        match DecodePayload(ClientSide, cfg.z, r.flag, r.payload)
        case Some((Response, m)) => Some(Decode(st, m))
        case _ => None
  }

  lemma ClientMoves(cfg: Server.Config, n: Net, e: Event)
    requires Can(cfg, n, e)
    ensures match ClientAction(cfg, n, e)
            case Some(a) => Enabled(n.client, a) && Do(cfg, n, e).client == Step(n.client, a)
            case None => Do(cfg, n, e).client == n.client
  {
    hide ReadFrame, DecodePayload, Framable, Step, ReplyFits, Put, EncodeFrame;
    if e.ServeTurn? {
      hide Do, Can;
      if ReadFrame(On(n.up, e.st)).Frame? {
        ServeEffects(cfg, n, e.st, e.ok, e.st);
      } else {
        EmptyTurn(cfg, n, e.st, e.ok);
      }
    }
  }

  lemma EventExtends(cfg: Server.Config, n: Net, e: Event)
    requires Can(cfg, n, e)
    ensures Extends(n.client.calls, Do(cfg, n, e).client.calls)
  {
    ClientMoves(cfg, n, e);
    hide Can, Do, Enabled, Step;
    match ClientAction(cfg, n, e)
    case Some(a) => StepExtends(n.client, a);
    case None =>
  }

  lemma {:induction false} ExecutionExtends(cfg: Server.Config, n: Net, events: seq<Event>, t: Net)
    requires Executes(cfg, n, events, t)
    ensures Extends(n.client.calls, t.client.calls)
    decreases |events|
  {
    hide Can, Do;
    if events != [] {
      EventExtends(cfg, n, events[0]);
      ExecutionExtends(cfg, Do(cfg, n, events[0]), events[1..], t);
    }
  }

  // ---- Extending runs ------------------------------------------------------------------------

  lemma {:induction false} ExecutesThen(cfg: Server.Config, n: Net, events: seq<Event>, t: Net, e: Event)
    requires Executes(cfg, n, events, t) && Can(cfg, t, e)
    ensures Executes(cfg, n, events + [e], Do(cfg, t, e))
    decreases |events|
  {
    hide Do, Can;
    if events == [] {
      assert [] + [e] == [e] && [e][1..] == [];
    } else {
      assert (events + [e])[0] == events[0] && (events + [e])[1..] == events[1..] + [e];
      ExecutesThen(cfg, Do(cfg, n, events[0]), events[1..], t, e);
    }
  }

  lemma NetReach(cfg: Server.Config, f: Faults, n: Net, e: Event)
    requires NetReachable(cfg, f, n) && Can(cfg, n, e) && AllowsEvent(f, e)
    ensures NetReachable(cfg, f, Do(cfg, n, e))
  {
    hide Executes, Can, Do, AllowsEvent;
    var events :| ExecutesWithin(cfg, f, events, n);
    ExecutesThen(cfg, START, events, n, e);
    assert ExecutesWithin(cfg, f, events + [e], Do(cfg, n, e));
  }

  /** What matters of a state: the client's part, and what is on the way on stream 0. */
  ghost predicate Shows(n: Net, s: State, up: Bytes, down: Bytes) {
    n.client == s && On(n.up, 0) == up && On(n.down, 0) == down && 0 !in n.stopped
  }

  ghost predicate At(cfg: Server.Config, f: Faults, s: State, up: Bytes, down: Bytes) {
    exists n :: NetReachable(cfg, f, n) && Shows(n, s, up, down)
  }

  lemma AtStart(cfg: Server.Config, f: Faults)
    ensures At(cfg, f, INIT, [], [])
  {
    assert ExecutesWithin(cfg, f, [], START);
    assert NetReachable(cfg, f, START) && Shows(START, INIT, [], []);
  }

  lemma AtLocal(cfg: Server.Config, f: Faults, s: State, up: Bytes, down: Bytes, a: Action, t: State)
    requires At(cfg, f, s, up, down) && Leads(s, a, t) && f.Allows(a) && !a.Write? && !a.WriteError? && !a.Decode?
    ensures At(cfg, f, t, up, down)
  {
    hide NetReachable, Step, Enabled, Faults.Allows;
    var n :| NetReachable(cfg, f, n) && Shows(n, s, up, down);
    NetReach(cfg, f, n, Local(a));
    assert Shows(Do(cfg, n, Local(a)), t, up, down);
  }

  lemma AtSend(cfg: Server.Config, f: Faults, s: State, up: Bytes, down: Bytes, c: CallId, st: StreamId, t: State)
    requires At(cfg, f, s, up, down) && Leads(s, Write(c), t)
    requires c in s.calls && Framable(cfg.z, Request, s.calls[c].req)
    ensures |Encode(s.calls[c].req)| < TWO63
    ensures At(cfg, f, t, if st == 0 then up + EncodeFrame(cfg.z, Request, s.calls[c].req) else up, down)
  {
    hide NetReachable, Step, Enabled, Framable, Encode, EncodeFrame;
    FramableSize(cfg.z, Request, s.calls[c].req);
    var n :| NetReachable(cfg, f, n) && Shows(n, s, up, down);
    NetReach(cfg, f, n, Send(c, st));
    var frame := EncodeFrame(cfg.z, Request, s.calls[c].req);
    assert Shows(Do(cfg, n, Send(c, st)), t, if st == 0 then up + frame else up, down);
  }

  lemma AtSendThenFail(cfg: Server.Config, f: Faults, s: State, t: State)
    requires At(cfg, f, s, [], []) && Leads(s, WriteError(0), t) && f.late
    requires 0 in s.calls && Framable(cfg.z, Request, s.calls[0].req)
    ensures |Encode(s.calls[0].req)| < TWO63
    ensures At(cfg, f, t, EncodeFrame(cfg.z, Request, s.calls[0].req), [])
  {
    hide NetReachable, Step, Enabled, Framable, Encode, EncodeFrame;
    FramableSize(cfg.z, Request, s.calls[0].req);
    var n :| NetReachable(cfg, f, n) && Shows(n, s, [], []);
    NetReach(cfg, f, n, SendThenFail(0, 0));
    var frame := EncodeFrame(cfg.z, Request, s.calls[0].req);
    assert [] + frame == frame;
    assert Shows(Do(cfg, n, SendThenFail(0, 0)), t, frame, []);
  }

  /** A request that the server answers, in frames that carry both messages. */
  predicate Askable(cfg: Server.Config, m: Message) {
    && m.requestId != 0
    && m.path in cfg.handlers
    && Framable(cfg.z, Request, m)
    && Framable(cfg.z, Response, cfg.ResponseTo(m))
  }

  lemma FrameAlone(side: Side, z: Zstd, kind: Kind, m: Message)
    requires z.Lawful() && Framable(z, kind, m) && !(side.ServerSide? && kind.Response?)
    ensures |Encode(m)| < TWO63
    ensures var r := ReadFrame(EncodeFrame(z, kind, m));
            && r.Frame?
            && DecodePayload(side, z, r.flag, r.payload) == Some((kind, m))
            && EncodeFrame(z, kind, m)[r.next..] == []
  {
    hide Framable, Encode, EncodeFrame, ReadFrame, DecodePayload;
    FramableSize(z, kind, m);
    EncodeFrameReadBack(side, z, kind, m, []);
    assert EncodeFrame(z, kind, m) + [] == EncodeFrame(z, kind, m);
  }

  lemma ServesRequest(cfg: Server.Config, n: Net, m: Message)
    requires cfg.z.Lawful() && Askable(cfg, m) && 0 !in n.stopped
    requires |Encode(m)| < TWO63 && On(n.up, 0) == EncodeFrame(cfg.z, Request, m)
    ensures |Encode(cfg.ResponseTo(m))| < TWO63 && Can(cfg, n, ServeTurn(0, true))
    ensures var t := Do(cfg, n, ServeTurn(0, true));
            && t.client == n.client && t.stopped == n.stopped
            && On(t.up, 0) == []
            && On(t.down, 0) == On(n.down, 0) + EncodeFrame(cfg.z, Response, cfg.ResponseTo(m))
  {
    hide Framable, Encode, EncodeFrame, ReadFrame, DecodePayload;
    FrameAlone(ServerSide, cfg.z, Request, m);
    FramableSize(cfg.z, Response, cfg.ResponseTo(m));
    var r := ReadFrame(On(n.up, 0));
    assert Server.React(cfg, r.flag, r.payload) == Server.Answer(m);
  }

  lemma AtServe(cfg: Server.Config, f: Faults, s: State, m: Message)
    requires cfg.z.Lawful() && Askable(cfg, m) && |Encode(m)| < TWO63
    requires At(cfg, f, s, EncodeFrame(cfg.z, Request, m), [])
    ensures |Encode(cfg.ResponseTo(m))| < TWO63
    ensures At(cfg, f, s, [], EncodeFrame(cfg.z, Response, cfg.ResponseTo(m)))
  {
    hide NetReachable, Can, Do, Framable, Encode, EncodeFrame;
    var n :| NetReachable(cfg, f, n) && Shows(n, s, EncodeFrame(cfg.z, Request, m), []);
    ServesRequest(cfg, n, m);
    NetReach(cfg, f, n, ServeTurn(0, true));
    var frame := EncodeFrame(cfg.z, Response, cfg.ResponseTo(m));
    assert [] + frame == frame;
    assert Shows(Do(cfg, n, ServeTurn(0, true)), s, [], frame);
  }

  lemma AtRead(cfg: Server.Config, f: Faults, s: State, r: Message, t: State)
    requires cfg.z.Lawful() && Framable(cfg.z, Response, r) && |Encode(r)| < TWO63
    requires At(cfg, f, s, [], EncodeFrame(cfg.z, Response, r)) && Leads(s, Decode(0, r), t)
    ensures At(cfg, f, t, [], [])
  {
    hide NetReachable, Framable, Encode, EncodeFrame, ReadFrame, DecodePayload, Step;
    FrameAlone(ClientSide, cfg.z, Response, r);
    var n :| NetReachable(cfg, f, n) && Shows(n, s, [], EncodeFrame(cfg.z, Response, r));
    NetReach(cfg, f, n, ReadTurn(0));
    ReadDoes(cfg, n, 0, r);
    assert Shows(Do(cfg, n, ReadTurn(0)), t, [], []);
  }

  // ---- The echo server -----------------------------------------------------------------------

  /** A server that sends a copy of the request's body back. */
  function Echo(z: Zstd, path: Bytes): Server.Config {
    Server.Config(z, map[path := (m: Message) => Server.Reply(0, [], m.body)], {})
  }

  lemma EchoFits(z: Zstd, id: nat, body: Bytes)
    requires id < TWO64 && |body| + 32 <= TWO32
    ensures Framable(z, Response, Message([], [], id, body, 0, []))
  {
    hide EncVarint, VarintSize;
    VarintFits(id, 64);
    VarintFits(|body|, 64);
    assert |Encode(Message([], [], id, body, 0, []))| <= |body| + 22;
  }

  lemma SmallRequest(z: Zstd, id: nat)
    requires id < TWO64
    ensures Framable(z, Request, EMPTY.(requestId := id))
  {
    hide EncVarint, VarintSize;
    VarintFits(id, 64);
    assert |Encode(EMPTY.(requestId := id))| <= 11;
  }
}
