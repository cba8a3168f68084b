/** Conservation: without faults and with distinct ids, as long as no server loop has returned, the request of every
    waiting call is on a stream, or its response is on its way to it. */
module Conservation {
  import opened Wire
  import opened Codec
  import opened Framing
  import opened Client
  import opened Correlation
  import opened Orderliness
  import opened ClientTheorems
  import opened Supply
  import opened System
  import opened NetRuns
  import opened Exactness
  import opened Progress

  /** Request `m` is on its way up stream `st`. */
  predicate RequestOn(cfg: Server.Config, n: Net, st: StreamId, m: Message) {
    (Request, m) in ReadMessages(ServerSide, cfg.z, On(n.up, st))
  }

  ghost predicate RequestUp(cfg: Server.Config, n: Net, m: Message) {
    exists st :: RequestOn(cfg, n, st, m)
  }

  /** The response of call `c` has reached a reader or its channel, or is on a stream or just decoded. */
  ghost predicate ReplyComing(cfg: Server.Config, n: Net, c: CallId)
    requires c in n.client.calls
  {
    || (exists x: Place :: !x.InTable? && RefersTo(n.client, x, c))
    || (exists st :: ReplyNear(cfg, n, st, n.client.calls[c].req.requestId))
  }

  ghost predicate Conserved(cfg: Server.Config, n: Net) {
    n.stopped == {} ==>
      forall c :: c in n.client.calls && n.client.calls[c].phase.Waiting? ==>
        RequestUp(cfg, n, n.client.calls[c].req) || ReplyComing(cfg, n, c)
  }

  // ---- Steps of the client -------------------------------------------------------------------

  /** Only `Write` makes a call wait. */
  predicate WaitedBefore(s: State, t: State, c: CallId) {
    c in t.calls && t.calls[c].phase.Waiting? ==>
      c in s.calls && s.calls[c].phase.Waiting? && s.calls[c].req == t.calls[c].req
  }

  lemma WaitedStarting(s: State, a: Action, c: CallId)
    requires Enabled(s, a) && Starting(a)
    ensures WaitedBefore(s, Step(s, a), c)
  {
    hide Unreferenced;
  }

  lemma WaitedSending(s: State, a: Action, c: CallId)
    requires Enabled(s, a) && Sending(a) && a != Write(c)
    ensures WaitedBefore(s, Step(s, a), c)
  {
  }

  lemma WaitedFinishing(s: State, a: Action, c: CallId)
    requires Enabled(s, a) && Finishing(a)
    ensures WaitedBefore(s, Step(s, a), c) && (a == Receive(c) ==> !Step(s, a).calls[c].phase.Waiting?)
  {
  }

  lemma Waited(s: State, a: Action, c: CallId)
    requires Enabled(s, a) && a != Write(c)
    ensures WaitedBefore(s, Step(s, a), c)
    ensures a == Receive(c) && c in Step(s, a).calls ==> !Step(s, a).calls[c].phase.Waiting?
  {
    if Starting(a) {
      hide Step, Enabled;
      WaitedStarting(s, a, c);
    } else if Sending(a) {
      hide Step, Enabled;
      WaitedSending(s, a, c);
    } else if Finishing(a) {
      hide Step, Enabled;
      WaitedFinishing(s, a, c);
    } else {
      assert Step(s, a).calls == s.calls;
      hide Step, Enabled;
    }
  }

  /** A response that has left the streams stays within the client until its call receives it. */
  lemma RefStaysOut(cfg: Server.Config, n: Net, a: Action, c: CallId, x: Place)
    requires Steady(cfg, n) && Enabled(n.client, a) && !GivesUp(a, false) && a != Receive(c)
    requires c in n.client.calls && !x.InTable? && RefersTo(n.client, x, c)
    ensures exists y: Place :: !y.InTable? && RefersTo(Step(n.client, a), y, c)
  {
    assert !a.AbandonDelete?;
    hide Invariant, Orderly, DistinctIds, Supplied, Step, Enabled, Linear, Correlated, GivesUp, RefersTo;
    InvariantGood(cfg, n);
    StepKeepsRef(n.client, a, c, x);
    var y := Moved(n.client, a, x);
    assert !y.InTable?;
  }

  lemma DecodedStays(s: State, a: Action, r: ReaderId)
    requires Enabled(s, a) && ReaderOf(s.readers, r).Decoded? && a != Lookup(r)
    ensures ReaderOf(Step(s, a).readers, r) == ReaderOf(s.readers, r)
  {
    hide Unreferenced;
  }

  /** Looking a decoded response up brings it to the reference of the call it bears the id of. */
  lemma LookupFinds(cfg: Server.Config, n: Net, r: ReaderId, c: CallId)
    requires Steady(cfg, n) && ReaderOf(n.client.readers, r).Decoded? && c in n.client.calls
    requires n.client.calls[c].phase.Waiting?
    requires ReaderOf(n.client.readers, r).packet.msg.requestId == n.client.calls[c].req.requestId
    ensures Enabled(n.client, Lookup(r)) && exists y: Place :: !y.InTable? && RefersTo(Step(n.client, Lookup(r)), y, c)
  {
    assert Referenced(n.client, c);
    var x :| RefersTo(n.client, x, c);
    WaitsThere(cfg, n, c, x);
    hide Steady, RefersTo, Step;
    LookupKeepsRef(n.client, r, c, x);
    var y := Moved(n.client, Lookup(r), x);
    assert RefersTo(Step(n.client, Lookup(r)), y, c);
    assert !y.InTable? by { TableRefMoves(n.client, r, c, x); }
  }

  lemma TableRefMoves(s: State, r: ReaderId, c: CallId, x: Place)
    requires ReaderOf(s.readers, r).Decoded? && RefersTo(s, x, c)
    requires RefAt(s, x).value.id == ReaderOf(s.readers, r).packet.msg.requestId
    ensures Enabled(s, Lookup(r)) && !Moved(s, Lookup(r), x).InTable?
  {
  }

  /** A step of the client that touches no stream, and any other that leaves stream `st` alone. */
  lemma NearStays(cfg: Server.Config, n: Net, a: Action, t: Net, c: CallId, st: StreamId)
    requires Steady(cfg, n) && Enabled(n.client, a) && t.client == Step(n.client, a) && On(t.down, st) == On(n.down, st)
    requires c in n.client.calls && n.client.calls[c].phase.Waiting?
    requires c in t.client.calls && t.client.calls[c].req == n.client.calls[c].req
    requires ReplyNear(cfg, n, st, n.client.calls[c].req.requestId)
    ensures ReplyComing(cfg, t, c)
  {
    hide Steady, Step, ReadMessages, RefersTo, Enabled;
    var id := n.client.calls[c].req.requestId;
    if ReplyOn(cfg, n, st, id) {
      assert ReplyOn(cfg, t, st, id);
      assert ReplyNear(cfg, t, st, id);
    } else if a == Lookup(st) {
      LookupFinds(cfg, n, st, c);
    } else {
      DecodedStays(n.client, a, st);
      assert ReplyNear(cfg, t, st, id);
    }
  }

  // ---- Steps on the streams ------------------------------------------------------------------

  /** Reading after what was written on top of frames of requests and events. */
  lemma UpAppend(cfg: Server.Config, calls: map<CallId, Call>, s: Bytes, kind: Kind, m: Message)
    requires cfg.z.Lawful() && UpOk(cfg, calls, s) && Framable(cfg.z, kind, m) && !kind.Response?
    ensures |Encode(m)| < TWO63
    ensures ReadMessages(ServerSide, cfg.z, s + EncodeFrame(cfg.z, kind, m)) == ReadMessages(ServerSide, cfg.z, s) + [(kind, m)]
  {
    hide Framable, Encode, EncodeFrame, ConcatFrames, Submitted, ReadMessages;
    var ms: seq<(Kind, Message)> :| Upward(cfg, calls, s, ms);
    FramableSizes(ServerSide, cfg.z, ms);
    FramableSize(cfg.z, kind, m);
    ConcatFramesAppend(cfg.z, ms, (kind, m));
    var longer := ms + [(kind, m)];
    assert forall km :: km in longer <==> km in ms || km == (kind, m);
    StreamRoundTrip(ServerSide, cfg.z, ms);
    StreamRoundTrip(ServerSide, cfg.z, longer);
  }

  /** More is written to stream `st`. */
  lemma UpGrows(cfg: Server.Config, n: Net, t: Net, st: StreamId, kind: Kind, m: Message)
    requires Steady(cfg, n) && Framable(cfg.z, kind, m) && !kind.Response? && |Encode(m)| < TWO63
    requires t.up == Put(n.up, st, EncodeFrame(cfg.z, kind, m))
    ensures forall x, q :: RequestOn(cfg, n, x, q) ==> RequestOn(cfg, t, x, q)
    ensures kind.Request? ==> RequestOn(cfg, t, st, m)
  {
    hide Framable, Encode, EncodeFrame, ReadMessages, UpOk, DownOk, Good, Genuine, PacketAt, Orderly, Supplied, DistinctIds;
    UpAppend(cfg, n.client.calls, On(n.up, st), kind, m);
    assert On(t.up, st) == On(n.up, st) + EncodeFrame(cfg.z, kind, m);
    assert forall x :: x != st ==> On(t.up, x) == On(n.up, x);
  }

  /** What a turn of the server does to the requests on its stream. */
  lemma ServeConserves(cfg: Server.Config, n: Net, st: StreamId, ok: bool, x: StreamId, m: Message)
    requires Steady(cfg, n) && Can(cfg, n, ServeTurn(st, ok)) && RequestOn(cfg, n, x, m)
    ensures var t := Do(cfg, n, ServeTurn(st, ok));
            RequestOn(cfg, t, x, m) || st in t.stopped || ReplyOn(cfg, t, st, m.requestId)
  {
    hide Do, Encode, EncodeFrame, ReadFrame, DecodePayload, ReadMessages, Orderly, Supplied, DistinctIds, Good, UpOk,
      DownOk, Genuine, PacketAt, Framable, On;
    UpwardRead(cfg, n.client.calls, On(n.up, st));
    ServeEffects(cfg, n, st, ok, x);
    ServeEffects(cfg, n, st, ok, st);
    var s, t := On(n.up, st), Do(cfg, n, ServeTurn(st, ok));
    var r := ReadFrame(s);
    NextMessage(ServerSide, cfg.z, s);
    if x == st && DecodePayload(ServerSide, cfg.z, r.flag, r.payload) == Some((Request, m)) && st !in t.stopped {
      assert Server.React(cfg, r.flag, r.payload) == Server.Answer(m);
      DownAppend(cfg, n.client.calls, On(n.down, st), cfg.ResponseTo(m));
      assert (Response, cfg.ResponseTo(m)) in ReadMessages(ClientSide, cfg.z, On(t.down, st));
    }
  }

  /** Writing more down a stream keeps what is there. */
  lemma DownGrows(cfg: Server.Config, n: Net, t: Net, x: StreamId, r: Server.Reaction, id: nat)
    requires cfg.z.Lawful() && DownOk(cfg, n.client.calls, On(n.down, x)) && t.client == n.client
    requires Server.AnswerFits(cfg, r) && (r.Answer? ==> Framable(cfg.z, Response, cfg.ResponseTo(r.request)))
    requires On(t.down, x) == On(n.down, x) + Server.AnswerBytes(cfg, r) || On(t.down, x) == On(n.down, x)
    requires ReplyNear(cfg, n, x, id)
    ensures ReplyNear(cfg, t, x, id)
  {
    hide Encode, EncodeFrame, ReadMessages, DownOk, Framable, On;
    match r
    case Answer(m) => DownAppend(cfg, n.client.calls, On(n.down, x), cfg.ResponseTo(m));
    case _ => assert On(n.down, x) + [] == On(n.down, x);
  }

  /** It takes nothing off the way down. */
  lemma ServeKeepsReplies(cfg: Server.Config, n: Net, st: StreamId, ok: bool, x: StreamId, id: nat)
    requires Steady(cfg, n) && Can(cfg, n, ServeTurn(st, ok)) && ReplyNear(cfg, n, x, id)
    ensures ReplyNear(cfg, Do(cfg, n, ServeTurn(st, ok)), x, id)
  {
    hide Do, Encode, EncodeFrame, ReadFrame, DecodePayload, ReadMessages, Orderly, Supplied, DistinctIds, Good, UpOk,
      DownOk, Genuine, PacketAt, Framable, On, ReplyNear, Server.AnswerBytes, Server.AnswerFits;
    UpwardRead(cfg, n.client.calls, On(n.up, st));
    ServeEffects(cfg, n, st, ok, x);
    var r := ReadFrame(On(n.up, st));
    var reaction := Server.Effective(Server.React(cfg, r.flag, r.payload), if ok then 1 else 0);
    assert On(n.down, x) + [] == On(n.down, x);
    DownGrows(cfg, n, Do(cfg, n, ServeTurn(st, ok)), x, reaction, id);
  }

  /** A turn of a reader takes a response off its stream and keeps it. */
  lemma ReadKeepsReplies(cfg: Server.Config, n: Net, st: StreamId, x: StreamId, id: nat)
    requires Steady(cfg, n) && Can(cfg, n, ReadTurn(st)) && ReplyNear(cfg, n, x, id)
    ensures ReplyNear(cfg, Do(cfg, n, ReadTurn(st)), x, id)
  {
    hide ReadFrame, DecodePayload, ReadMessages, Orderly, Supplied, DistinctIds, Good, UpOk, DownOk, Genuine, PacketAt;
    var s, t := On(n.down, st), Do(cfg, n, ReadTurn(st));
    DownwardRead(cfg, n.client.calls, s);
    NextMessage(ClientSide, cfg.z, s);
    ReadDoes(cfg, n, st, DecodePayload(ClientSide, cfg.z, ReadFrame(s).flag, ReadFrame(s).payload).value.1);
    assert forall y :: y != st ==> On(t.down, y) == On(n.down, y);
    assert forall y :: y != st ==> ReaderOf(t.client.readers, y) == ReaderOf(n.client.readers, y);
  }

  // ---- All events ----------------------------------------------------------------------------

  /** What an event does to the streams, unless it is a turn of the server or of a reader. */
  lemma OtherEvents(cfg: Server.Config, n: Net, e: Event)
    requires Steady(cfg, n) && Can(cfg, n, e) && !e.ServeTurn? && !e.ReadTurn?
    ensures var t := Do(cfg, n, e);
            && t.down == n.down
            && (forall m :: RequestUp(cfg, n, m) ==> RequestUp(cfg, t, m))
            && (e.Send? ==> RequestUp(cfg, t, n.client.calls[e.c].req))
  {
    hide Framable, Encode, EncodeFrame, ReadMessages, Step, Steady, RequestOn;
    var t := Do(cfg, n, e);
    match e
    case Local(_) => SameUp(cfg, n, t);
    case Send(c, st) =>
      FramableSize(cfg.z, Request, n.client.calls[c].req);
      UpGrows(cfg, n, t, st, Request, n.client.calls[c].req);
    case SendThenFail(c, st) =>
      FramableSize(cfg.z, Request, n.client.calls[c].req);
      UpGrows(cfg, n, t, st, Request, n.client.calls[c].req);
    case SendEvent(st, m) =>
      FramableSize(cfg.z, Kind.Event, m.(requestId := 0));
      UpGrows(cfg, n, t, st, Kind.Event, m.(requestId := 0));
  }

  lemma SameUp(cfg: Server.Config, n: Net, t: Net)
    requires t.up == n.up
    ensures forall x, m :: RequestOn(cfg, n, x, m) ==> RequestOn(cfg, t, x, m)
  {
    hide ReadMessages;
  }

  /** What the event's step on the client does to the response of a waiting call. */
  lemma ClientConserves(cfg: Server.Config, n: Net, e: Event, c: CallId)
    requires Steady(cfg, n) && Can(cfg, n, e) && AllowsEvent(NO_FAULTS, e) && !e.ServeTurn? && !e.ReadTurn?
    requires c in n.client.calls && n.client.calls[c].phase.Waiting? && ReplyComing(cfg, n, c)
    requires c in Do(cfg, n, e).client.calls && Do(cfg, n, e).client.calls[c].phase.Waiting?
    requires Do(cfg, n, e).client.calls[c].req == n.client.calls[c].req
    ensures ReplyComing(cfg, Do(cfg, n, e), c)
  {
    hide Can, Do, Steady, AllowsEvent, ClientAction, Step, Enabled, RefersTo, ReplyNear, ReadMessages, GivesUp;
    var t := Do(cfg, n, e);
    OtherEvents(cfg, n, e);
    ClientMoves(cfg, n, e);
    FaultlessAction(cfg, n, e);
    match ClientAction(cfg, n, e)
    case None =>
      assert t.client == n.client;
      SameClient(cfg, n, t, c);
    case Some(a) =>
      if a == Receive(c) {
        Waited(n.client, a, c);
      }
      if x: Place :| !x.InTable? && RefersTo(n.client, x, c) {
        RefStaysOut(cfg, n, a, c, x);
      } else {
        var st :| ReplyNear(cfg, n, st, n.client.calls[c].req.requestId);
        NearStays(cfg, n, a, t, c, st);
      }
  }

  lemma SameClient(cfg: Server.Config, n: Net, t: Net, c: CallId)
    requires t.client == n.client && t.down == n.down && c in n.client.calls && ReplyComing(cfg, n, c)
    ensures ReplyComing(cfg, t, c)
  {
    hide ReadMessages, RefersTo;
    if x: Place :| !x.InTable? && RefersTo(n.client, x, c) {
      assert RefersTo(t.client, x, c);
    } else {
      var st :| ReplyNear(cfg, n, st, n.client.calls[c].req.requestId);
      assert ReplyNear(cfg, t, st, n.client.calls[c].req.requestId);
    }
  }

  /** A turn of the server or of a reader. */
  lemma TurnConserves(cfg: Server.Config, n: Net, e: Event, c: CallId)
    requires Steady(cfg, n) && Can(cfg, n, e) && (e.ServeTurn? || e.ReadTurn?)
    requires c in n.client.calls && n.client.calls[c].phase.Waiting? && ReplyComing(cfg, n, c)
    ensures c in Do(cfg, n, e).client.calls && Do(cfg, n, e).client.calls[c] == n.client.calls[c]
    ensures ReplyComing(cfg, Do(cfg, n, e), c)
  {
    hide Can, Do, Steady, ClientAction, Step, Enabled, RefersTo, ReplyNear, ReadMessages;
    var t := Do(cfg, n, e);
    TurnMoves(cfg, n, e);
    if x: Place :| !x.InTable? && RefersTo(n.client, x, c) {
      TurnKeepsRef(cfg, n, e, x, c);
    } else {
      var st :| ReplyNear(cfg, n, st, n.client.calls[c].req.requestId);
      if e.ServeTurn? {
        ServeKeepsReplies(cfg, n, e.st, e.ok, st, n.client.calls[c].req.requestId);
      } else {
        ReadKeepsReplies(cfg, n, e.st, st, n.client.calls[c].req.requestId);
      }
    }
  }

  lemma TurnMoves(cfg: Server.Config, n: Net, e: Event)
    requires Can(cfg, n, e) && (e.ServeTurn? || e.ReadTurn?)
    ensures Do(cfg, n, e).client.calls == n.client.calls
    ensures ClientAction(cfg, n, e).Some? ==> ClientAction(cfg, n, e).value.Decode?
  {
    hide ReadFrame, DecodePayload, Do, Can;
    match e
    case ReadTurn(st) => ReadEffects(cfg, n, st, st);
    case ServeTurn(st, ok) => ClientMoves(cfg, n, e);
  }

  lemma TurnKeepsRef(cfg: Server.Config, n: Net, e: Event, x: Place, c: CallId)
    requires Can(cfg, n, e) && (e.ServeTurn? || e.ReadTurn?) && RefersTo(n.client, x, c)
    ensures RefersTo(Do(cfg, n, e).client, x, c)
  {
    hide Can, Do, ClientAction, Step, Enabled, RefAt;
    ClientMoves(cfg, n, e);
    TurnMoves(cfg, n, e);
    match ClientAction(cfg, n, e)
    case Some(a) => KeepsRef(n.client, a, x);
    case None =>
  }

  /** The request of a waiting call across any event. */
  lemma RequestConserved(cfg: Server.Config, n: Net, e: Event, c: CallId)
    requires Steady(cfg, n) && Can(cfg, n, e) && c in n.client.calls && c in Do(cfg, n, e).client.calls
    requires Do(cfg, n, e).client.calls[c].req == n.client.calls[c].req
    requires RequestUp(cfg, n, n.client.calls[c].req) && Do(cfg, n, e).stopped == {}
    ensures RequestUp(cfg, Do(cfg, n, e), n.client.calls[c].req) || ReplyComing(cfg, Do(cfg, n, e), c)
  {
    hide Can, Do, Steady, RequestOn, ReadMessages, ReplyOn;
    var m, t := n.client.calls[c].req, Do(cfg, n, e);
    if e.ServeTurn? {
      var x :| RequestOn(cfg, n, x, m);
      ServeConserves(cfg, n, e.st, e.ok, x, m);
      assert ReplyOn(cfg, t, e.st, m.requestId) ==> ReplyNear(cfg, t, e.st, m.requestId);
    } else if e.ReadTurn? {
      ReadKeepsUp(cfg, n, e.st);
      SameUp(cfg, n, t);
    } else {
      OtherEvents(cfg, n, e);
    }
  }

  lemma ReadKeepsUp(cfg: Server.Config, n: Net, st: StreamId)
    requires Can(cfg, n, ReadTurn(st))
    ensures Do(cfg, n, ReadTurn(st)).up == n.up
  {
    hide ReadFrame, DecodePayload, Step;
  }

  lemma StoppedGrows(cfg: Server.Config, n: Net, e: Event)
    requires Can(cfg, n, e)
    ensures n.stopped <= Do(cfg, n, e).stopped
  {
    hide ReadFrame, Do, Can, Server.React;
    match e
    case ServeTurn(st, ok) =>
      if ReadFrame(On(n.up, st)).Frame? {
        ServeEffects(cfg, n, st, ok, st);
      } else {
        EmptyTurn(cfg, n, st, ok);
      }
    case ReadTurn(st) => ReadEffects(cfg, n, st, st);
    case _ => OtherEffects(cfg, n, e);
  }

  /** A call that waits after an event waited before it, or has just been sent. */
  lemma WaitedOrSent(cfg: Server.Config, n: Net, e: Event, c: CallId)
    requires Steady(cfg, n) && Can(cfg, n, e) && c in Do(cfg, n, e).client.calls
    requires Do(cfg, n, e).client.calls[c].phase.Waiting?
    ensures c in n.client.calls && Do(cfg, n, e).client.calls[c].req == n.client.calls[c].req
    ensures n.client.calls[c].phase.Waiting? || (e.Send? && e.c == c)
  {
    hide Do, Steady, Step, ReadFrame, DecodePayload, Framable, Evolves;
    ClientMoves(cfg, n, e);
    match ClientAction(cfg, n, e)
    case None =>
    case Some(a) =>
      if a == Write(c) {
        WritesRequest(n.client, c);
      } else {
        Waited(n.client, a, c);
      }
  }

  lemma WritesRequest(s: State, c: CallId)
    requires Enabled(s, Write(c))
    ensures c in s.calls && c in Step(s, Write(c)).calls && Step(s, Write(c)).calls[c].req == s.calls[c].req
  {
  }

  lemma EventConserves(cfg: Server.Config, n: Net, e: Event)
    requires Steady(cfg, n) && Conserved(cfg, n) && Can(cfg, n, e) && AllowsEvent(NO_FAULTS, e)
    ensures Conserved(cfg, Do(cfg, n, e))
  {
    hide Can, Do, Steady, AllowsEvent, RequestUp, ReplyComing;
    var t := Do(cfg, n, e);
    StoppedGrows(cfg, n, e);
    if t.stopped == {} {
      forall c | c in t.client.calls && t.client.calls[c].phase.Waiting?
        ensures RequestUp(cfg, t, t.client.calls[c].req) || ReplyComing(cfg, t, c)
      {
        WaitedOrSent(cfg, n, e, c);
        if e.Send? && e.c == c {
          OtherEvents(cfg, n, e);
        } else if RequestUp(cfg, n, n.client.calls[c].req) {
          RequestConserved(cfg, n, e, c);
        } else if e.ServeTurn? || e.ReadTurn? {
          TurnConserves(cfg, n, e, c);
        } else {
          ClientConserves(cfg, n, e, c);
        }
      }
    }
  }

  lemma {:induction false} ExecutionConserves(cfg: Server.Config, n: Net, events: seq<Event>, t: Net)
    requires Steady(cfg, n) && Conserved(cfg, n) && Executes(cfg, n, events, t) && DistinctIds(t.client.calls)
    requires forall e :: e in events ==> AllowsEvent(NO_FAULTS, e)
    ensures Steady(cfg, t) && Conserved(cfg, t)
    decreases |events|
  {
    hide Can, Do, Steady, Conserved, AllowsEvent, DistinctIds, Extends;
    if events != [] {
      assert events[0] in events;
      var u := Do(cfg, n, events[0]);
      ExecutionExtends(cfg, u, events[1..], t);
      DistinctBefore(u.client.calls, t.client.calls);
      SteadyEvent(cfg, n, events[0]);
      EventConserves(cfg, n, events[0]);
      ExecutionConserves(cfg, u, events[1..], t);
    }
  }

  /** Nothing is lost: in every run without faults and with distinct ids, as long as no server loop has
      returned, a waiting call's request is still on its way up some stream, or the call can be brought to
      return its own handler's reply. */
  lemma NothingIsLost(cfg: Server.Config, n: Net, c: CallId)
    requires cfg.z.Lawful() && NetReachable(cfg, NO_FAULTS, n) && DistinctIds(n.client.calls) && n.stopped == {}
    requires c in n.client.calls && n.client.calls[c].phase.Waiting?
    ensures RequestUp(cfg, n, n.client.calls[c].req) || CanFinish(cfg, n, c)
  {
    hide Executes, AllowsEvent, Steady, DistinctIds, RequestUp, CanFinish, RefersTo, ReplyNear;
    ReachableIsSteady(cfg, n);
    SteadyStart(cfg);
    var events :| ExecutesWithin(cfg, NO_FAULTS, events, n);
    ExecutionConserves(cfg, START, events, n);
    if !RequestUp(cfg, n, n.client.calls[c].req) {
      if x: Place :| !x.InTable? && RefersTo(n.client, x, c) {
        FinishFrom(cfg, n, c, x);
      } else {
        var st :| ReplyNear(cfg, n, st, n.client.calls[c].req.requestId);
        ResponseArrives(cfg, n, c, st);
      }
    }
  }

  lemma SteadyStart(cfg: Server.Config)
    requires cfg.z.Lawful()
    ensures Steady(cfg, START) && Conserved(cfg, START)
  {
    StartInvariant(cfg);
    hide Invariant;
  }
}
