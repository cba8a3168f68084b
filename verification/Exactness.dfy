/** With the real server behind the streams: every response is its own request's exactly when no call gives up
    a request that may have gone out. Errors before sending are harmless there. */
module Exactness {
  import opened Wire
  import opened Codec
  import opened Framing
  import opened Client
  import opened Correlation
  import opened Orderliness
  import opened ClientTheorems
  import opened Scenario
  import opened System
  import opened NetRuns

  /** Every response received is the handler's reply to the request of the call that received it. */
  ghost predicate OwnReplies(cfg: Server.Config, t: Net) {
    forall c :: c in t.client.calls ==> OwnReply(cfg, t.client.calls[c])
  }

  // ---- Harmless faults -----------------------------------------------------------------------

  /** With distinct ids, a response that bears a request's id is the response to that request. */
  lemma GenuineMeansSent(cfg: Server.Config, n: Net)
    requires Invariant(cfg, n) && DistinctIds(n.client.calls)
    ensures OnlySentAnswered(n.client)
  {
    var s := n.client;
    forall x, c | PacketAt(s, x).Some? && c in s.calls
                  && s.calls[c].req.requestId == PacketAt(s, x).value.msg.requestId
      ensures s.calls[c].sent
    {
      hide PacketAt, Good, UpOk, DownOk, Genuine;
      GenuineIsOwn(cfg, s.calls, c, PacketAt(s, x).value.msg);
    }
  }

  lemma HarmlessAction(cfg: Server.Config, f: Faults, n: Net, e: Event)
    requires AllowsEvent(f, e) && !f.cancel && !f.close && !f.late
    ensures ClientAction(cfg, n, e).Some? ==> !GivesUp(ClientAction(cfg, n, e).value, true)
  {
    hide ReadFrame, DecodePayload;
  }

  lemma OrderlyEvent(cfg: Server.Config, f: Faults, n: Net, e: Event)
    requires Invariant(cfg, n) && DistinctIds(n.client.calls) && Orderly(n.client, true)
    requires Can(cfg, n, e) && AllowsEvent(f, e) && !f.cancel && !f.close && !f.late
    ensures Orderly(Do(cfg, n, e).client, true)
  {
    assert Good(n.client);
    hide Can, Do, Enabled, Step, Invariant, Orderly, Linear, Correlated, Unique, OnlySentAnswered, AllowsEvent,
      ClientAction, GivesUp;
    ClientMoves(cfg, n, e);
    HarmlessAction(cfg, f, n, e);
    GenuineMeansSent(cfg, n);
    match ClientAction(cfg, n, e)
    case Some(a) => OrderlyStep(n.client, a, true);
    case None =>
  }

  lemma {:induction false} OrderlyExecution(cfg: Server.Config, f: Faults, n: Net, events: seq<Event>, t: Net)
    requires cfg.z.Lawful() && !f.cancel && !f.close && !f.late
    requires Invariant(cfg, n) && Orderly(n.client, true) && Executes(cfg, n, events, t) && DistinctIds(t.client.calls)
    requires forall e :: e in events ==> AllowsEvent(f, e)
    ensures Invariant(cfg, t) && Orderly(t.client, true)
    decreases |events|
  {
    if events != [] {
      ExecutionExtends(cfg, n, events, t);
      DistinctBefore(n.client.calls, t.client.calls);
      assert events[0] in events;
      hide Can, Do, Invariant, Orderly, AllowsEvent, DistinctIds, Extends;
      OrderlyEvent(cfg, f, n, events[0]);
      EventKeeps(cfg, n, events[0]);
      OrderlyExecution(cfg, f, Do(cfg, n, events[0]), events[1..], t);
    }
  }

  lemma DistinctBefore(calls: map<CallId, Call>, later: map<CallId, Call>)
    requires Extends(calls, later) && DistinctIds(later)
    ensures DistinctIds(calls)
  {
  }

  /** In every run with distinct ids in which no call gives up a request that may have gone out, every response
      is its own request's, even on channels that earlier failures left entries for. */
  lemma HarmlessFaultsKeepReplies(cfg: Server.Config, f: Faults, t: Net)
    requires cfg.z.Lawful() && !f.cancel && !f.close && !f.late && NetReachable(cfg, f, t) && DistinctIds(t.client.calls)
    ensures OwnReplies(cfg, t)
  {
    var events :| ExecutesWithin(cfg, f, events, t);
    StartInvariant(cfg);
    assert Orderly(INIT, true);
    hide Executes, AllowsEvent;
    OrderlyExecution(cfg, f, START, events, t);
    forall c | c in t.client.calls
      ensures OwnReply(cfg, t.client.calls[c])
    {
      var k := t.client.calls[c];
      if Got(k.phase).Some? {
        hide Invariant, Genuine;
        ReplyIsGenuine(cfg, events, t, c);
        GenuineIsOwn(cfg, t.client.calls, c, Got(k.phase).value.msg);
      }
    }
  }

  // ---- The runs ------------------------------------------------------------------------------

  lemma AtEncoded(cfg: Server.Config, f: Faults, k: Cast, closed: bool)
    requires k.Valid()
    ensures At(cfg, f, k.Alone(closed, Encoded(0), false), [], [])
  {
    hide At, Leads;
    AtStart(cfg, f);
    Begin0(k);
    AtLocal(cfg, f, INIT, [], [], Begin(0, k.first, 0, 0), k.Starts(Begun));
    Begin1(k);
    AtLocal(cfg, f, k.Starts(Begun), [], [], Begin(1, k.second, 0, 0), k.BothStart(Begun, Begun, false));
    Check0(k);
    AtLocal(cfg, f, k.BothStart(Begun, Begun, false), [], [], CheckClosed(0), k.BothStart(Open, Begun, false));
    Check1(k);
    AtLocal(cfg, f, k.BothStart(Open, Begun, false), [], [], CheckClosed(1), k.BothStart(Open, Open, false));
    if closed {
      Closes(k);
      AtLocal(cfg, f, k.BothStart(Open, Open, false), [], [], Close, k.BothStart(Open, Open, true));
    }
    Gets0(k, closed);
    AtLocal(cfg, f, k.BothStart(Open, Open, closed), [], [], GetNew(0, 0), k.Alone(closed, HasChannel(0), false));
    Stores0(k, closed);
    AtLocal(cfg, f, k.Alone(closed, HasChannel(0), false), [], [], Store(0), k.Alone(closed, Stored(0), false));
    Encodes0(k, closed);
    AtLocal(cfg, f, k.Alone(closed, Stored(0), false), [], [], EncodeAndRelease(0), k.Alone(closed, Encoded(0), false));
  }

  ghost predicate Cue(cfg: Server.Config, k: Cast) {
    k.Valid() && cfg.z.Lawful() && Askable(cfg, k.first) && k.response == cfg.ResponseTo(k.first)
  }

  /** The bytes of the response to call 0. */
  function ReplyBytes(cfg: Server.Config, k: Cast): Bytes
    requires |Encode(k.response)| < TWO63
  {
    EncodeFrame(cfg.z, Response, k.response)
  }

  lemma CueSizes(cfg: Server.Config, k: Cast)
    requires Cue(cfg, k)
    ensures |Encode(k.first)| < TWO63 && |Encode(k.response)| < TWO63 && Framable(cfg.z, Response, k.response)
  {
    hide Encode, Framable;
    FramableSize(cfg.z, Request, k.first);
    FramableSize(cfg.z, Response, k.response);
  }

  /** Call 0 waits, and the response to it is on its way. */
  lemma AtWaiting(cfg: Server.Config, f: Faults, k: Cast, closed: bool)
    requires Cue(cfg, k)
    ensures |Encode(k.response)| < TWO63
    ensures At(cfg, f, k.Alone(closed, Waiting(0), true), [], ReplyBytes(cfg, k))
  {
    CueSizes(cfg, k);
    AtEncoded(cfg, f, k, closed);
    Writes0(k, closed);
    hide At, Leads, Encode, EncodeFrame, Framable;
    var s, t := k.Alone(closed, Encoded(0), false), k.Alone(closed, Waiting(0), true);
    AtSend(cfg, f, s, [], [], 0, 0, t);
    var frame := EncodeFrame(cfg.z, Request, k.first);
    assert [] + frame == frame;
    AtServe(cfg, f, t, k.first);
  }

  lemma AtAbandoned(cfg: Server.Config, f: Faults, k: Cast, byClose: bool)
    requires Cue(cfg, k) && if byClose then f.close else f.cancel
    ensures |Encode(k.response)| < TWO63
    ensures At(cfg, f, k.Left(byClose, Detached, true), [], ReplyBytes(cfg, k))
  {
    hide At, Leads, Encode, EncodeFrame, Cue;
    AtWaiting(cfg, f, k, byClose);
    Abandons0(k, byClose);
    AtLocal(cfg, f, k.Alone(byClose, Waiting(0), true), [], ReplyBytes(cfg, k), Abandon(0, byClose),
            k.Left(byClose, Detached, true));
  }

  /** The frame of call 0 is out, the write has reported an error, and the response is on its way. */
  lemma AtFailing(cfg: Server.Config, f: Faults, k: Cast)
    requires Cue(cfg, k) && f.late
    ensures |Encode(k.response)| < TWO63
    ensures At(cfg, f, k.Alone(false, Failing(0), true), [], ReplyBytes(cfg, k))
  {
    hide At, Leads, Encode, EncodeFrame, Framable;
    CueSizes(cfg, k);
    AtEncoded(cfg, f, k, false);
    WriteFails0(k);
    var s := k.Alone(false, Failing(0), true);
    AtSendThenFail(cfg, f, k.Alone(false, Encoded(0), false), s);
    AtServe(cfg, f, s, k.first);
  }

  lemma AtFailed(cfg: Server.Config, f: Faults, k: Cast)
    requires Cue(cfg, k) && f.late
    ensures |Encode(k.response)| < TWO63
    ensures At(cfg, f, k.Left(false, Returned(SendFailed), true), [], ReplyBytes(cfg, k))
  {
    hide At, Leads, Encode, EncodeFrame, ReplyBytes, Cast.Alone, Cast.Left;
    assert k.Valid();
    hide Cue;
    AtFailing(cfg, f, k);
    Deletes0(k, true);
    AtLocal(cfg, f, k.Alone(false, Failing(0), true), [], ReplyBytes(cfg, k), FailDelete(0, 0, true),
            k.Alone(false, Undoing(0), true));
    Puts0(k, true);
    AtLocal(cfg, f, k.Alone(false, Undoing(0), true), [], ReplyBytes(cfg, k), FailPut(0),
            k.Left(false, Returned(SendFailed), true));
  }

  lemma AtTakenOver(cfg: Server.Config, f: Faults, k: Cast, closed: bool, over: Phase, sent: bool, down: Bytes)
    requires k.Valid() && Framable(cfg.z, Request, k.second) && At(cfg, f, k.Left(closed, over, sent), [], down)
    ensures At(cfg, f, k.After(closed, over, sent, Waiting(0)), [], down)
  {
    hide At, Leads, Framable, EncodeFrame;
    Gets1(k, closed, over, sent);
    AtLocal(cfg, f, k.Left(closed, over, sent), [], down, GetPooled(1, 0), k.After(closed, over, sent, HasChannel(0)));
    Stores1(k, closed, over, sent);
    AtLocal(cfg, f, k.After(closed, over, sent, HasChannel(0)), [], down, Store(1), k.After(closed, over, sent, Stored(0)));
    Encodes1(k, closed, over, sent);
    AtLocal(cfg, f, k.After(closed, over, sent, Stored(0)), [], down, EncodeAndRelease(1),
            k.After(closed, over, sent, Encoded(0)));
    Writes1(k, closed, over, sent);
    AtSend(cfg, f, k.After(closed, over, sent, Encoded(0)), [], down, 1, 1, k.After(closed, over, sent, Waiting(0)));
  }

  lemma AtCrossed(cfg: Server.Config, f: Faults, k: Cast, closed: bool, over: Phase)
    requires Cue(cfg, k) && Framable(cfg.z, Request, k.second) && |Encode(k.response)| < TWO63
    requires At(cfg, f, k.Left(closed, over, true), [], ReplyBytes(cfg, k))
    ensures At(cfg, f, k.Crossing(closed, over, true, Idle, Some(Slot(k.Reply(), 0))), [], [])
  {
    CueSizes(cfg, k);
    hide At, Leads, Framable, Encode, EncodeFrame;
    AtTakenOver(cfg, f, k, closed, over, true, ReplyBytes(cfg, k));
    var s1 := k.Crossing(closed, over, true, Decoded(k.Reply()), None);
    var s2 := k.Crossing(closed, over, true, Holding(k.Reply(), Entry(0, 0)), None);
    var s3 := k.Crossing(closed, over, true, Idle, Some(Slot(k.Reply(), 0)));
    Decodes(k, closed, over, true);
    AtRead(cfg, f, k.After(closed, over, true, Waiting(0)), k.response, s1);
    LooksUp(k, closed, over, true);
    AtLocal(cfg, f, s1, [], [], Lookup(0), s2);
    Delivers(k, closed, over, true);
    AtLocal(cfg, f, s2, [], [], Deliver(0), s3);
  }

  /** Some run with distinct ids gives a call a response with another id, which is not its own. */
  ghost predicate Mixes(cfg: Server.Config, f: Faults) {
    exists t :: NetReachable(cfg, f, t) && DistinctIds(t.client.calls) && !OwnIds(t.client) && !OwnReplies(cfg, t)
  }

  lemma CrossedMixes(cfg: Server.Config, f: Faults, k: Cast, closed: bool, over: Phase)
    requires k.Valid() && At(cfg, f, k.Crossing(closed, over, true, Idle, Some(Slot(k.Reply(), 0))), [], [])
    ensures Mixes(cfg, f)
  {
    var s := k.Crossing(closed, over, true, Idle, Some(Slot(k.Reply(), 0)));
    Receives1(k, closed, over, true);
    var u := Step(s, Receive(1));
    assert Leads(s, Receive(1), u) && f.Allows(Receive(1));
    hide Step, Enabled, NetReachable;
    AtLocal(cfg, f, s, [], [], Receive(1), u);
    var t :| NetReachable(cfg, f, t) && Shows(t, u, [], []);
    assert DistinctIds(t.client.calls);
    assert !OwnReply(cfg, t.client.calls[1]);
  }

  /** Cancelling, closing while a call waits, and a write that fails after its frame went out each have such a
      run, whatever the server, if it answers any request at all. */
  lemma HarmfulFaultMixesReplies(cfg: Server.Config, f: Faults, k: Cast)
    requires Cue(cfg, k) && Framable(cfg.z, Request, k.second) && (f.cancel || f.close || f.late)
    ensures Mixes(cfg, f)
  {
    assert k.Valid();
    CueSizes(cfg, k);
    hide At, Cue, Mixes, Framable, Encode, EncodeFrame;
    if f.late {
      AtFailed(cfg, f, k);
      AtCrossed(cfg, f, k, false, Returned(SendFailed));
      CrossedMixes(cfg, f, k, false, Returned(SendFailed));
    } else {
      AtAbandoned(cfg, f, k, !f.cancel);
      AtCrossed(cfg, f, k, !f.cancel, Detached);
      CrossedMixes(cfg, f, k, !f.cancel, Detached);
    }
  }

  /** The exact condition, for any server that answers some request: with distinct ids, all runs give every
      call its own handler's reply if and only if no call can give up a request that may have gone out. */
  lemma OwnRepliesExactly(cfg: Server.Config, f: Faults, asked: Message, other: Message)
    requires cfg.z.Lawful() && Askable(cfg, asked)
    requires Framable(cfg.z, Request, other) && other.requestId != 0 && other.requestId != asked.requestId
    ensures (forall t :: NetReachable(cfg, f, t) && DistinctIds(t.client.calls) ==> OwnReplies(cfg, t))
       <==> !f.cancel && !f.close && !f.late
  {
    hide Framable, Encode, NetReachable, DistinctIds, OwnReplies;
    if f.cancel || f.close || f.late {
      HarmfulFaultMixesReplies(cfg, f, Cast(asked, other, cfg.ResponseTo(asked)));
    } else {
      forall t | NetReachable(cfg, f, t) && DistinctIds(t.client.calls)
        ensures OwnReplies(cfg, t)
      {
        HarmlessFaultsKeepReplies(cfg, f, t);
      }
    }
  }
}
