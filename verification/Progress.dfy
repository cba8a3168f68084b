/** No response is lost: without faults and with distinct ids, a waiting call whose request is next on a stream, or
    whose response is on its way, can always be brought to return its own response. */
module Progress {
  import opened Wire
  import opened Codec
  import opened Framing
  import opened Client
  import opened Correlation
  import opened Orderliness
  import opened ClientTheorems
  import opened Supply
  import opened System
  import opened NetRuns
  import opened Exactness

  const NO_FAULTS: Faults := Faults(false, false, false, false)

  // ---- States reached without faults ---------------------------------------------------------

  ghost predicate Steady(cfg: Server.Config, n: Net) {
    && cfg.z.Lawful() && Invariant(cfg, n)
    && Orderly(n.client, false) && DistinctIds(n.client.calls) && Supplied(n.client)
  }

  lemma SteadyEvent(cfg: Server.Config, n: Net, e: Event)
    requires Steady(cfg, n) && Can(cfg, n, e) && AllowsEvent(NO_FAULTS, e) && DistinctIds(Do(cfg, n, e).client.calls)
    ensures Steady(cfg, Do(cfg, n, e))
  {
    hide Can, Do, Invariant, Orderly, DistinctIds, Supplied, Linear, Correlated, Unique, Step, Enabled, ClientAction,
      AllowsEvent, GivesUp;
    EventKeeps(cfg, n, e);
    ClientMoves(cfg, n, e);
    FaultlessAction(cfg, n, e);
    match ClientAction(cfg, n, e)
    case Some(a) =>
      InvariantGood(cfg, n);
      OrderlyStep(n.client, a, false);
      SuppliedStep(n.client, a);
    case None =>
  }

  lemma InvariantGood(cfg: Server.Config, n: Net)
    requires Invariant(cfg, n)
    ensures Linear(n.client) && Correlated(n.client)
  {
    hide Linear, Correlated, Unique;
  }

  lemma FaultlessAction(cfg: Server.Config, n: Net, e: Event)
    requires AllowsEvent(NO_FAULTS, e)
    ensures ClientAction(cfg, n, e).Some? ==> !GivesUp(ClientAction(cfg, n, e).value, false)
  {
    hide ReadFrame, DecodePayload;
  }

  lemma {:induction false} SteadyExecution(cfg: Server.Config, n: Net, events: seq<Event>, t: Net)
    requires Steady(cfg, n) && Executes(cfg, n, events, t) && DistinctIds(t.client.calls)
    requires forall e :: e in events ==> AllowsEvent(NO_FAULTS, e)
    ensures Steady(cfg, t)
    decreases |events|
  {
    hide Can, Do, Steady, AllowsEvent, DistinctIds, Extends;
    if events != [] {
      assert events[0] in events;
      var u := Do(cfg, n, events[0]);
      ExecutionExtends(cfg, u, events[1..], t);
      DistinctBefore(u.client.calls, t.client.calls);
      SteadyEvent(cfg, n, events[0]);
      SteadyExecution(cfg, u, events[1..], t);
    }
  }

  lemma ReachableIsSteady(cfg: Server.Config, n: Net)
    requires cfg.z.Lawful() && NetReachable(cfg, NO_FAULTS, n) && DistinctIds(n.client.calls)
    ensures Steady(cfg, n)
  {
    StartInvariant(cfg);
    assert Steady(cfg, START);
    hide Executes, AllowsEvent, Steady, DistinctIds;
    var events :| ExecutesWithin(cfg, NO_FAULTS, events, n);
    SteadyExecution(cfg, START, events, n);
  }

  lemma SteadyReplyIsOwn(cfg: Server.Config, n: Net, c: CallId)
    requires Steady(cfg, n) && c in n.client.calls
    ensures OwnReply(cfg, n.client.calls[c])
  {
    var k := n.client.calls[c];
    if Got(k.phase).Some? {
      assert PacketAt(n.client, AtCall(c)) == Got(k.phase);
      hide Good, UpOk, DownOk, Genuine, Supplied, OrderlyAt, PacketAt;
      GenuineIsOwn(cfg, n.client.calls, c, Got(k.phase).value.msg);
    }
  }

  // ---- Continuations -------------------------------------------------------------------------

  /** Some continuation without faults has call `c` return its own handler's reply. */
  ghost predicate CanFinish(cfg: Server.Config, n: Net, c: CallId) {
    exists events, t :: Finishes(cfg, n, events, t, c)
  }

  ghost predicate Finishes(cfg: Server.Config, n: Net, events: seq<Event>, t: Net, c: CallId) {
    && Executes(cfg, n, events, t) && (forall e :: e in events ==> AllowsEvent(NO_FAULTS, e))
    && c in n.client.calls && c in t.client.calls && t.client.calls[c].req == n.client.calls[c].req
    && t.client.calls[c].phase.Returned? && t.client.calls[c].phase.outcome.Replied?
    && OwnReply(cfg, t.client.calls[c])
  }

  lemma FinishAfter(cfg: Server.Config, n: Net, e: Event, c: CallId)
    requires Can(cfg, n, e) && AllowsEvent(NO_FAULTS, e) && CanFinish(cfg, Do(cfg, n, e), c)
    requires c in n.client.calls && c in Do(cfg, n, e).client.calls
    requires Do(cfg, n, e).client.calls[c].req == n.client.calls[c].req
    ensures CanFinish(cfg, n, c)
  {
    hide Can, Do, AllowsEvent, OwnReply;
    var events, t :| Finishes(cfg, Do(cfg, n, e), events, t, c);
    assert ([e] + events)[1..] == events;
    assert Finishes(cfg, n, [e] + events, t, c);
  }

  /** A local step of the client: what it leads to, and that it keeps everything in order. */
  lemma LocalStep(cfg: Server.Config, n: Net, a: Action)
    requires Steady(cfg, n) && Enabled(n.client, a) && (a.Receive? || a.PutBack? || a.Lookup? || a.Deliver?)
    ensures Can(cfg, n, Local(a)) && AllowsEvent(NO_FAULTS, Local(a))
    ensures Do(cfg, n, Local(a)) == n.(client := Step(n.client, a)) && Steady(cfg, Do(cfg, n, Local(a)))
  {
    CallsEvolve(n.client, a);
    assert DistinctIds(Step(n.client, a).calls) by {
      hide Step, Enabled;
      DistinctEvolves(n.client.calls, Step(n.client, a).calls);
    }
    hide Step, Enabled, Invariant, Orderly, Supplied, DistinctIds;
    SteadyEvent(cfg, n, Local(a));
  }

  lemma DistinctEvolves(calls: map<CallId, Call>, later: map<CallId, Call>)
    requires AllEvolve(calls, later) && DistinctIds(calls)
    ensures DistinctIds(later)
  {
  }

  // ---- From the response back to the call ----------------------------------------------------

  lemma PutBackReturns(s: State, c: CallId)
    requires Enabled(s, PutBack(c))
    ensures var t := Step(s, PutBack(c));
            && c in t.calls && t.calls[c].req == s.calls[c].req
            && t.calls[c].phase.Returned? && t.calls[c].phase.outcome.Replied?
  {
  }

  lemma ReceiveReceives(s: State, c: CallId)
    requires Enabled(s, Receive(c))
    ensures var t := Step(s, Receive(c)); c in t.calls && t.calls[c].req == s.calls[c].req && t.calls[c].phase.Received?
  {
  }

  lemma FinishReceived(cfg: Server.Config, n: Net, c: CallId)
    requires Steady(cfg, n) && c in n.client.calls && n.client.calls[c].phase.Received?
    ensures CanFinish(cfg, n, c)
  {
    hide Steady, Step, Do, Can, AllowsEvent;
    var a, t := PutBack(c), n.(client := Step(n.client, PutBack(c)));
    PutBackReturns(n.client, c);
    LocalStep(cfg, n, a);
    SteadyReplyIsOwn(cfg, t, c);
    assert Executes(cfg, t, [], t);
    assert Finishes(cfg, t, [], t, c);
    FinishAfter(cfg, n, Local(a), c);
  }

  lemma FinishInChannel(cfg: Server.Config, n: Net, c: CallId)
    requires Steady(cfg, n) && c in n.client.calls && n.client.calls[c].phase.Waiting?
    requires RefersTo(n.client, InChannel(n.client.calls[c].phase.ch), c)
    ensures CanFinish(cfg, n, c)
  {
    hide Steady, Step, Do, Can, AllowsEvent, CanFinish;
    var a, t := Receive(c), n.(client := Step(n.client, Receive(c)));
    ReceiveReceives(n.client, c);
    LocalStep(cfg, n, a);
    FinishReceived(cfg, t, c);
    FinishAfter(cfg, n, Local(a), c);
  }

  /** A waiting call's channel is the one its reference leads to. */
  lemma WaitsThere(cfg: Server.Config, n: Net, c: CallId, x: Place)
    requires Invariant(cfg, n) && c in n.client.calls && n.client.calls[c].phase.Waiting? && RefersTo(n.client, x, c)
    ensures RefAt(n.client, x).value == Ref(c, n.client.calls[c].phase.ch, n.client.calls[c].req.requestId)
  {
    hide Linear, Correlated, Unique, RefAt;
    InvariantGood(cfg, n);
    OwnRef(n.client, c, x);
  }

  lemma DeliverBrings(s: State, r: ReaderId, c: CallId, x: Place)
    requires Linear(s) && Correlated(s) && Orderly(s, false) && ReaderOf(s.readers, r).Holding? && RefersTo(s, x, c)
    ensures Enabled(s, Deliver(r))
    ensures var t := Step(s, Deliver(r));
            && t.calls == s.calls && ReaderOf(t.readers, r).Idle?
            && RefersTo(t, if x == AtReader(r) then InChannel(RefAt(s, x).value.ch) else x, c)
  {
    assert Enabled(s, Deliver(r));
    DeliverKeepsRef(s, r, c, x);
    hide Linear, Correlated, Orderly;
  }

  lemma FinishAtReader(cfg: Server.Config, n: Net, c: CallId, r: ReaderId)
    requires Steady(cfg, n) && c in n.client.calls && n.client.calls[c].phase.Waiting? && RefersTo(n.client, AtReader(r), c)
    ensures CanFinish(cfg, n, c)
  {
    hide Invariant, Orderly, Supplied, DistinctIds, Step, Enabled, Do, Can, AllowsEvent, CanFinish, Linear, Correlated;
    var a := Deliver(r);
    WaitsThere(cfg, n, c, AtReader(r));
    InvariantGood(cfg, n);
    DeliverBrings(n.client, r, c, AtReader(r));
    var t := n.(client := Step(n.client, a));
    LocalStep(cfg, n, a);
    FinishInChannel(cfg, t, c);
    FinishAfter(cfg, n, Local(a), c);
  }

  lemma FinishDecoded(cfg: Server.Config, n: Net, c: CallId, r: ReaderId)
    requires Steady(cfg, n) && c in n.client.calls && n.client.calls[c].phase.Waiting?
    requires RefersTo(n.client, InTable(n.client.calls[c].req.requestId), c)
    requires ReaderOf(n.client.readers, r).Decoded?
    requires ReaderOf(n.client.readers, r).packet.msg.requestId == n.client.calls[c].req.requestId
    ensures CanFinish(cfg, n, c)
  {
    var a, t := Lookup(r), n.(client := Step(n.client, Lookup(r)));
    assert Enabled(n.client, a);
    LookupKeepsRef(n.client, r, c, InTable(n.client.calls[c].req.requestId));
    LocalStep(cfg, n, a);
    assert t.client.calls == n.client.calls;
    hide Steady, Step, Enabled, Do, Can, AllowsEvent, CanFinish;
    FinishAtReader(cfg, t, c, r);
    FinishAfter(cfg, n, Local(a), c);
  }

  // ---- From the stream to the reader ---------------------------------------------------------

  /** A response that bears `id` is on its way down stream `st`. */
  ghost predicate ReplyOn(cfg: Server.Config, n: Net, st: StreamId, id: nat) {
    exists km :: km in ReadMessages(ClientSide, cfg.z, On(n.down, st)) && km.1.requestId == id
  }

  /** It is there, or the stream's reader has just decoded it. */
  ghost predicate ReplyNear(cfg: Server.Config, n: Net, st: StreamId, id: nat) {
    || ReplyOn(cfg, n, st, id)
    || (ReaderOf(n.client.readers, st).Decoded? && ReaderOf(n.client.readers, st).packet.msg.requestId == id)
  }

  lemma {:induction false} NextMessage(side: Side, z: Zstd, s: Bytes)
    requires ReadFrame(s).Frame? && DecodePayload(side, z, ReadFrame(s).flag, ReadFrame(s).payload).Some?
    ensures var r := ReadFrame(s);
            ReadMessages(side, z, s)
            == [DecodePayload(side, z, r.flag, r.payload).value] + ReadMessages(side, z, s[r.next..])
  {
    hide ReadFrame, DecodePayload;
  }

  lemma {:induction false} NoMessages(side: Side, z: Zstd, s: Bytes)
    requires !ReadFrame(s).Frame?
    ensures ReadMessages(side, z, s) == []
  {
    hide ReadFrame, DecodePayload;
  }

  /** What a turn of an idle reader does, on a stream that has something to read. */
  lemma ReadStep(cfg: Server.Config, n: Net, st: StreamId)
    requires Steady(cfg, n) && ReaderOf(n.client.readers, st).Idle? && ReadMessages(ClientSide, cfg.z, On(n.down, st)) != []
    ensures Can(cfg, n, ReadTurn(st)) && AllowsEvent(NO_FAULTS, ReadTurn(st))
    ensures var km, t := ReadMessages(ClientSide, cfg.z, On(n.down, st))[0], Do(cfg, n, ReadTurn(st));
            && Enabled(n.client, Decode(st, km.1)) && t.client == Step(n.client, Decode(st, km.1))
            && ReadMessages(ClientSide, cfg.z, On(t.down, st)) == ReadMessages(ClientSide, cfg.z, On(n.down, st))[1..]
            && |On(t.down, st)| < |On(n.down, st)|
  {
    hide ReadFrame, DecodePayload, ReadMessages, DownOk, UpOk, Good, Genuine, PacketAt, Orderly, Supplied, DistinctIds, Step;
    var s := On(n.down, st);
    if !ReadFrame(s).Frame? {
      NoMessages(ClientSide, cfg.z, s);
      assert false;
    } else {
      DownwardRead(cfg, n.client.calls, s);
      NextMessage(ClientSide, cfg.z, s);
      ReadDoes(cfg, n, st, DecodePayload(ClientSide, cfg.z, ReadFrame(s).flag, ReadFrame(s).payload).value.1);
    }
  }

  lemma ReadKeepsSteady(cfg: Server.Config, n: Net, st: StreamId, c: CallId, x: Place)
    requires Steady(cfg, n) && ReaderOf(n.client.readers, st).Idle? && ReadMessages(ClientSide, cfg.z, On(n.down, st)) != []
    requires RefersTo(n.client, x, c)
    ensures Can(cfg, n, ReadTurn(st))
    ensures var km, t := ReadMessages(ClientSide, cfg.z, On(n.down, st))[0], Do(cfg, n, ReadTurn(st));
            && Steady(cfg, t) && t.client.calls == n.client.calls && RefersTo(t.client, x, c)
            && ReaderOf(t.client.readers, st) == Decoded(Packet(n.client.decoded, km.1))
  {
    hide Can, Do, ReadMessages, Invariant, Orderly, Supplied, AllowsEvent, RefersTo, DistinctIds, Step, Enabled;
    ReadStep(cfg, n, st);
    DecodeBrings(n.client, st, ReadMessages(ClientSide, cfg.z, On(n.down, st))[0].1, c, x);
    SteadyEvent(cfg, n, ReadTurn(st));
  }

  lemma DecodeBrings(s: State, r: ReaderId, m: Message, c: CallId, x: Place)
    requires Enabled(s, Decode(r, m)) && RefersTo(s, x, c)
    ensures var t := Step(s, Decode(r, m));
            t.calls == s.calls && RefersTo(t, x, c) && ReaderOf(t.readers, r) == Decoded(Packet(s.decoded, m))
  {
    KeepsRef(s, Decode(r, m), x);
  }

  function Rank(r: Reader): nat {
    match r case Idle => 0 case Holding(_, _) => 1 case Decoded(_) => 2
  }

  /** The readers between the response and the call do their part, one step at a time. */
  lemma {:induction false} Drain(cfg: Server.Config, n: Net, c: CallId, st: StreamId)
    requires Steady(cfg, n) && c in n.client.calls && n.client.calls[c].phase.Waiting?
    requires RefersTo(n.client, InTable(n.client.calls[c].req.requestId), c)
    requires ReplyNear(cfg, n, st, n.client.calls[c].req.requestId)
    ensures CanFinish(cfg, n, c)
    decreases |On(n.down, st)|, Rank(ReaderOf(n.client.readers, st))
  {
    hide Steady, CanFinish, RefersTo, AllowsEvent, ReadMessages;
    match ReaderOf(n.client.readers, st)
    case Decoded(p) =>
      if p.msg.requestId == n.client.calls[c].req.requestId {
        FinishDecoded(cfg, n, c, st);
      } else {
        DrainLookup(cfg, n, c, st);
        Drain(cfg, n.(client := Step(n.client, Lookup(st))), c, st);
        hide Do, Can, Step;
        FinishAfter(cfg, n, Local(Lookup(st)), c);
      }
    case Holding(_, _) =>
      DrainDeliver(cfg, n, c, st);
      Drain(cfg, n.(client := Step(n.client, Deliver(st))), c, st);
      hide Do, Can, Step;
      FinishAfter(cfg, n, Local(Deliver(st)), c);
    case Idle =>
      hide Do, Can, Step;
      DrainRead(cfg, n, c, st);
      Drain(cfg, Do(cfg, n, ReadTurn(st)), c, st);
      FinishAfter(cfg, n, ReadTurn(st), c);
  }

  lemma DrainLookup(cfg: Server.Config, n: Net, c: CallId, st: StreamId)
    requires Steady(cfg, n) && c in n.client.calls && RefersTo(n.client, InTable(n.client.calls[c].req.requestId), c)
    requires ReaderOf(n.client.readers, st).Decoded?
    requires ReaderOf(n.client.readers, st).packet.msg.requestId != n.client.calls[c].req.requestId
    ensures Enabled(n.client, Lookup(st))
    ensures Can(cfg, n, Local(Lookup(st))) && AllowsEvent(NO_FAULTS, Local(Lookup(st)))
    ensures var t := n.(client := Step(n.client, Lookup(st)));
            && Do(cfg, n, Local(Lookup(st))) == t
            && Steady(cfg, t) && t.client.calls == n.client.calls
            && RefersTo(t.client, InTable(n.client.calls[c].req.requestId), c)
            && Rank(ReaderOf(t.client.readers, st)) < 2 && !ReaderOf(t.client.readers, st).Decoded?
  {
    hide Steady, Step, Do, Can, AllowsEvent, RefersTo;
    LookupBrings(n.client, st, c, InTable(n.client.calls[c].req.requestId));
    LocalStep(cfg, n, Lookup(st));
  }

  lemma LookupBrings(s: State, r: ReaderId, c: CallId, x: Place)
    requires ReaderOf(s.readers, r).Decoded? && RefersTo(s, x, c) && x != InTable(ReaderOf(s.readers, r).packet.msg.requestId)
    ensures Enabled(s, Lookup(r))
    ensures var t := Step(s, Lookup(r));
            && t.calls == s.calls && RefersTo(t, x, c)
            && Rank(ReaderOf(t.readers, r)) < 2 && !ReaderOf(t.readers, r).Decoded?
  {
    LookupKeepsRef(s, r, c, x);
  }

  lemma DrainDeliver(cfg: Server.Config, n: Net, c: CallId, st: StreamId)
    requires Steady(cfg, n) && c in n.client.calls && RefersTo(n.client, InTable(n.client.calls[c].req.requestId), c)
    requires ReaderOf(n.client.readers, st).Holding?
    ensures Enabled(n.client, Deliver(st))
    ensures Can(cfg, n, Local(Deliver(st))) && AllowsEvent(NO_FAULTS, Local(Deliver(st)))
    ensures var t := n.(client := Step(n.client, Deliver(st)));
            && Do(cfg, n, Local(Deliver(st))) == t
            && Steady(cfg, t) && t.client.calls == n.client.calls
            && RefersTo(t.client, InTable(n.client.calls[c].req.requestId), c)
            && ReaderOf(t.client.readers, st).Idle?
  {
    hide Invariant, Orderly, Supplied, DistinctIds, Step, Enabled, Do, Can, AllowsEvent, Linear, Correlated, RefersTo;
    InvariantGood(cfg, n);
    DeliverBrings(n.client, st, c, InTable(n.client.calls[c].req.requestId));
    LocalStep(cfg, n, Deliver(st));
  }

  lemma DrainRead(cfg: Server.Config, n: Net, c: CallId, st: StreamId)
    requires Steady(cfg, n) && c in n.client.calls && RefersTo(n.client, InTable(n.client.calls[c].req.requestId), c)
    requires ReaderOf(n.client.readers, st).Idle? && ReplyNear(cfg, n, st, n.client.calls[c].req.requestId)
    ensures Can(cfg, n, ReadTurn(st)) && AllowsEvent(NO_FAULTS, ReadTurn(st))
    ensures var t := Do(cfg, n, ReadTurn(st));
            && Steady(cfg, t) && t.client.calls == n.client.calls
            && RefersTo(t.client, InTable(n.client.calls[c].req.requestId), c)
            && ReplyNear(cfg, t, st, n.client.calls[c].req.requestId)
            && |On(t.down, st)| < |On(n.down, st)|
  {
    hide Steady, ReadMessages, Can, Do, Step, RefersTo, AllowsEvent, Enabled;
    var id := n.client.calls[c].req.requestId;
    var kms := ReadMessages(ClientSide, cfg.z, On(n.down, st));
    var km :| km in kms && km.1.requestId == id;
    ReadStep(cfg, n, st);
    ReadKeepsSteady(cfg, n, st, c, InTable(id));
    if km != kms[0] {
      assert km in kms[1..];
    }
  }

  /** A waiting call whose response is on its way, or has reached a reader or its channel, gets it. */
  lemma ResponseArrives(cfg: Server.Config, n: Net, c: CallId, st: StreamId)
    requires Steady(cfg, n) && c in n.client.calls && n.client.calls[c].phase.Waiting?
    requires ReplyNear(cfg, n, st, n.client.calls[c].req.requestId)
    ensures CanFinish(cfg, n, c)
  {
    assert Referenced(n.client, c);
    hide Steady, CanFinish, ReplyNear, Invariant;
    var x :| RefersTo(n.client, x, c);
    FinishFrom(cfg, n, c, x);
    if x.InTable? {
      Drain(cfg, n, c, st);
    }
  }

  lemma FinishFrom(cfg: Server.Config, n: Net, c: CallId, x: Place)
    requires Steady(cfg, n) && c in n.client.calls && n.client.calls[c].phase.Waiting? && RefersTo(n.client, x, c)
    ensures x.InTable? ==> x == InTable(n.client.calls[c].req.requestId)
    ensures !x.InTable? ==> CanFinish(cfg, n, c)
  {
    WaitsThere(cfg, n, c, x);
    hide Steady, CanFinish;
    match x
    case AtReader(r) => FinishAtReader(cfg, n, c, r);
    case InChannel(_) => FinishInChannel(cfg, n, c);
    case _ =>
  }

  // ---- From the request to the response ------------------------------------------------------

  /** The request of call `c` is next on stream `st`, whose loop has not returned and can answer it. */
  ghost predicate RequestNext(cfg: Server.Config, n: Net, st: StreamId, m: Message) {
    && st !in n.stopped && Askable(cfg, m)
    && ReadFrame(On(n.up, st)).Frame?
    && DecodePayload(ServerSide, cfg.z, ReadFrame(On(n.up, st)).flag, ReadFrame(On(n.up, st)).payload) == Some((Request, m))
  }

  /** Reading after what was written on top of frames of responses. */
  lemma DownAppend(cfg: Server.Config, calls: map<CallId, Call>, s: Bytes, r: Message)
    requires cfg.z.Lawful() && DownOk(cfg, calls, s) && Framable(cfg.z, Response, r)
    ensures |Encode(r)| < TWO63
    ensures ReadMessages(ClientSide, cfg.z, s + EncodeFrame(cfg.z, Response, r))
         == ReadMessages(ClientSide, cfg.z, s) + [(Response, r)]
  {
    hide Framable, Encode, EncodeFrame, ConcatFrames, Genuine, ReadMessages;
    var ms: seq<(Kind, Message)> :| Downward(cfg, calls, s, ms);
    FramableSizes(ClientSide, cfg.z, ms);
    FramableSize(cfg.z, Response, r);
    ConcatFramesAppend(cfg.z, ms, (Response, r));
    var longer := ms + [(Response, r)];
    assert forall km :: km in longer <==> km in ms || km == (Response, r);
    StreamRoundTrip(ClientSide, cfg.z, ms);
    StreamRoundTrip(ClientSide, cfg.z, longer);
  }

  lemma ServeStep(cfg: Server.Config, n: Net, st: StreamId, m: Message)
    requires Steady(cfg, n) && RequestNext(cfg, n, st, m)
    ensures Can(cfg, n, ServeTurn(st, true)) && AllowsEvent(NO_FAULTS, ServeTurn(st, true))
    ensures var t := Do(cfg, n, ServeTurn(st, true));
            t.client == n.client && ReplyOn(cfg, t, st, m.requestId)
  {
    hide Framable, Encode, EncodeFrame, ReadFrame, DecodePayload, ReadMessages, Orderly, Supplied, DistinctIds, Good, UpOk,
      DownOk;
    var r := ReadFrame(On(n.up, st));
    assert Server.React(cfg, r.flag, r.payload) == Server.Answer(m);
    DownAppend(cfg, n.client.calls, On(n.down, st), cfg.ResponseTo(m));
    ServeDoes(cfg, n, st, true);
    var t := Do(cfg, n, ServeTurn(st, true));
    assert On(t.down, st) == On(n.down, st) + EncodeFrame(cfg.z, Response, cfg.ResponseTo(m));
    assert (Response, cfg.ResponseTo(m)) in ReadMessages(ClientSide, cfg.z, On(t.down, st));
  }

  lemma RequestFinishes(cfg: Server.Config, n: Net, c: CallId, st: StreamId)
    requires Steady(cfg, n) && c in n.client.calls && n.client.calls[c].phase.Waiting?
    requires RequestNext(cfg, n, st, n.client.calls[c].req)
    ensures CanFinish(cfg, n, c)
  {
    hide Steady, CanFinish, ReplyOn, AllowsEvent, Can, Do, RequestNext;
    ServeStep(cfg, n, st, n.client.calls[c].req);
    SteadyIsDistinct(cfg, n);
    SteadyEvent(cfg, n, ServeTurn(st, true));
    ResponseArrives(cfg, Do(cfg, n, ServeTurn(st, true)), c, st);
    FinishAfter(cfg, n, ServeTurn(st, true), c);
  }

  lemma SteadyIsDistinct(cfg: Server.Config, n: Net)
    requires Steady(cfg, n)
    ensures DistinctIds(n.client.calls) && cfg.z.Lawful()
  {
  }

  /** No response is lost: from any state reached without faults and with distinct ids, a waiting call whose
      request is next on a stream, or whose response is on its way, has a continuation in which it returns its
      own handler's reply. */
  lemma NoResponseIsLost(cfg: Server.Config, n: Net, c: CallId, st: StreamId)
    requires cfg.z.Lawful() && NetReachable(cfg, NO_FAULTS, n) && DistinctIds(n.client.calls)
    requires c in n.client.calls && n.client.calls[c].phase.Waiting?
    requires RequestNext(cfg, n, st, n.client.calls[c].req) || ReplyNear(cfg, n, st, n.client.calls[c].req.requestId)
    ensures CanFinish(cfg, n, c)
  {
    hide Steady, CanFinish, ReplyNear, RequestNext, NetReachable, DistinctIds;
    ReachableIsSteady(cfg, n);
    if RequestNext(cfg, n, st, n.client.calls[c].req) {
      RequestFinishes(cfg, n, c, st);
    } else {
      ResponseArrives(cfg, n, c, st);
    }
  }
}
