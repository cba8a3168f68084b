/** Requests are answered: from any state reached without faults, a request submitted now can be brought to return
    its handler's reply. */
module Answering {
  import opened Wire
  import opened Codec
  import opened Framing
  import opened Client
  import opened Correlation
  import opened Orderliness
  import opened System
  import opened NetRuns
  import opened Submission
  import opened Progress

  /** Call `c` bears request `m` and stands at `p`; the client is open, and stream `st` is free for it. */
  ghost predicate Standing(cfg: Server.Config, n: Net, c: CallId, m: Message, p: Phase, st: StreamId) {
    && Steady(cfg, n)
    && c in n.client.calls && n.client.calls[c].req == m && n.client.calls[c].phase == p
    && !n.client.closed && On(n.up, st) == [] && st !in n.stopped
  }

  predicate Early(a: Action) {
    a.CheckClosed? || a.GetNew? || a.Store? || a.EncodeAndRelease?
  }

  /** Where these steps take a call of an open client. */
  function Onward(a: Action, p: Phase): Phase
    requires Early(a) && (a.Store? ==> p.HasChannel?) && (a.EncodeAndRelease? ==> p.Stored?)
  {
    match a
    case CheckClosed(_) => Open
    case GetNew(_, ch) => HasChannel(ch)
    case Store(_) => Stored(p.ch)
    case EncodeAndRelease(_) => Encoded(p.ch)
  }

  lemma EarlyStep(s: State, a: Action)
    requires Early(a) && Enabled(s, a) && !s.closed
    ensures var t := Step(s, a);
            && !t.closed && a.c in t.calls && t.calls[a.c].req == s.calls[a.c].req
            && t.calls[a.c].phase == Onward(a, s.calls[a.c].phase)
  {
    hide Unreferenced;
  }

  lemma EarlyKeepsIds(s: State, a: Action)
    requires Early(a) && Enabled(s, a) && DistinctIds(s.calls)
    ensures DistinctIds(Step(s, a).calls)
  {
    if a.Store? {
      hide Unreferenced;
      assert forall d :: d in Step(s, a).calls ==> d in s.calls && Step(s, a).calls[d].req == s.calls[d].req;
    } else {
      hide Step, Enabled;
      CallsEvolve(s, a);
      DistinctEvolves(s.calls, Step(s, a).calls);
    }
  }

  /** One of these steps, and then whatever finishes the call. */
  lemma Onwards(cfg: Server.Config, n: Net, a: Action, m: Message, p: Phase, st: StreamId)
    requires Early(a) && Standing(cfg, n, a.c, m, p, st) && Enabled(n.client, a)
    ensures Can(cfg, n, Local(a)) && AllowsEvent(NO_FAULTS, Local(a))
    ensures Standing(cfg, Do(cfg, n, Local(a)), a.c, m, Onward(a, p), st)
  {
    hide Steady, Step, DistinctIds;
    SteadyIsDistinct(cfg, n);
    EarlyStep(n.client, a);
    EarlyKeepsIds(n.client, a);
    SteadyEvent(cfg, n, Local(a));
  }

  lemma FinishLater(cfg: Server.Config, n: Net, a: Action, m: Message, p: Phase, st: StreamId)
    requires Early(a) && Standing(cfg, n, a.c, m, p, st) && Enabled(n.client, a)
    requires Can(cfg, n, Local(a)) && CanFinish(cfg, Do(cfg, n, Local(a)), a.c)
    ensures CanFinish(cfg, n, a.c)
  {
    hide CanFinish, Steady, Do, Can, Enabled;
    Onwards(cfg, n, a, m, p, st);
    FinishAfter(cfg, n, Local(a), a.c);
  }

  // ---- Sending -------------------------------------------------------------------------------

  lemma SendReaches(cfg: Server.Config, n: Net, c: CallId, m: Message, ch: Chan, st: StreamId)
    requires Standing(cfg, n, c, m, Encoded(ch), st) && Askable(cfg, m)
    ensures Can(cfg, n, Send(c, st)) && AllowsEvent(NO_FAULTS, Send(c, st))
    ensures var t := Do(cfg, n, Send(c, st));
            && Steady(cfg, t) && c in t.client.calls && t.client.calls[c].req == m && t.client.calls[c].phase == Waiting(ch)
            && RequestNext(cfg, t, st, m)
  {
    hide Steady, DistinctIds, Framable, Encode, EncodeFrame, ReadFrame, DecodePayload;
    SteadyIsDistinct(cfg, n);
    WriteStep(n.client, c);
    hide Step;
    FrameAlone(ServerSide, cfg.z, Request, m);
    var t := Do(cfg, n, Send(c, st));
    assert [] + EncodeFrame(cfg.z, Request, m) == EncodeFrame(cfg.z, Request, m);
    assert On(t.up, st) == EncodeFrame(cfg.z, Request, m);
    SteadyEvent(cfg, n, Send(c, st));
  }

  lemma WriteStep(s: State, c: CallId)
    requires Enabled(s, Write(c))
    ensures var t := Step(s, Write(c));
            && c in t.calls && t.calls[c].req == s.calls[c].req && t.calls[c].phase == Waiting(s.calls[c].phase.ch)
            && (DistinctIds(s.calls) ==> DistinctIds(t.calls))
  {
  }

  lemma FinishEncoded(cfg: Server.Config, n: Net, c: CallId, m: Message, ch: Chan, st: StreamId)
    requires Standing(cfg, n, c, m, Encoded(ch), st) && Askable(cfg, m)
    ensures CanFinish(cfg, n, c)
  {
    hide Steady, CanFinish, Do, Can, AllowsEvent, RequestNext, Askable;
    SendReaches(cfg, n, c, m, ch, st);
    RequestFinishes(cfg, Do(cfg, n, Send(c, st)), c, st);
    FinishAfter(cfg, n, Send(c, st), c);
  }

  // ---- From the submission on ----------------------------------------------------------------

  lemma FreshNat(s: set<nat>) returns (x: nat)
    ensures x !in s
  {
    x := 0;
    for i := 0 to |s| + 1
      invariant forall k: nat :: k < i ==> k in s
    {
      if i !in s {
        return i;
      }
    }
    Below(s, |s| + 1);
  }

  lemma Below(s: set<nat>, n: nat)
    requires forall k: nat :: k < n ==> k in s
    ensures n <= |s|
  {
    if n > 0 {
      Below(s - {n - 1}, n - 1);
    }
  }

  lemma FinishBegun(cfg: Server.Config, n: Net, c: CallId, m: Message, st: StreamId)
    requires Standing(cfg, n, c, m, Begun, st) && Askable(cfg, m)
    ensures CanFinish(cfg, n, c)
  {
    var ch := FreshNat(n.client.buffers.Keys);
    FirstHalf(cfg, n, c, m, ch, st);
    hide Steady, CanFinish, Do, Can, AllowsEvent, Enabled, Askable;
    var n1 := Do(cfg, n, Local(CheckClosed(c)));
    var n2 := Do(cfg, n1, Local(GetNew(c, ch)));
    FinishHasChannel(cfg, n2, c, m, ch, st);
    FinishLater(cfg, n1, GetNew(c, ch), m, Open, st);
    FinishLater(cfg, n, CheckClosed(c), m, Begun, st);
  }

  lemma FirstHalf(cfg: Server.Config, n: Net, c: CallId, m: Message, ch: Chan, st: StreamId)
    requires Standing(cfg, n, c, m, Begun, st) && ch !in n.client.buffers
    ensures Enabled(n.client, CheckClosed(c)) && Can(cfg, n, Local(CheckClosed(c)))
    ensures var n1 := Do(cfg, n, Local(CheckClosed(c)));
            && Standing(cfg, n1, c, m, Open, st) && Enabled(n1.client, GetNew(c, ch)) && Can(cfg, n1, Local(GetNew(c, ch)))
            && Standing(cfg, Do(cfg, n1, Local(GetNew(c, ch))), c, m, HasChannel(ch), st)
  {
    hide Steady, AllowsEvent;
    Onwards(cfg, n, CheckClosed(c), m, Begun, st);
    var n1 := Do(cfg, n, Local(CheckClosed(c)));
    assert Enabled(n1.client, GetNew(c, ch));
    hide Step;
    Onwards(cfg, n1, GetNew(c, ch), m, Open, st);
  }

  lemma FinishStored(cfg: Server.Config, n: Net, c: CallId, m: Message, ch: Chan, st: StreamId)
    requires Standing(cfg, n, c, m, Stored(ch), st) && Askable(cfg, m)
    ensures CanFinish(cfg, n, c)
  {
    assert Enabled(n.client, EncodeAndRelease(c));
    hide Steady, CanFinish, Do, Can, AllowsEvent, Askable, Enabled;
    Onwards(cfg, n, EncodeAndRelease(c), m, Stored(ch), st);
    FinishEncoded(cfg, Do(cfg, n, Local(EncodeAndRelease(c))), c, m, ch, st);
    FinishLater(cfg, n, EncodeAndRelease(c), m, Stored(ch), st);
  }

  lemma FinishHasChannel(cfg: Server.Config, n: Net, c: CallId, m: Message, ch: Chan, st: StreamId)
    requires Standing(cfg, n, c, m, HasChannel(ch), st) && Askable(cfg, m)
    ensures CanFinish(cfg, n, c)
  {
    assert Enabled(n.client, Store(c));
    hide Steady, CanFinish, Do, Can, AllowsEvent, Askable, Enabled;
    Onwards(cfg, n, Store(c), m, HasChannel(ch), st);
    FinishStored(cfg, Do(cfg, n, Local(Store(c))), c, m, ch, st);
    FinishLater(cfg, n, Store(c), m, HasChannel(ch), st);
  }

  /** From any state reached without faults and with distinct ids, of a client that is not closed: a request
      submitted now, with or without an id, gets the id drawn for it, and can be brought to return its handler's
      reply, if no other call has that id and some stream is free. */
  lemma NewRequestIsAnswered(cfg: Server.Config, n: Net, c: CallId, req: Message, first: nat, second: nat, st: StreamId)
    requires cfg.z.Lawful() && NetReachable(cfg, NO_FAULTS, n) && DistinctIds(n.client.calls)
    requires !n.client.closed && c !in n.client.calls && On(n.up, st) == [] && st !in n.stopped
    requires Askable(cfg, req.(requestId := IdDrawn(req, first, second)))
    requires forall d :: d in n.client.calls ==> n.client.calls[d].req.requestId != IdDrawn(req, first, second)
    ensures Can(cfg, n, Local(Begin(c, req, first, second)))
    ensures var t := Do(cfg, n, Local(Begin(c, req, first, second)));
            && c in t.client.calls && Draws(req, first, second, t.client.calls[c].req)
            && CanFinish(cfg, t, c)
  {
    hide Steady, CanFinish, NetReachable, Askable;
    ReachableIsSteady(cfg, n);
    var a := Begin(c, req, first, second);
    BeginDraws(n.client, c, req, first, second);
    BeginOpen(n.client, a);
    var t := Do(cfg, n, Local(a));
    assert t == n.(client := Step(n.client, a));
    hide Step, Do;
    SteadyEvent(cfg, n, Local(a));
    var m := req.(requestId := IdDrawn(req, first, second));
    assert t.client.calls[c].req == m;
    FinishBegun(cfg, t, c, m, st);
  }

  lemma BeginOpen(s: State, a: Action)
    requires Enabled(s, a) && a.Begin?
    ensures Step(s, a).closed == s.closed
  {
  }

  /** In particular the first request of a run, submitted with or without an id. */
  lemma RequestIsAnswered(cfg: Server.Config, req: Message, first: nat, second: nat)
    requires cfg.z.Lawful() && Askable(cfg, req.(requestId := IdDrawn(req, first, second)))
    ensures Can(cfg, START, Local(Begin(0, req, first, second)))
    ensures CanFinish(cfg, Do(cfg, START, Local(Begin(0, req, first, second))), 0)
  {
    hide CanFinish, Askable;
    assert ExecutesWithin(cfg, NO_FAULTS, [], START);
    assert NetReachable(cfg, NO_FAULTS, START);
    hide NetReachable;
    NewRequestIsAnswered(cfg, START, 0, req, first, second, 0);
  }

  /** A server that echoes a copy of the body returns any body that fits a frame. */
  lemma EchoIsAnswered(z: Zstd, req: Message, first: nat, second: nat)
    requires z.Lawful() && |req.body| + 32 <= TWO32 && IdDrawn(req, first, second) != 0
    requires Framable(z, Request, req.(requestId := IdDrawn(req, first, second)))
    ensures Can(Echo(z, req.path), START, Local(Begin(0, req, first, second)))
    ensures CanFinish(Echo(z, req.path), Do(Echo(z, req.path), START, Local(Begin(0, req, first, second))), 0)
    ensures Echo(z, req.path).handlers[req.path](req).body == req.body
  {
    var m := req.(requestId := IdDrawn(req, first, second));
    assert m.requestId < TWO64;
    hide CanFinish, Framable, Can, Do;
    EchoFits(z, m.requestId, m.body);
    RequestIsAnswered(Echo(z, req.path), req, first, second);
  }
}
