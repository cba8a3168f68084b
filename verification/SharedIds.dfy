/** Distinct ids are needed: two calls that share an id get each other's responses, without any fault. */
module SharedIds {
  import opened Wire
  import opened Codec
  import opened Framing
  import opened Client
  import opened Orderliness
  import opened Scenario
  import opened System
  import opened NetRuns
  import opened Exactness

  /** Two requests under one id to which the server gives different replies. */
  ghost predicate Twins(cfg: Server.Config, a: Message, b: Message) {
    && cfg.z.Lawful() && Askable(cfg, a) && Askable(cfg, b) && a.requestId == b.requestId
    && cfg.handlers[a.path](a) != cfg.handlers[b.path](b)
  }

  /** Where call 0, with request `a`, and call 1, with request `b`, stand, and what they share. */
  datatype View = View(p: Phase, q: Phase, table: map<nat, Entry>, buffers: map<Chan, Option<Slot>>, reader: Reader)

  ghost predicate Looks(s: State, a: Message, b: Message, v: View) {
    && 0 in s.calls && s.calls[0].req == a && s.calls[0].phase == v.p
    && 1 in s.calls && s.calls[1].req == b && s.calls[1].phase == v.q
    && s.table == v.table && s.buffers == v.buffers && ReaderOf(s.readers, 0) == v.reader && !s.closed
  }

  ghost predicate AtView(cfg: Server.Config, f: Faults, a: Message, b: Message, v: View, up: Bytes, down: Bytes) {
    exists s :: At(cfg, f, s, up, down) && Looks(s, a, b, v)
  }

  /** Action `act` leads from every state that looks like `v` to one that looks like `w`. */
  ghost predicate Takes(a: Message, b: Message, v: View, act: Action, w: View) {
    forall s :: Looks(s, a, b, v) ==> Enabled(s, act) && Looks(Step(s, act), a, b, w)
  }

  lemma Advance(cfg: Server.Config, f: Faults, a: Message, b: Message, v: View, act: Action, w: View, up: Bytes, down: Bytes)
    requires AtView(cfg, f, a, b, v, up, down) && Takes(a, b, v, act, w) && f.Allows(act)
    requires !act.Write? && !act.WriteError? && !act.Decode?
    ensures AtView(cfg, f, a, b, w, up, down)
  {
    hide At, Looks, Step, Enabled, Faults.Allows;
    var s :| At(cfg, f, s, up, down) && Looks(s, a, b, v);
    AtLocal(cfg, f, s, up, down, act, Step(s, act));
  }

  // ---- The steps -----------------------------------------------------------------------------

  const BEGUN: View := View(Begun, Begun, map[], map[], Idle)
  const OPEN0: View := BEGUN.(p := Open)
  const OPEN: View := OPEN0.(q := Open)
  const GOT0: View := OPEN.(p := HasChannel(0), buffers := map[0 := None])
  const GOT: View := GOT0.(q := HasChannel(1), buffers := map[0 := None, 1 := None])

  /** Call 1's entry has replaced call 0's. */
  function Stored0(id: nat): View { GOT.(p := Stored(0), table := map[id := Entry(0, 0)]) }
  function StoredBoth(id: nat): View { GOT.(p := Stored(0), q := Stored(1), table := map[id := Entry(1, 1)]) }
  function Encoded0(id: nat): View { StoredBoth(id).(p := Encoded(0)) }
  function EncodedBoth(id: nat): View { Encoded0(id).(q := Encoded(1)) }
  function Waiting0(id: nat): View { EncodedBoth(id).(p := Waiting(0)) }
  function WaitingBoth(id: nat): View { Waiting0(id).(q := Waiting(1)) }

  lemma Takes1(a: Message, b: Message)
    ensures Takes(a, b, BEGUN, CheckClosed(0), OPEN0) && Takes(a, b, OPEN0, CheckClosed(1), OPEN)
  {
  }

  lemma Takes2(a: Message, b: Message)
    ensures Takes(a, b, OPEN, GetNew(0, 0), GOT0) && Takes(a, b, GOT0, GetNew(1, 1), GOT)
  {
  }

  lemma Takes3(a: Message, b: Message)
    requires a.requestId == b.requestId
    ensures Takes(a, b, GOT, Store(0), Stored0(a.requestId))
    ensures Takes(a, b, Stored0(a.requestId), Store(1), StoredBoth(a.requestId))
  {
    hide Unreferenced;
  }

  lemma Takes4(a: Message, b: Message, id: nat)
    ensures Takes(a, b, StoredBoth(id), EncodeAndRelease(0), Encoded0(id))
    ensures Takes(a, b, Encoded0(id), EncodeAndRelease(1), EncodedBoth(id))
  {
  }

  lemma Takes5(a: Message, b: Message, id: nat)
    ensures Takes(a, b, EncodedBoth(id), Write(0), Waiting0(id))
    ensures Takes(a, b, Waiting0(id), Write(1), WaitingBoth(id))
  {
  }

  // ---- The run -------------------------------------------------------------------------------

  lemma AtBegun(cfg: Server.Config, f: Faults, a: Message, b: Message)
    requires a.requestId != 0 && b.requestId != 0
    ensures AtView(cfg, f, a, b, BEGUN, [], [])
  {
    hide At;
    AtStart(cfg, f);
    var s := Step(INIT, Begin(0, a, 0, 0));
    assert Leads(INIT, Begin(0, a, 0, 0), s);
    AtLocal(cfg, f, INIT, [], [], Begin(0, a, 0, 0), s);
    var t := Step(s, Begin(1, b, 0, 0));
    assert Leads(s, Begin(1, b, 0, 0), t);
    AtLocal(cfg, f, s, [], [], Begin(1, b, 0, 0), t);
    assert Looks(t, a, b, BEGUN);
  }

  lemma AtEncodedBoth(cfg: Server.Config, f: Faults, a: Message, b: Message)
    requires a.requestId == b.requestId != 0
    ensures AtView(cfg, f, a, b, EncodedBoth(a.requestId), [], [])
  {
    hide AtView, Takes;
    var id := a.requestId;
    AtBegun(cfg, f, a, b);
    Takes1(a, b);
    Advance(cfg, f, a, b, BEGUN, CheckClosed(0), OPEN0, [], []);
    Advance(cfg, f, a, b, OPEN0, CheckClosed(1), OPEN, [], []);
    Takes2(a, b);
    Advance(cfg, f, a, b, OPEN, GetNew(0, 0), GOT0, [], []);
    Advance(cfg, f, a, b, GOT0, GetNew(1, 1), GOT, [], []);
    Takes3(a, b);
    Advance(cfg, f, a, b, GOT, Store(0), Stored0(id), [], []);
    Advance(cfg, f, a, b, Stored0(id), Store(1), StoredBoth(id), [], []);
    Takes4(a, b, id);
    Advance(cfg, f, a, b, StoredBoth(id), EncodeAndRelease(0), Encoded0(id), [], []);
    Advance(cfg, f, a, b, Encoded0(id), EncodeAndRelease(1), EncodedBoth(id), [], []);
  }

  /** Both have sent, on two streams, and the response to call 0 is on its way. */
  lemma AtAnswered(cfg: Server.Config, f: Faults, a: Message, b: Message)
    requires Twins(cfg, a, b)
    ensures |Encode(cfg.ResponseTo(a))| < TWO63
    ensures AtView(cfg, f, a, b, WaitingBoth(a.requestId), [], EncodeFrame(cfg.z, Response, cfg.ResponseTo(a)))
  {
    hide At, Framable, Encode, EncodeFrame, Step, Enabled;
    var id := a.requestId;
    AtEncodedBoth(cfg, f, a, b);
    Takes5(a, b, id);
    var s :| At(cfg, f, s, [], []) && Looks(s, a, b, EncodedBoth(id));
    var t := Step(s, Write(0));
    AtSend(cfg, f, s, [], [], 0, 0, t);
    assert [] + EncodeFrame(cfg.z, Request, a) == EncodeFrame(cfg.z, Request, a);
    AtServe(cfg, f, t, a);
    var down := EncodeFrame(cfg.z, Response, cfg.ResponseTo(a));
    AtSend(cfg, f, t, [], down, 1, 1, Step(t, Write(1)));
  }

  lemma ReplyFindsSecond(s: State, a: Message, b: Message, r: Message)
    requires Looks(s, a, b, WaitingBoth(a.requestId)) && r.requestId == a.requestId
    ensures Enabled(s, Decode(0, r))
    ensures var t := Step(s, Decode(0, r));
            && Enabled(t, Lookup(0))
            && var u := Step(t, Lookup(0));
               && ReaderOf(u.readers, 0).Holding? && ReaderOf(u.readers, 0).entry == Entry(1, 1)
               && ReaderOf(u.readers, 0).packet.msg == r
               && u.buffers == s.buffers && u.calls == s.calls
  {
  }

  lemma SecondReceives(u: State, b: Message, r: Message)
    requires 1 in u.calls && u.calls[1].req == b && u.calls[1].phase == Waiting(1)
    requires 1 in u.buffers && u.buffers[1].None?
    requires ReaderOf(u.readers, 0).Holding? && ReaderOf(u.readers, 0).entry == Entry(1, 1)
    requires ReaderOf(u.readers, 0).packet.msg == r
    ensures Enabled(u, Deliver(0)) && Enabled(Step(u, Deliver(0)), Receive(1))
    ensures var v := Step(Step(u, Deliver(0)), Receive(1));
            1 in v.calls && v.calls[1].req == b && Got(v.calls[1].phase).Some? && Got(v.calls[1].phase).value.msg == r
  {
  }

  /** Call 1 receives the response to call 0: some run gives a call a reply that is not its own. */
  lemma SharedIdMixesReplies(cfg: Server.Config, f: Faults, a: Message, b: Message)
    requires Twins(cfg, a, b)
    ensures exists t :: NetReachable(cfg, f, t) && !OwnReplies(cfg, t)
  {
    hide At, Framable, Encode, EncodeFrame, Step, Enabled;
    var r := cfg.ResponseTo(a);
    AtAnswered(cfg, f, a, b);
    var s :| At(cfg, f, s, [], EncodeFrame(cfg.z, Response, r)) && Looks(s, a, b, WaitingBoth(a.requestId));
    ReplyFindsSecond(s, a, b, r);
    var t := Step(s, Decode(0, r));
    AtRead(cfg, f, s, r, t);
    var u := Step(t, Lookup(0));
    AtLocal(cfg, f, t, [], [], Lookup(0), u);
    SecondReceives(u, b, r);
    var v := Step(u, Deliver(0));
    AtLocal(cfg, f, u, [], [], Deliver(0), v);
    var w := Step(v, Receive(1));
    AtLocal(cfg, f, v, [], [], Receive(1), w);
    WrongReply(cfg, f, w, a, b);
  }

  lemma WrongReply(cfg: Server.Config, f: Faults, w: State, a: Message, b: Message)
    requires Twins(cfg, a, b) && At(cfg, f, w, [], [])
    requires 1 in w.calls && w.calls[1].req == b
    requires Got(w.calls[1].phase).Some? && Got(w.calls[1].phase).value.msg == cfg.ResponseTo(a)
    ensures exists t :: NetReachable(cfg, f, t) && !OwnReplies(cfg, t)
  {
    hide NetReachable, Framable;
    var t :| NetReachable(cfg, f, t) && Shows(t, w, [], []);
    assert !OwnReply(cfg, t.client.calls[1]);
  }

  /** End to end, exactly: for a server that tells two requests apart, all runs (with distinct ids, if `distinct`)
      give every call its own handler's reply if and only if ids are distinct and no call can give up a request
      that may have gone out. */
  lemma EndToEndExactly(cfg: Server.Config, f: Faults, distinct: bool, a: Message, b: Message, other: Message)
    requires Twins(cfg, a, b)
    requires Framable(cfg.z, Request, other) && other.requestId != 0 && other.requestId != a.requestId
    ensures (forall t :: NetReachable(cfg, f, t) && (distinct ==> DistinctIds(t.client.calls)) ==> OwnReplies(cfg, t))
       <==> distinct && !f.cancel && !f.close && !f.late
  {
    hide Framable, NetReachable, DistinctIds, OwnReplies;
    if distinct {
      OwnRepliesExactly(cfg, f, a, other);
    } else {
      SharedIdMixesReplies(cfg, f, a, b);
    }
  }
}
