/** Events: in every run the events given to their handlers on a stream are the first of those the application
    submitted there that have a handler, in order and with id 0. */
module Events {
  import opened Wire
  import opened Codec
  import opened Framing
  import opened System

  /** The events submitted on stream `st`, as they go out. */
  function EventsSent(events: seq<Event>, st: StreamId): seq<Message> {
    if events == [] then []
    else
      (match events[0]
       case SendEvent(x, m) => if x == st then [m.(requestId := 0)] else []
       case _ => [])
      + EventsSent(events[1..], st)
  }

  function EventsAmong(kms: seq<(Kind, Message)>): seq<Message> {
    if kms == [] then []
    else
      var last := kms[|kms| - 1];
      EventsAmong(kms[..|kms| - 1]) + if last.0.Event? then [last.1] else []
  }

  function WithHandler(cfg: Server.Config, ms: seq<Message>): seq<Message> {
    if ms == [] then []
    else
      var last := ms[|ms| - 1];
      WithHandler(cfg, ms[..|ms| - 1]) + if last.path in cfg.eventHandlers then [last] else []
  }

  lemma {:induction false} EventsAmongConcat(a: seq<(Kind, Message)>, b: seq<(Kind, Message)>)
    ensures EventsAmong(a + b) == EventsAmong(a) + EventsAmong(b)
    decreases |b|
  {
    if b == [] {
      assert a + b == a;
    } else {
      var n := |b| - 1;
      assert (a + b)[..|a + b| - 1] == a + b[..n] && (a + b)[|a + b| - 1] == b[n];
      EventsAmongConcat(a, b[..n]);
    }
  }

  lemma {:induction false} WithHandlerConcat(cfg: Server.Config, a: seq<Message>, b: seq<Message>)
    ensures WithHandler(cfg, a + b) == WithHandler(cfg, a) + WithHandler(cfg, b)
    decreases |b|
  {
    if b == [] {
      assert a + b == a;
    } else {
      var n := |b| - 1;
      assert (a + b)[..|a + b| - 1] == a + b[..n] && (a + b)[|a + b| - 1] == b[n];
      WithHandlerConcat(cfg, a, b[..n]);
    }
  }

  // ---- What is on a stream -------------------------------------------------------------------

  /** Of the messages `ms` written to a stream the server has read the first `k`. */
  ghost predicate LinedUp(cfg: Server.Config, ms: seq<(Kind, Message)>, k: nat, up: Bytes, handled: seq<Message>) {
    && k <= |ms| && AllFramable(ServerSide, cfg.z, ms)
    && AllFramable(ServerSide, cfg.z, ms[k..]) && up == ConcatFrames(cfg.z, ms[k..])
    && handled == WithHandler(cfg, EventsAmong(ms[..k]))
  }

  ghost predicate Lined(cfg: Server.Config, n: Net, st: StreamId) {
    exists k: nat :: LinedUp(cfg, On(n.written, st), k, On(n.up, st), On(n.handled, st))
  }

  lemma LinedWrite(cfg: Server.Config, ms: seq<(Kind, Message)>, k: nat, up: Bytes, handled: seq<Message>, kind: Kind, m: Message)
    requires LinedUp(cfg, ms, k, up, handled) && Framable(cfg.z, kind, m) && !kind.Response?
    ensures |Encode(m)| < TWO63
    ensures LinedUp(cfg, ms + [(kind, m)], k, up + EncodeFrame(cfg.z, kind, m), handled)
  {
    hide Framable, Encode, EncodeFrame, ConcatFrames;
    var km, longer := (kind, m), ms + [(kind, m)];
    FramableSize(cfg.z, kind, m);
    FramableSizes(ServerSide, cfg.z, ms[k..]);
    ConcatFramesAppend(cfg.z, ms[k..], km);
    assert longer[k..] == ms[k..] + [km] && longer[..k] == ms[..k];
    assert forall x :: x in longer <==> x in ms || x == km;
    assert forall x :: x in ms[k..] + [km] <==> x in ms[k..] || x == km;
  }

  /** The event handled on a frame that decodes to `km`. */
  lemma EventOf(cfg: Server.Config, flag: Byte, payload: Slice, km: (Kind, Message), ok: bool)
    requires DecodePayload(ServerSide, cfg.z, flag, payload) == Some(km)
    ensures Server.Events(Server.Effective(Server.React(cfg, flag, payload), if ok then 1 else 0))
         == WithHandler(cfg, if km.0.Event? then [km.1] else [])
  {
    hide DecodePayload, WithHandler;
    OneEvent(cfg, km);
  }

  /** The server reads the next message and handles it if it is an event that has a handler. */
  lemma LinedTurn(cfg: Server.Config, ms: seq<(Kind, Message)>, k: nat, up: Bytes, handled: seq<Message>, ok: bool)
    requires cfg.z.Lawful() && LinedUp(cfg, ms, k, up, handled) && ReadFrame(up).Frame?
    ensures var r := ReadFrame(up);
            var reaction := Server.Effective(Server.React(cfg, r.flag, r.payload), if ok then 1 else 0);
            LinedUp(cfg, ms, k + 1, up[r.next..], handled + Server.Events(reaction))
  {
    hide Framable, Encode, EncodeFrame, ConcatFrames, ReadFrame, DecodePayload, Server.React, Server.Effective,
      Server.Events, WithHandler, EventsAmong;
    FramableSizes(ServerSide, cfg.z, ms[k..]);
    NextFrame(ServerSide, cfg.z, up, ms[k..]);
    var km, r := ms[k], ReadFrame(up);
    assert km == ms[k..][0] && ms[k..][1..] == ms[k + 1..];
    EventOf(cfg, r.flag, r.payload, km, ok);
    LinedPrefix(cfg, ms, k);
    assert forall x :: x in ms[k + 1..] ==> x in ms[k..];
  }

  lemma LinedPrefix(cfg: Server.Config, ms: seq<(Kind, Message)>, k: nat)
    requires k < |ms|
    ensures WithHandler(cfg, EventsAmong(ms[..k + 1]))
         == WithHandler(cfg, EventsAmong(ms[..k])) + WithHandler(cfg, if ms[k].0.Event? then [ms[k].1] else [])
  {
    assert ms[..k + 1][..k] == ms[..k] && ms[..k + 1][k] == ms[k];
    hide WithHandler;
    WithHandlerConcat(cfg, EventsAmong(ms[..k]), if ms[k].0.Event? then [ms[k].1] else []);
  }

  lemma OneEvent(cfg: Server.Config, km: (Kind, Message))
    ensures WithHandler(cfg, if km.0.Event? then [km.1] else [])
         == if km.0.Event? && km.1.path in cfg.eventHandlers then [km.1] else []
  {
    if km.0.Event? {
      assert [km.1][..0] == [];
    }
  }

  // ---- All events ----------------------------------------------------------------------------

  ghost predicate AllLined(cfg: Server.Config, n: Net) {
    forall st :: Lined(cfg, n, st)
  }

  lemma TurnLined(cfg: Server.Config, n: Net, st: StreamId, ok: bool, x: StreamId)
    requires cfg.z.Lawful() && Lined(cfg, n, x) && Can(cfg, n, ServeTurn(st, ok)) && ReadFrame(On(n.up, st)).Frame?
    ensures Lined(cfg, Do(cfg, n, ServeTurn(st, ok)), x)
  {
    hide Do, Can, LinedUp, On, ReadFrame, Server.React, Server.Events;
    ServeEffects(cfg, n, st, ok, x);
    var k: nat :| LinedUp(cfg, On(n.written, x), k, On(n.up, x), On(n.handled, x));
    var t := Do(cfg, n, ServeTurn(st, ok));
    if x == st {
      LinedTurn(cfg, On(n.written, x), k, On(n.up, x), On(n.handled, x), ok);
      assert LinedUp(cfg, On(t.written, x), k + 1, On(t.up, x), On(t.handled, x));
    } else {
      assert On(n.handled, x) + [] == On(n.handled, x);
      assert LinedUp(cfg, On(t.written, x), k, On(t.up, x), On(t.handled, x));
    }
  }

  lemma SameLined(cfg: Server.Config, n: Net, t: Net, x: StreamId)
    requires Lined(cfg, n, x) && t.written == n.written && t.up == n.up && t.handled == n.handled
    ensures Lined(cfg, t, x)
  {
    hide LinedUp;
  }

  lemma WriteLined(cfg: Server.Config, n: Net, st: StreamId, kind: Kind, m: Message, x: StreamId)
    requires Lined(cfg, n, x) && Framable(cfg.z, kind, m) && !kind.Response?
    ensures |Encode(m)| < TWO63 && Lined(cfg, WriteUp(cfg, n, st, kind, m), x)
  {
    hide LinedUp, Framable, Encode, EncodeFrame;
    FramableSize(cfg.z, kind, m);
    var k: nat :| LinedUp(cfg, On(n.written, x), k, On(n.up, x), On(n.handled, x));
    var t := WriteUp(cfg, n, st, kind, m);
    if x == st {
      LinedWrite(cfg, On(n.written, x), k, On(n.up, x), On(n.handled, x), kind, m);
    }
    assert LinedUp(cfg, On(t.written, x), k, On(t.up, x), On(t.handled, x));
  }

  lemma EventLined(cfg: Server.Config, n: Net, e: Event, x: StreamId)
    requires cfg.z.Lawful() && Lined(cfg, n, x) && Can(cfg, n, e)
    ensures Lined(cfg, Do(cfg, n, e), x)
  {
    hide Lined, Framable, Encode, EncodeFrame, ReadFrame, Client.Step, WriteUp;
    match e
    case Local(a) => SameLined(cfg, n, Do(cfg, n, e), x);
    case Send(c, st) =>
      var u := n.(client := Client.Step(n.client, Client.Write(c)));
      SameLined(cfg, n, u, x);
      WriteLined(cfg, u, st, Request, n.client.calls[c].req, x);
    case SendThenFail(c, st) =>
      var u := n.(client := Client.Step(n.client, Client.WriteError(c)));
      SameLined(cfg, n, u, x);
      WriteLined(cfg, u, st, Request, n.client.calls[c].req, x);
    case SendEvent(st, m) => WriteLined(cfg, n, st, Kind.Event, m.(requestId := 0), x);
    case ServeTurn(st, ok) =>
      hide Do, Can;
      if ReadFrame(On(n.up, st)).Frame? {
        TurnLined(cfg, n, st, ok, x);
      } else {
        EmptyTurn(cfg, n, st, ok);
        SameLined(cfg, n, Do(cfg, n, e), x);
      }
    case ReadTurn(st) =>
      hide Do, Can;
      ReadEffects(cfg, n, st, x);
      SameLined(cfg, n, Do(cfg, n, e), x);
  }

  /** What an event adds to the events written. */
  lemma EventWrites(cfg: Server.Config, n: Net, e: Event, x: StreamId)
    requires Can(cfg, n, e)
    ensures EventsAmong(On(Do(cfg, n, e).written, x)) == EventsAmong(On(n.written, x)) + EventsSent([e], x)
  {
    hide Framable, Encode, EncodeFrame, ReadFrame, Client.Step, WriteUp, On, EventsAmong;
    assert EventsSent([], x) == [] && [e][1..] == [];
    assert EventsAmong(On(n.written, x)) + [] == EventsAmong(On(n.written, x));
    match e
    case Local(a) =>
    case Send(c, st) => WrittenOn(cfg, n.(client := Client.Step(n.client, Client.Write(c))), st, Request, n.client.calls[c].req, x);
    case SendThenFail(c, st) =>
      WrittenOn(cfg, n.(client := Client.Step(n.client, Client.WriteError(c))), st, Request, n.client.calls[c].req, x);
    case SendEvent(st, m) => WrittenOn(cfg, n, st, Kind.Event, m.(requestId := 0), x);
    case ServeTurn(st, ok) =>
      hide Do, Can;
      if ReadFrame(On(n.up, st)).Frame? {
        ServeEffects(cfg, n, st, ok, x);
      } else {
        EmptyTurn(cfg, n, st, ok);
      }
    case ReadTurn(st) =>
      hide Do, Can;
      ReadEffects(cfg, n, st, x);
  }

  lemma WrittenOn(cfg: Server.Config, n: Net, st: StreamId, kind: Kind, m: Message, x: StreamId)
    requires Framable(cfg.z, kind, m)
    ensures |Encode(m)| < TWO63
    ensures EventsAmong(On(WriteUp(cfg, n, st, kind, m).written, x))
         == EventsAmong(On(n.written, x)) + if x == st && kind.Event? then [m] else []
  {
    hide Encode, EncodeFrame, Framable, EventsAmong, On, WriteUp;
    FramableSize(cfg.z, kind, m);
    WrittenIs(cfg, n, st, kind, m, x);
    OneMore(On(n.written, x), (kind, m));
    assert EventsAmong(On(n.written, x)) + [] == EventsAmong(On(n.written, x));
  }

  lemma WrittenIs(cfg: Server.Config, n: Net, st: StreamId, kind: Kind, m: Message, x: StreamId)
    requires |Encode(m)| < TWO63
    ensures On(WriteUp(cfg, n, st, kind, m).written, x)
         == if x == st then On(n.written, x) + [(kind, m)] else On(n.written, x)
  {
    hide Encode, EncodeFrame;
  }

  lemma OneMore(ms: seq<(Kind, Message)>, km: (Kind, Message))
    ensures EventsAmong(ms + [km]) == EventsAmong(ms) + if km.0.Event? then [km.1] else []
  {
    assert (ms + [km])[..|ms|] == ms;
  }

  lemma {:induction false} ExecutionWrites(cfg: Server.Config, n: Net, events: seq<Event>, t: Net, x: StreamId)
    requires cfg.z.Lawful() && Lined(cfg, n, x) && Executes(cfg, n, events, t)
    ensures Lined(cfg, t, x)
    ensures EventsAmong(On(t.written, x)) == EventsAmong(On(n.written, x)) + EventsSent(events, x)
    decreases |events|
  {
    hide Do, Can, Lined, EventsAmong;
    if events == [] {
      assert EventsAmong(On(n.written, x)) + [] == EventsAmong(On(n.written, x));
    } else {
      var e, u := events[0], Do(cfg, n, events[0]);
      EventLined(cfg, n, e, x);
      EventWrites(cfg, n, e, x);
      ExecutionWrites(cfg, u, events[1..], t, x);
      SentFirst(events, x);
      var a, b, c := EventsAmong(On(n.written, x)), EventsSent([e], x), EventsSent(events[1..], x);
      assert (a + b) + c == a + (b + c);
    }
  }

  lemma SentFirst(events: seq<Event>, x: StreamId)
    requires events != []
    ensures EventsSent(events, x) == EventsSent([events[0]], x) + EventsSent(events[1..], x)
  {
    assert [events[0]][1..] == [] && EventsSent([], x) == [];
  }

  /** In every run the events handled on a stream are, in order, the first of those submitted there that have a
      handler, each with id 0. */
  lemma EventsAreHandledInOrder(cfg: Server.Config, events: seq<Event>, t: Net, st: StreamId)
    requires cfg.z.Lawful() && Executes(cfg, START, events, t)
    ensures On(t.handled, st) <= WithHandler(cfg, EventsSent(events, st))
    ensures forall m :: m in On(t.handled, st) ==> m.requestId == 0
  {
    hide Executes, LinedUp, WithHandler, EventsAmong, EventsSent, On;
    LinedStart(cfg, st);
    ExecutionWrites(cfg, START, events, t, st);
    var ms := On(t.written, st);
    var k: nat :| LinedUp(cfg, ms, k, On(t.up, st), On(t.handled, st));
    HandledAre(cfg, ms, k, On(t.up, st), On(t.handled, st));
    assert ms == ms[..k] + ms[k..];
    EventsAmongConcat(ms[..k], ms[k..]);
    WithHandlerConcat(cfg, EventsAmong(ms[..k]), EventsAmong(ms[k..]));
    assert [] + EventsSent(events, st) == EventsSent(events, st);
    SentHaveNoId(cfg, events, st);
  }

  lemma LinedStart(cfg: Server.Config, st: StreamId)
    ensures Lined(cfg, START, st) && EventsAmong(On(START.written, st)) == []
  {
    assert On(START.written, st) == [] && On(START.up, st) == [] && On(START.handled, st) == [];
    assert LinedUp(cfg, [], 0, [], []);
    assert LinedUp(cfg, On(START.written, st), 0, On(START.up, st), On(START.handled, st));
  }

  lemma HandledAre(cfg: Server.Config, ms: seq<(Kind, Message)>, k: nat, up: Bytes, handled: seq<Message>)
    requires LinedUp(cfg, ms, k, up, handled)
    ensures k <= |ms| && handled == WithHandler(cfg, EventsAmong(ms[..k]))
  {
  }

  lemma SentHaveNoId(cfg: Server.Config, events: seq<Event>, st: StreamId)
    ensures forall m :: m in EventsSent(events, st) ==> m.requestId == 0
    ensures forall m :: m in WithHandler(cfg, EventsSent(events, st)) ==> m.requestId == 0
  {
    NoIds(events, st);
    HandlerSubset(cfg, EventsSent(events, st));
  }

  lemma {:induction false} NoIds(events: seq<Event>, st: StreamId)
    ensures forall m :: m in EventsSent(events, st) ==> m.requestId == 0
  {
    if events != [] {
      NoIds(events[1..], st);
    }
  }

  lemma {:induction false} HandlerSubset(cfg: Server.Config, ms: seq<Message>)
    ensures forall m :: m in WithHandler(cfg, ms) ==> m in ms && m.path in cfg.eventHandlers
  {
    if ms != [] {
      HandlerSubset(cfg, ms[..|ms| - 1]);
    }
  }
}
