/** Client, streams and server together, over the bytes on the streams. */
module System {
  import opened Wire
  import opened Codec
  import opened CodecTheorems
  import opened Framing
  import opened Client
  import opened Correlation
  import opened ClientTheorems
  import Server

  type StreamId = nat

  datatype Net = Net(
    client: State,
    up: map<StreamId, Bytes>,      // written by the client, not yet read by the server
    down: map<StreamId, Bytes>,    // written by the server, not yet read by the client
    stopped: set<StreamId>,        // streams whose server loop has returned
    panicked: bool,                // the client asserted a response channel to be a request channel
    consumed: map<StreamId, Bytes>,  // history: all that the server has read
    produced: map<StreamId, Bytes>,  // history: all that the server has written
    written: map<StreamId, seq<(Kind, Message)>>,  // history: all that the client has written
    handled: map<StreamId, seq<Message>>)          // history: the events given to their handlers

  const START: Net := Net(INIT, map[], map[], {}, false, map[], map[], map[], map[])

  function On<T>(m: map<StreamId, seq<T>>, st: StreamId): seq<T> {
    if st in m then m[st] else []
  }

  datatype Event =
    | Local(a: Action)                                   // a client step that touches no stream
    | Send(c: CallId, st: StreamId)
    | SendThenFail(c: CallId, st: StreamId)              // the frame goes out but `Write` reports an error
    | SendEvent(st: StreamId, m: Message)
    | ServeTurn(st: StreamId, ok: bool)                  // one turn of the server's loop; its write may fail
    | ReadTurn(st: StreamId)                             // one turn of the client's read loop on a stream

  /** The response to the frame read, if it has one, fits a frame. */
  predicate ReplyFits(cfg: Server.Config, flag: Byte, payload: Slice) {
    match Server.React(cfg, flag, payload)
    case Answer(m) => Framable(cfg.z, Response, cfg.ResponseTo(m))
    case _ => true
  }

  /** Frames carry messages whose payload length plus one fits 32 bits. */
  predicate Can(cfg: Server.Config, n: Net, e: Event) {
    match e
    case Local(a) => !a.Write? && !a.WriteError? && !a.Decode? && Enabled(n.client, a)
    case Send(c, _) => Enabled(n.client, Write(c)) && Framable(cfg.z, Request, n.client.calls[c].req)
    case SendThenFail(c, _) => Enabled(n.client, WriteError(c)) && Framable(cfg.z, Request, n.client.calls[c].req)
    case SendEvent(_, m) => Framable(cfg.z, Kind.Event, m.(requestId := 0))
    case ServeTurn(st, _) =>
      && st !in n.stopped
      && (match ReadFrame(On(n.up, st))
          case Frame(flag, payload, _) => ReplyFits(cfg, flag, payload)
          case ZeroLength => true
          case Incomplete => false)
    case ReadTurn(st) => Enabled(n.client, Decode(st, EMPTY)) && ReadFrame(On(n.down, st)).Frame?
  }

  function Put<T>(m: map<StreamId, seq<T>>, st: StreamId, s: seq<T>): map<StreamId, seq<T>> {
    m[st := On(m, st) + s]
  }

  /** The client has written a frame to a stream. */
  function WriteUp(cfg: Server.Config, n: Net, st: StreamId, kind: Kind, m: Message): Net
    requires |Encode(m)| < TWO63
  {
    n.(up := Put(n.up, st, EncodeFrame(cfg.z, kind, m)), written := Put(n.written, st, [(kind, m)]))
  }

  /** The server has read `next` bytes off a stream. */
  function Consume(n: Net, st: StreamId, next: nat): Net
    requires next <= |On(n.up, st)|
  {
    n.(up := n.up[st := On(n.up, st)[next..]], consumed := Put(n.consumed, st, On(n.up, st)[..next]))
  }

  /** The server has written a frame to a stream. */
  function Produce(n: Net, st: StreamId, frame: Bytes): Net {
    n.(down := Put(n.down, st, frame), produced := Put(n.produced, st, frame))
  }

  function StopStream(n: Net, st: StreamId): Net {
    n.(stopped := n.stopped + {st})
  }

  /** The server's turn on a frame already read off the stream; `ok` tells whether the stream takes a write. */
  function Served(cfg: Server.Config, n: Net, st: StreamId, flag: Byte, payload: Slice, ok: bool): Net
    requires ReplyFits(cfg, flag, payload)
  {
    match Server.Effective(Server.React(cfg, flag, payload), if ok then 1 else 0)
    case Stop => StopStream(n, st)
    case Answer(m) => Produce(n, st, EncodeFrame(cfg.z, Response, cfg.ResponseTo(m)))
    case Handle(m) => n.(handled := Put(n.handled, st, [m]))
    case Ignore => n
  }

  /** The client's dispatch on a frame already read off the stream. */
  ghost function Dispatched(cfg: Server.Config, n: Net, st: StreamId, flag: Byte, payload: Slice): Net
    requires Enabled(n.client, Decode(st, EMPTY))
  {
    match DecodePayload(ClientSide, cfg.z, flag, payload)
    case Some((Response, m)) => n.(client := Step(n.client, Decode(st, m)))
    case Some((Request, m)) => n.(panicked := n.panicked || m.requestId in n.client.table)
    case _ => n
  }

  ghost function Do(cfg: Server.Config, n: Net, e: Event): Net
    requires Can(cfg, n, e)
  {
    match e
    case Local(a) => n.(client := Step(n.client, a))
    case Send(c, st) => WriteUp(cfg, n.(client := Step(n.client, Write(c))), st, Request, n.client.calls[c].req)
    case SendThenFail(c, st) =>
      WriteUp(cfg, n.(client := Step(n.client, WriteError(c))), st, Request, n.client.calls[c].req)
    case SendEvent(st, m) => WriteUp(cfg, n, st, Kind.Event, m.(requestId := 0))
    case ServeTurn(st, ok) =>
      (match ReadFrame(On(n.up, st))
       case Frame(flag, payload, next) => Served(cfg, Consume(n, st, next), st, flag, payload, ok)
       case _ => StopStream(n, st))
    case ReadTurn(st) =>
      var Frame(flag, payload, next) := ReadFrame(On(n.down, st));
      Dispatched(cfg, n.(down := n.down[st := On(n.down, st)[next..]]), st, flag, payload)
  }

  ghost predicate Executes(cfg: Server.Config, n: Net, events: seq<Event>, t: Net)
    decreases |events|
  {
    if events == [] then n == t
    else Can(cfg, n, events[0]) && Executes(cfg, Do(cfg, n, events[0]), events[1..], t)
  }

  // ---- The invariant -------------------------------------------------------------------------

  /** `r` is what the handler of some call's method produces for that call's request, which was sent. */
  ghost predicate Genuine(cfg: Server.Config, calls: map<CallId, Call>, r: Message) {
    exists c :: c in calls && calls[c].sent && calls[c].req.path in cfg.handlers && r == cfg.ResponseTo(calls[c].req)
  }

  ghost predicate Submitted(calls: map<CallId, Call>, m: Message) {
    exists c :: c in calls && calls[c].sent && calls[c].req == m
  }

  /** The bytes going up are the frames of events and of requests of existing calls. */
  ghost predicate Upward(cfg: Server.Config, calls: map<CallId, Call>, s: Bytes, ms: seq<(Kind, Message)>) {
    && AllFramable(ServerSide, cfg.z, ms)
    && s == ConcatFrames(cfg.z, ms)
    && forall km :: km in ms && km.0.Request? ==> Submitted(calls, km.1)
  }

  /** The bytes going down are response frames, each one genuine. */
  ghost predicate Downward(cfg: Server.Config, calls: map<CallId, Call>, s: Bytes, ms: seq<(Kind, Message)>) {
    && AllFramable(ClientSide, cfg.z, ms)
    && s == ConcatFrames(cfg.z, ms)
    && forall km :: km in ms ==> km.0.Response? && Genuine(cfg, calls, km.1)
  }

  ghost predicate UpOk(cfg: Server.Config, calls: map<CallId, Call>, s: Bytes) {
    exists ms :: Upward(cfg, calls, s, ms)
  }

  ghost predicate DownOk(cfg: Server.Config, calls: map<CallId, Call>, s: Bytes) {
    exists ms :: Downward(cfg, calls, s, ms)
  }

  ghost predicate Invariant(cfg: Server.Config, n: Net) {
    && Good(n.client)
    && !n.panicked
    && (forall st :: UpOk(cfg, n.client.calls, On(n.up, st)))
    && (forall st :: DownOk(cfg, n.client.calls, On(n.down, st)))
    && (forall x :: PacketAt(n.client, x).Some? ==> Genuine(cfg, n.client.calls, PacketAt(n.client, x).value.msg))
  }

  // ---- Preservation --------------------------------------------------------------------------

  ghost predicate Extends(calls: map<CallId, Call>, later: map<CallId, Call>) {
    forall c :: c in calls ==> c in later && later[c].req == calls[c].req && (calls[c].sent ==> later[c].sent)
  }

  /** No step forgets a call, changes its request or takes back that it was sent. */
  lemma StepExtends(s: State, a: Action)
    requires Enabled(s, a)
    ensures Extends(s.calls, Step(s, a).calls)
  {
    if !a.Begin? && !a.Store? {
      CallsEvolve(s, a);
      hide Step, Enabled;
    }
  }

  /** Only decoding makes a response appear; every other step moves or drops what is there. */
  lemma NoNewPackets(s: State, a: Action, x: Place)
    requires Enabled(s, a) && !a.Decode? && PacketAt(Step(s, a), x).Some?
    ensures exists y :: PacketAt(s, y) == PacketAt(Step(s, a), x)
  {
    if a.Receive? {
      var from := if x == AtCall(a.c) then InChannel(s.calls[a.c].phase.ch) else x;
      assert PacketAt(s, from) == PacketAt(Step(s, a), x);
    } else if a.Deliver? {
      var fills := x == InChannel(ReaderOf(s.readers, a.r).entry.ch) && PacketAt(s, x).None?;
      assert PacketAt(s, if fills then AtReader(a.r) else x) == PacketAt(Step(s, a), x);
    } else {
      hide Step, PacketAt, Enabled;
      Quiet(s, a, x);
      assert PacketAt(s, x) == PacketAt(Step(s, a), x);
    }
  }

  lemma GenuineExtends(cfg: Server.Config, calls: map<CallId, Call>, later: map<CallId, Call>, r: Message)
    requires Extends(calls, later) && Genuine(cfg, calls, r)
    ensures Genuine(cfg, later, r)
  {
    var c :| c in calls && calls[c].sent && calls[c].req.path in cfg.handlers && r == cfg.ResponseTo(calls[c].req);
    assert c in later && later[c].req == calls[c].req;
  }

  lemma UpwardExtends(cfg: Server.Config, calls: map<CallId, Call>, later: map<CallId, Call>, s: Bytes)
    requires Extends(calls, later) && UpOk(cfg, calls, s)
    ensures UpOk(cfg, later, s)
  {
    var ms: seq<(Kind, Message)> :| Upward(cfg, calls, s, ms);
    forall km | km in ms && km.0.Request?
      ensures Submitted(later, km.1)
    {
      var c :| c in calls && calls[c].sent && calls[c].req == km.1;
      assert c in later && later[c].sent && later[c].req == km.1;
    }
    assert Upward(cfg, later, s, ms);
  }

  lemma DownwardExtends(cfg: Server.Config, calls: map<CallId, Call>, later: map<CallId, Call>, s: Bytes)
    requires Extends(calls, later) && DownOk(cfg, calls, s)
    ensures DownOk(cfg, later, s)
  {
    var ms: seq<(Kind, Message)> :| Downward(cfg, calls, s, ms);
    forall km | km in ms
      ensures km.0.Response? && Genuine(cfg, later, km.1)
    {
      GenuineExtends(cfg, calls, later, km.1);
    }
    assert Downward(cfg, later, s, ms);
  }

  /** The parts of the invariant about responses and bytes survive any change that only adds calls. */
  lemma StreamsExtend(cfg: Server.Config, n: Net, later: map<CallId, Call>)
    requires Invariant(cfg, n) && Extends(n.client.calls, later)
    ensures forall st :: UpOk(cfg, later, On(n.up, st))
    ensures forall st :: DownOk(cfg, later, On(n.down, st))
  {
    hide Good, PacketAt, UpOk, DownOk, Genuine, Extends;
    forall st
      ensures UpOk(cfg, later, On(n.up, st))
    {
      UpwardExtends(cfg, n.client.calls, later, On(n.up, st));
    }
    forall st
      ensures DownOk(cfg, later, On(n.down, st))
    {
      DownwardExtends(cfg, n.client.calls, later, On(n.down, st));
    }
  }

  lemma PacketsExtend(cfg: Server.Config, n: Net, a: Action)
    requires Invariant(cfg, n) && Enabled(n.client, a) && !a.Decode?
    ensures forall x :: PacketAt(Step(n.client, a), x).Some? ==>
              Genuine(cfg, Step(n.client, a).calls, PacketAt(Step(n.client, a), x).value.msg)
  {
    var t := Step(n.client, a);
    StepExtends(n.client, a);
    hide Step, Enabled, PacketAt, Genuine, Extends, UpOk, DownOk;
    forall x | PacketAt(t, x).Some?
      ensures Genuine(cfg, t.calls, PacketAt(t, x).value.msg)
    {
      NoNewPackets(n.client, a, x);
      var y :| PacketAt(n.client, y) == PacketAt(t, x);
      GenuineExtends(cfg, n.client.calls, t.calls, PacketAt(t, x).value.msg);
    }
  }

  /** A client step other than decoding keeps the invariant. */
  lemma ClientStepKeeps(cfg: Server.Config, n: Net, a: Action)
    requires Invariant(cfg, n) && Enabled(n.client, a) && !a.Decode?
    ensures Invariant(cfg, n.(client := Step(n.client, a)))
  {
    GoodStep(n.client, a);
    StepExtends(n.client, a);
    StreamsExtend(cfg, n, Step(n.client, a).calls);
    PacketsExtend(cfg, n, a);
    hide Step, Enabled, Good, PacketAt, UpOk, DownOk, Genuine, Extends;
  }

  lemma UpwardAppend(cfg: Server.Config, calls: map<CallId, Call>, s: Bytes, kind: Kind, m: Message)
    requires UpOk(cfg, calls, s) && Framable(cfg.z, kind, m)
    requires kind.Event? || (kind.Request? && Submitted(calls, m))
    ensures UpOk(cfg, calls, s + EncodeFrame(cfg.z, kind, m))
  {
    hide Framable, Encode, EncodeFrame, ConcatFrames, Submitted;
    var ms: seq<(Kind, Message)> :| Upward(cfg, calls, s, ms);
    FramableSizes(ServerSide, cfg.z, ms);
    FramableSize(cfg.z, kind, m);
    ConcatFramesAppend(cfg.z, ms, (kind, m));
    var longer := ms + [(kind, m)];
    assert forall km :: km in longer <==> km in ms || km == (kind, m);
    assert AllFramable(ServerSide, cfg.z, longer);
    assert Upward(cfg, calls, s + EncodeFrame(cfg.z, kind, m), longer);
  }

  lemma DownwardAppend(cfg: Server.Config, calls: map<CallId, Call>, s: Bytes, r: Message)
    requires DownOk(cfg, calls, s) && Framable(cfg.z, Response, r) && Genuine(cfg, calls, r)
    ensures DownOk(cfg, calls, s + EncodeFrame(cfg.z, Response, r))
  {
    hide Framable, Encode, EncodeFrame, ConcatFrames, Genuine;
    var ms: seq<(Kind, Message)> :| Downward(cfg, calls, s, ms);
    FramableSizes(ClientSide, cfg.z, ms);
    FramableSize(cfg.z, Response, r);
    ConcatFramesAppend(cfg.z, ms, (Response, r));
    var longer := ms + [(Response, r)];
    assert forall km :: km in longer <==> km in ms || km == (Response, r);
    assert AllFramable(ClientSide, cfg.z, longer);
    assert Downward(cfg, calls, s + EncodeFrame(cfg.z, Response, r), longer);
  }

  /** The next frame on a stream that holds frames of `ms`. */
  lemma NextFrame(side: Side, z: Zstd, s: Bytes, ms: seq<(Kind, Message)>)
    requires z.Lawful() && AllFramable(side, z, ms) && s == ConcatFrames(z, ms) && !ReadFrame(s).Incomplete?
    ensures ms != []
    ensures var r := ReadFrame(s);
            && r.Frame?
            && r.flag in {PlainFlag(ms[0].0), ZstdFlag(ms[0].0)}
            && DecodePayload(side, z, r.flag, r.payload) == Some(ms[0])
            && s[r.next..] == ConcatFrames(z, ms[1..])
  {
    if ms == [] {
      assert false;
    }
    assert ms[0] in ms;
    FramableSizes(side, z, ms);
    hide Framable, ReadFrame, DecodePayload, EncodeFrame, Encode;
    EncodeFrameReadBack(side, z, ms[0].0, ms[0].1, ConcatFrames(z, ms[1..]));
  }

  lemma TailFramable(side: Side, z: Zstd, ms: seq<(Kind, Message)>)
    requires ms != [] && AllFramable(side, z, ms)
    ensures AllFramable(side, z, ms[1..]) && forall km :: km in ms[1..] ==> km in ms
  {
    hide Framable;
  }

  lemma FramableRequest(z: Zstd, m: Message)
    requires Framable(z, Request, m)
    ensures WellFormed(RequestSchema, m)
  {
  }

  /** What the server finds on a stream: an event, or the request of an existing call. */
  lemma UpwardRead(cfg: Server.Config, calls: map<CallId, Call>, s: Bytes)
    requires cfg.z.Lawful() && UpOk(cfg, calls, s) && !ReadFrame(s).Incomplete?
    ensures var r := ReadFrame(s);
            && r.Frame?
            && UpOk(cfg, calls, s[r.next..])
            && var km := DecodePayload(ServerSide, cfg.z, r.flag, r.payload);
               && km.Some? && !km.value.0.Response?
               && (km.value.0.Request? ==>
                     Submitted(calls, km.value.1) && WellFormed(RequestSchema, km.value.1))
  {
    hide ReadFrame, DecodePayload, Framable, WellFormed, ConcatFrames, Submitted, Encode;
    var ms: seq<(Kind, Message)> :| Upward(cfg, calls, s, ms);
    NextFrame(ServerSide, cfg.z, s, ms);
    assert ms[0] in ms;
    if ms[0].0.Request? {
      FramableRequest(cfg.z, ms[0].1);
    }
    TailFramable(ServerSide, cfg.z, ms);
    assert Upward(cfg, calls, s[ReadFrame(s).next..], ms[1..]);
  }

  /** What the client finds on a stream: a genuine response, under one of the two response flags. */
  lemma DownwardRead(cfg: Server.Config, calls: map<CallId, Call>, s: Bytes)
    requires cfg.z.Lawful() && DownOk(cfg, calls, s) && !ReadFrame(s).Incomplete?
    ensures var r := ReadFrame(s);
            && r.Frame?
            && (r.flag == RESPONSE_FLAG || r.flag == RESPONSE_ZSTD_FLAG)
            && DownOk(cfg, calls, s[r.next..])
            && var km := DecodePayload(ClientSide, cfg.z, r.flag, r.payload);
               && km.Some? && km.value.0.Response? && Genuine(cfg, calls, km.value.1)
  {
    hide ReadFrame, DecodePayload, Framable, ConcatFrames, Genuine, Encode;
    var ms: seq<(Kind, Message)> :| Downward(cfg, calls, s, ms);
    NextFrame(ClientSide, cfg.z, s, ms);
    assert ms[0] in ms;
    TailFramable(ClientSide, cfg.z, ms);
    assert Downward(cfg, calls, s[ReadFrame(s).next..], ms[1..]);
  }

  lemma PutUp(cfg: Server.Config, n: Net, st: StreamId, kind: Kind, m: Message)
    requires Invariant(cfg, n) && Framable(cfg.z, kind, m)
    requires kind.Event? || (kind.Request? && Submitted(n.client.calls, m))
    ensures |Encode(m)| < TWO63
    ensures Invariant(cfg, WriteUp(cfg, n, st, kind, m))
  {
    hide Framable, Encode, EncodeFrame, UpOk, DownOk, Good, PacketAt, Genuine, Submitted;
    FramableSize(cfg.z, kind, m);
    UpwardAppend(cfg, n.client.calls, On(n.up, st), kind, m);
    var t := WriteUp(cfg, n, st, kind, m);
    assert forall x :: On(t.up, x) == if x == st then On(n.up, st) + EncodeFrame(cfg.z, kind, m) else On(n.up, x);
  }

  lemma PutDown(cfg: Server.Config, n: Net, st: StreamId, r: Message)
    requires Invariant(cfg, n) && Framable(cfg.z, Response, r) && Genuine(cfg, n.client.calls, r)
    ensures |Encode(r)| < TWO63
    ensures Invariant(cfg, Produce(n, st, EncodeFrame(cfg.z, Response, r)))
  {
    hide Framable, Encode, EncodeFrame, UpOk, DownOk, Good, PacketAt, Genuine;
    FramableSize(cfg.z, Response, r);
    DownwardAppend(cfg, n.client.calls, On(n.down, st), r);
    var t := Produce(n, st, EncodeFrame(cfg.z, Response, r));
    assert forall x :: On(t.down, x) == if x == st then On(n.down, st) + EncodeFrame(cfg.z, Response, r) else On(n.down, x);
  }

  lemma ConsumeKeeps(cfg: Server.Config, n: Net, st: StreamId, next: nat)
    requires Invariant(cfg, n) && next <= |On(n.up, st)| && UpOk(cfg, n.client.calls, On(n.up, st)[next..])
    ensures Invariant(cfg, Consume(n, st, next))
  {
    hide UpOk, DownOk, Good, PacketAt, Genuine;
    var t := Consume(n, st, next);
    assert forall x :: On(t.up, x) == if x == st then On(n.up, st)[next..] else On(n.up, x);
  }

  lemma ReplaceDown(cfg: Server.Config, n: Net, st: StreamId, s: Bytes)
    requires Invariant(cfg, n) && DownOk(cfg, n.client.calls, s)
    ensures Invariant(cfg, n.(down := n.down[st := s]))
  {
    hide UpOk, DownOk, Good, PacketAt, Genuine;
    var t := n.(down := n.down[st := s]);
    assert forall x :: On(t.down, x) == if x == st then s else On(n.down, x);
  }

  lemma ServeDoes(cfg: Server.Config, n: Net, st: StreamId, ok: bool)
    requires Can(cfg, n, ServeTurn(st, ok)) && ReadFrame(On(n.up, st)).Frame?
    ensures var r := ReadFrame(On(n.up, st));
            && ReplyFits(cfg, r.flag, r.payload)
            && Do(cfg, n, ServeTurn(st, ok)) == Served(cfg, Consume(n, st, r.next), st, r.flag, r.payload, ok)
  {
    hide ReadFrame, Served, ReplyFits, Consume;
  }

  lemma ReplyFitsMemory(cfg: Server.Config, flag: Byte, payload: Slice)
    requires ReplyFits(cfg, flag, payload)
    ensures Server.AnswerFits(cfg, Server.React(cfg, flag, payload))
  {
    hide Framable, Encode, Server.React;
    match Server.React(cfg, flag, payload)
    case Answer(m) => FramableSize(cfg.z, Response, cfg.ResponseTo(m));
    case _ =>
  }

  lemma ConsumeEffects(n: Net, st: StreamId, next: nat, x: StreamId)
    requires next <= |On(n.up, st)|
    ensures var t := Consume(n, st, next);
            && t.client == n.client && t.down == n.down && t.stopped == n.stopped && t.panicked == n.panicked
            && t.produced == n.produced && t.written == n.written && t.handled == n.handled
            && On(t.up, x) == (if x == st then On(n.up, st)[next..] else On(n.up, x))
            && On(t.consumed, x) == On(n.consumed, x) + (if x == st then On(n.up, st)[..next] else [])
  {
  }

  /** What differs between `n` and `t` on stream `x`: bytes put down, events handled, and nothing of the rest. */
  predicate Reacted(n: Net, t: Net, x: StreamId, bytes: Bytes, events: seq<Message>) {
    && t.client == n.client && t.up == n.up && t.panicked == n.panicked
    && t.consumed == n.consumed && t.written == n.written
    && On(t.down, x) == On(n.down, x) + bytes
    && On(t.produced, x) == On(n.produced, x) + bytes
    && On(t.handled, x) == On(n.handled, x) + events
  }

  lemma ProduceReacts(n: Net, st: StreamId, frame: Bytes, x: StreamId)
    ensures Reacted(n, Produce(n, st, frame), x, if x == st then frame else [], [])
    ensures Produce(n, st, frame).stopped == n.stopped
  {
  }

  lemma HandleReacts(n: Net, st: StreamId, m: Message, x: StreamId)
    ensures Reacted(n, n.(handled := Put(n.handled, st, [m])), x, [], if x == st then [m] else [])
  {
  }

  lemma StopReacts(n: Net, st: StreamId, x: StreamId)
    ensures Reacted(n, StopStream(n, st), x, [], []) && Reacted(n, n, x, [], [])
  {
  }

  lemma ServedEffects(cfg: Server.Config, n: Net, st: StreamId, flag: Byte, payload: Slice, ok: bool, x: StreamId)
    requires ReplyFits(cfg, flag, payload)
    ensures var t := Served(cfg, n, st, flag, payload, ok);
            var reaction := Server.Effective(Server.React(cfg, flag, payload), if ok then 1 else 0);
            && Server.AnswerFits(cfg, reaction)
            && Reacted(n, t, x, if x == st then Server.AnswerBytes(cfg, reaction) else [],
                       if x == st then Server.Events(reaction) else [])
            && t.stopped == (if reaction.Stop? then n.stopped + {st} else n.stopped)
  {
    hide Server.React, Encode, EncodeFrame, Framable, Put, On, Reacted, Produce;
    ReplyFitsMemory(cfg, flag, payload);
    StopReacts(n, st, x);
    match Server.Effective(Server.React(cfg, flag, payload), if ok then 1 else 0)
    case Answer(m) => ProduceReacts(n, st, EncodeFrame(cfg.z, Response, cfg.ResponseTo(m)), x);
    case Handle(m) => HandleReacts(n, st, m, x);
    case _ =>
  }

  /** What a turn of the server changes: its reaction to the frame at the head of its stream, and nothing on
      any other stream. */
  lemma ServeEffects(cfg: Server.Config, n: Net, st: StreamId, ok: bool, x: StreamId)
    requires Can(cfg, n, ServeTurn(st, ok)) && ReadFrame(On(n.up, st)).Frame?
    ensures var r, t := ReadFrame(On(n.up, st)), Do(cfg, n, ServeTurn(st, ok));
            var reaction := Server.Effective(Server.React(cfg, r.flag, r.payload), if ok then 1 else 0);
            && Server.AnswerFits(cfg, reaction)
            && t.client == n.client && t.panicked == n.panicked && t.written == n.written
            && On(t.up, x) == (if x == st then On(n.up, st)[r.next..] else On(n.up, x))
            && On(t.consumed, x) == On(n.consumed, x) + (if x == st then On(n.up, st)[..r.next] else [])
            && On(t.down, x) == On(n.down, x) + (if x == st then Server.AnswerBytes(cfg, reaction) else [])
            && On(t.produced, x) == On(n.produced, x) + (if x == st then Server.AnswerBytes(cfg, reaction) else [])
            && On(t.handled, x) == On(n.handled, x) + (if x == st then Server.Events(reaction) else [])
            && t.stopped == (if reaction.Stop? then n.stopped + {st} else n.stopped)
  {
    hide ReadFrame, Served, Consume, Do, Can, Server.React, Server.AnswerBytes, Server.Events, Server.AnswerFits, On;
    ServeDoes(cfg, n, st, ok);
    var r := ReadFrame(On(n.up, st));
    ConsumeEffects(n, st, r.next, x);
    ServedEffects(cfg, Consume(n, st, r.next), st, r.flag, r.payload, ok, x);
  }

  /** What a turn of a reader changes. */
  lemma ReadEffects(cfg: Server.Config, n: Net, st: StreamId, x: StreamId)
    requires Can(cfg, n, ReadTurn(st))
    ensures var t := Do(cfg, n, ReadTurn(st));
            && t.up == n.up && t.stopped == n.stopped && t.consumed == n.consumed && t.produced == n.produced
            && t.written == n.written && t.handled == n.handled && t.client.calls == n.client.calls
            && On(t.down, x) == (if x == st then On(n.down, st)[ReadFrame(On(n.down, st)).next..] else On(n.down, x))
  {
    hide ReadFrame, DecodePayload, Dispatched, On;
    var r := ReadFrame(On(n.down, st));
    var u := n.(down := n.down[st := On(n.down, st)[r.next..]]);
    DispatchedEffects(cfg, u, st, r.flag, r.payload);
    ReplaceOn(n.down, st, On(n.down, st)[r.next..], x);
  }

  lemma ReplaceOn<T>(m: map<StreamId, seq<T>>, st: StreamId, s: seq<T>, x: StreamId)
    ensures On(m[st := s], x) == if x == st then s else On(m, x)
  {
  }

  /** Nothing but the client has changed, and its calls are the same. */
  predicate OnlyReads(n: Net, t: Net) {
    && t.up == n.up && t.down == n.down && t.stopped == n.stopped && t.consumed == n.consumed
    && t.produced == n.produced && t.written == n.written && t.handled == n.handled
    && t.client.calls == n.client.calls
  }

  lemma ClientReads(n: Net, s: State, panicked: bool)
    requires s.calls == n.client.calls
    ensures OnlyReads(n, n.(client := s)) && OnlyReads(n, n.(panicked := panicked)) && OnlyReads(n, n)
  {
  }

  lemma DispatchedEffects(cfg: Server.Config, n: Net, st: StreamId, flag: Byte, payload: Slice)
    requires Enabled(n.client, Decode(st, EMPTY))
    ensures OnlyReads(n, Dispatched(cfg, n, st, flag, payload))
  {
    hide DecodePayload, Step, OnlyReads;
    match DecodePayload(ClientSide, cfg.z, flag, payload)
    case Some((Response, m)) =>
      DecodeCalls(n.client, st, m);
      ClientReads(n, Step(n.client, Decode(st, m)), true);
    case Some((Request, m)) => ClientReads(n, n.client, n.panicked || m.requestId in n.client.table);
    case _ => ClientReads(n, n.client, true);
  }

  lemma DecodeCalls(s: State, r: ReaderId, m: Message)
    requires Enabled(s, Decode(r, m))
    ensures Step(s, Decode(r, m)).calls == s.calls
  {
  }

  /** What the other events change: the client, and what is on the way up. */
  lemma OtherEffects(cfg: Server.Config, n: Net, e: Event)
    requires Can(cfg, n, e) && !e.ServeTurn? && !e.ReadTurn?
    ensures var t := Do(cfg, n, e);
            && t.down == n.down && t.stopped == n.stopped && t.consumed == n.consumed && t.produced == n.produced
            && t.handled == n.handled
  {
    hide Framable, Encode, EncodeFrame, Step, ReadFrame;
  }

  /** A turn of the server that finds no frame stops the stream. */
  lemma EmptyTurn(cfg: Server.Config, n: Net, st: StreamId, ok: bool)
    requires Can(cfg, n, ServeTurn(st, ok)) && !ReadFrame(On(n.up, st)).Frame?
    ensures Do(cfg, n, ServeTurn(st, ok)) == StopStream(n, st)
  {
    hide ReadFrame, StopStream;
  }

  lemma StopKeeps(cfg: Server.Config, n: Net, st: StreamId)
    requires Invariant(cfg, n)
    ensures Invariant(cfg, StopStream(n, st))
  {
    hide UpOk, DownOk, Good, PacketAt, Genuine;
  }

  lemma HandleKeeps(cfg: Server.Config, n: Net, st: StreamId, m: Message)
    requires Invariant(cfg, n)
    ensures Invariant(cfg, n.(handled := Put(n.handled, st, [m])))
  {
    hide UpOk, DownOk, Good, PacketAt, Genuine;
  }

  lemma ServedKeeps(cfg: Server.Config, n: Net, st: StreamId, flag: Byte, payload: Slice, ok: bool, kind: Kind, m: Message)
    requires Invariant(cfg, n) && !kind.Response? && ReplyFits(cfg, flag, payload)
    requires DecodePayload(ServerSide, cfg.z, flag, payload) == Some((kind, m))
    requires kind.Request? ==> Submitted(n.client.calls, m)
    ensures Invariant(cfg, Served(cfg, n, st, flag, payload, ok))
  {
    hide Genuine, DecodePayload, WellFormed, Framable, Encode, EncodeFrame, Submitted, Put, Invariant, Produce, StopStream;
    StopKeeps(cfg, n, st);
    HandleKeeps(cfg, n, st, m);
    if kind.Request? && m.path in cfg.handlers {
      SubmittedIsGenuine(cfg, n.client.calls, m);
      PutDown(cfg, n, st, cfg.ResponseTo(m));
    }
  }

  lemma ServeKeeps(cfg: Server.Config, n: Net, st: StreamId, ok: bool)
    requires cfg.z.Lawful() && Invariant(cfg, n) && Can(cfg, n, ServeTurn(st, ok))
    ensures Invariant(cfg, Do(cfg, n, ServeTurn(st, ok)))
  {
    UpwardRead(cfg, n.client.calls, On(n.up, st));
    hide ReadFrame, UpOk, DecodePayload, WellFormed, Submitted, Do, Served, Invariant, DownOk, Genuine, Framable,
      ReplyFits, Consume;
    ServeDoes(cfg, n, st, ok);
    var Frame(flag, payload, next) := ReadFrame(On(n.up, st));
    ConsumeKeeps(cfg, n, st, next);
    var (kind, m) := DecodePayload(ServerSide, cfg.z, flag, payload).value;
    assert Consume(n, st, next).client == n.client by { ConsumeClient(n, st, next); }
    ServedKeeps(cfg, Consume(n, st, next), st, flag, payload, ok, kind, m);
  }

  lemma ConsumeClient(n: Net, st: StreamId, next: nat)
    requires next <= |On(n.up, st)|
    ensures Consume(n, st, next).client == n.client
  {
  }

  lemma SubmittedIsGenuine(cfg: Server.Config, calls: map<CallId, Call>, m: Message)
    requires Submitted(calls, m) && m.path in cfg.handlers
    ensures Genuine(cfg, calls, cfg.ResponseTo(m))
  {
  }

  lemma DecodedAt(s: State, r: ReaderId, m: Message)
    requires Enabled(s, Decode(r, m))
    ensures PacketAt(Step(s, Decode(r, m)), AtReader(r)) == Some(Packet(s.decoded, m))
    ensures forall x :: x != AtReader(r) ==> PacketAt(Step(s, Decode(r, m)), x) == PacketAt(s, x)
  {
  }

  lemma DecodeKeeps(cfg: Server.Config, n: Net, r: ReaderId, m: Message)
    requires Invariant(cfg, n) && Enabled(n.client, Decode(r, m)) && Genuine(cfg, n.client.calls, m)
    ensures Invariant(cfg, n.(client := Step(n.client, Decode(r, m))))
  {
    var s, t := n.client, Step(n.client, Decode(r, m));
    hide Good, UpOk, DownOk, Genuine;
    GoodStep(s, Decode(r, m));
    assert t.calls == s.calls;
    DecodedAt(s, r, m);
    hide Step, PacketAt, Enabled;
  }

  lemma ReadDoes(cfg: Server.Config, n: Net, st: StreamId, m: Message)
    requires Can(cfg, n, ReadTurn(st))
    requires var r := ReadFrame(On(n.down, st));
             DecodePayload(ClientSide, cfg.z, r.flag, r.payload) == Some((Response, m))
    ensures Enabled(n.client, Decode(st, m))
    ensures Do(cfg, n, ReadTurn(st))
         == n.(down := n.down[st := On(n.down, st)[ReadFrame(On(n.down, st)).next..]],
               client := Step(n.client, Decode(st, m)))
  {
    hide ReadFrame, DecodePayload, Step;
  }

  lemma ReadKeeps(cfg: Server.Config, n: Net, st: StreamId)
    requires cfg.z.Lawful() && Invariant(cfg, n) && Can(cfg, n, ReadTurn(st))
    ensures Invariant(cfg, Do(cfg, n, ReadTurn(st)))
  {
    DownwardRead(cfg, n.client.calls, On(n.down, st));
    hide ReadFrame, DownOk, Genuine, DecodePayload, Step, Do, UpOk, Good, PacketAt, Enabled;
    var Frame(flag, payload, next) := ReadFrame(On(n.down, st));
    var m := DecodePayload(ClientSide, cfg.z, flag, payload).value.1;
    ReadDoes(cfg, n, st, m);
    ReplaceDown(cfg, n, st, On(n.down, st)[next..]);
    hide Invariant;
    DecodeKeeps(cfg, n.(down := n.down[st := On(n.down, st)[next..]]), st, m);
  }

  lemma SendKeeps(cfg: Server.Config, n: Net, c: CallId, st: StreamId, a: Action)
    requires Invariant(cfg, n) && Enabled(n.client, a) && (a == Write(c) || a == WriteError(c))
    requires Framable(cfg.z, Request, n.client.calls[c].req)
    ensures |Encode(n.client.calls[c].req)| < TWO63
    ensures Invariant(cfg, WriteUp(cfg, n.(client := Step(n.client, a)), st, Request, n.client.calls[c].req))
  {
    var m, t := n.client.calls[c].req, Step(n.client, a);
    assert c in t.calls && t.calls[c].sent && t.calls[c].req == m;
    assert Submitted(t.calls, m);
    hide Framable, Encode, EncodeFrame, UpOk, DownOk, Good, PacketAt, Genuine, Step, Invariant, Enabled, Submitted;
    ClientStepKeeps(cfg, n, a);
    PutUp(cfg, n.(client := t), st, Request, m);
  }

  lemma EventKeeps(cfg: Server.Config, n: Net, e: Event)
    requires cfg.z.Lawful() && Invariant(cfg, n) && Can(cfg, n, e)
    ensures Invariant(cfg, Do(cfg, n, e))
  {
    match e
    case Local(a) =>
      hide Step, Enabled, Invariant, Framable, Encode, ReadFrame;
      ClientStepKeeps(cfg, n, a);
    case Send(c, st) =>
      assert c in n.client.calls;
      hide Step, Enabled, Invariant, Framable, Encode, ReadFrame;
      SendKeeps(cfg, n, c, st, Write(c));
    case SendThenFail(c, st) =>
      assert c in n.client.calls;
      hide Step, Enabled, Invariant, Framable, Encode, ReadFrame;
      SendKeeps(cfg, n, c, st, WriteError(c));
    case SendEvent(st, m) =>
      hide Step, Enabled, Invariant, Framable, Encode, ReadFrame;
      PutUp(cfg, n, st, Kind.Event, m.(requestId := 0));
    case ServeTurn(st, ok) =>
      hide Step, Enabled, Invariant, Framable, Encode, ReadFrame;
      ServeKeeps(cfg, n, st, ok);
    case ReadTurn(st) =>
      hide Step, Enabled, Invariant, Framable, Encode, ReadFrame;
      ReadKeeps(cfg, n, st);
  }

  lemma {:induction false} ExecutionKeeps(cfg: Server.Config, n: Net, events: seq<Event>, t: Net)
    requires cfg.z.Lawful() && Invariant(cfg, n) && Executes(cfg, n, events, t)
    ensures Invariant(cfg, t)
    decreases |events|
  {
    hide Do, Can, Invariant;
    if events != [] {
      EventKeeps(cfg, n, events[0]);
      ExecutionKeeps(cfg, Do(cfg, n, events[0]), events[1..], t);
    }
  }

  lemma StartInvariant(cfg: Server.Config)
    ensures Invariant(cfg, START)
  {
    assert Good(INIT);
    assert Upward(cfg, map[], [], []) && Downward(cfg, map[], [], []);
    assert UpOk(cfg, map[], []) && DownOk(cfg, map[], []);
    hide Good, UpOk, DownOk;
  }

  // ---- Theorems ------------------------------------------------------------------------------

  /** In every run each response received is what the registered handler produces for some request that was
      sent, and bears that request's id. */
  lemma ReplyIsGenuine(cfg: Server.Config, events: seq<Event>, t: Net, c: CallId)
    requires cfg.z.Lawful() && Executes(cfg, START, events, t)
    requires c in t.client.calls && Got(t.client.calls[c].phase).Some?
    ensures Genuine(cfg, t.client.calls, Got(t.client.calls[c].phase).value.msg)
  {
    hide Executes, Genuine;
    StartInvariant(cfg);
    ExecutionKeeps(cfg, START, events, t);
    assert PacketAt(t.client, AtCall(c)) == Got(t.client.calls[c].phase);
  }

  /** The handler's reply to the request, under the request's id. */
  ghost predicate OwnReply(cfg: Server.Config, k: Call) {
    Got(k.phase).Some? ==>
      var req, resp := k.req, Got(k.phase).value.msg;
      && req.path in cfg.handlers
      && resp.requestId == req.requestId
      && resp.code == cfg.handlers[req.path](req).code
      && resp.headers == cfg.handlers[req.path](req).headers
      && resp.body == cfg.handlers[req.path](req).body
  }

  /** A genuine response that bears an id only one call has answers that call. */
  lemma GenuineIsOwn(cfg: Server.Config, calls: map<CallId, Call>, c: CallId, r: Message)
    requires Genuine(cfg, calls, r) && c in calls && r.requestId == calls[c].req.requestId
    requires forall d :: d in calls && d != c ==> calls[d].req.requestId != calls[c].req.requestId
    ensures calls[c].sent && calls[c].req.path in cfg.handlers && r == cfg.ResponseTo(calls[c].req)
  {
    var d :| d in calls && calls[d].sent && calls[d].req.path in cfg.handlers && r == cfg.ResponseTo(calls[d].req);
    assert d == c;
  }

  /** End to end, in every run of client, streams and server, whatever is cancelled, closed or fails: a call
      whose id no other call has, and whose channel nothing referred to when it was stored, gets the code,
      headers and body that its handler produces for that very request. */
  lemma EndToEnd(cfg: Server.Config, events: seq<Event>, t: Net, c: CallId)
    requires cfg.z.Lawful() && Executes(cfg, START, events, t) && c in t.client.calls && t.client.calls[c].clean
    requires forall d :: d in t.client.calls && d != c ==>
               t.client.calls[d].req.requestId != t.client.calls[c].req.requestId
    ensures OwnReply(cfg, t.client.calls[c])
  {
    hide Executes, Genuine;
    var k := t.client.calls[c];
    if Got(k.phase).Some? {
      ReplyIsGenuine(cfg, events, t, c);
      StartInvariant(cfg);
      ExecutionKeeps(cfg, START, events, t);
      assert Answered(k);
      GenuineIsOwn(cfg, t.client.calls, c, Got(k.phase).value.msg);
    }
  }

  /** Branch exclusion: every frame the client can read carries one of the two response flags, so the branch
      that takes a table entry for a request channel is never reached. */
  lemma OnlyResponsesComeDown(cfg: Server.Config, events: seq<Event>, t: Net, st: StreamId)
    requires cfg.z.Lawful() && Executes(cfg, START, events, t)
    ensures !t.panicked
    ensures ReadFrame(On(t.down, st)).Frame? ==>
              ReadFrame(On(t.down, st)).flag == RESPONSE_FLAG || ReadFrame(On(t.down, st)).flag == RESPONSE_ZSTD_FLAG
  {
    StartInvariant(cfg);
    ExecutionKeeps(cfg, START, events, t);
    if ReadFrame(On(t.down, st)).Frame? {
      DownwardRead(cfg, t.client.calls, On(t.down, st));
    }
  }
}
