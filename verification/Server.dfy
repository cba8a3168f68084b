/** The server's loop over one stream: read a frame, answer it, ignore it or stop. */
module Server {
  import opened Wire
  import opened Codec
  import opened Framing
  import Encoder

  /** What a handler leaves in the response through `SetCode`, `SetHeaders` and `SetBody`. */
  datatype Reply = Reply(code: nat, headers: seq<Bytes>, body: Bytes)

  datatype Config = Config(z: Zstd, handlers: map<Bytes, Message -> Reply>, eventHandlers: set<Bytes>)
  {
    /** The response sent for a request: the id is copied, the rest is the handler's. */
    function ResponseTo(req: Message): Message
      requires req.path in handlers
    {
      var reply := handlers[req.path](req);
      Message(reply.headers, [], req.requestId, reply.body, reply.code, [])
    }
  }

  datatype Reaction =
    | Answer(request: Message)
    | Handle(event: Message)
    | Ignore
    | Stop

  /** What the switch does with one frame. */
  function React(cfg: Config, flag: Byte, payload: Slice): (r: Reaction)
    ensures r.Answer? ==> r.request.path in cfg.handlers
  {
    match DecodePayload(ServerSide, cfg.z, flag, payload)
    case None => Ignore
    case Some((Request, m)) => if m.path in cfg.handlers then Answer(m) else Stop
    case Some((Event, m)) => if m.path in cfg.eventHandlers then Handle(m) else Ignore
    case Some((Response, _)) => Ignore
  }

  datatype Run = Run(responses: seq<Message>, events: seq<Message>)

  /** On a stream that takes `writes` more writes: an answer that cannot be written ends the loop. */
  function Effective(r: Reaction, writes: nat): Reaction {
    if r.Answer? && writes == 0 then Stop else r
  }

  function Remaining(r: Reaction, writes: nat): nat
    requires r == Effective(r, writes)
  {
    if r.Answer? then writes - 1 else writes
  }

  /** The responses sent and the events handled on a stream that delivers `s` and takes `writes` writes before
      one fails. */
  function Serve(cfg: Config, s: Bytes, writes: nat): Run
    decreases |s|
  {
    match ReadFrame(s)
    case Frame(flag, payload, next) =>
      var reaction := Effective(React(cfg, flag, payload), writes);
      if reaction.Stop? then Run([], [])
      else Prepend(Answers(cfg, reaction), Events(reaction), Serve(cfg, s[next..], Remaining(reaction, writes)))
    case _ => Run([], [])
  }

  function Answers(cfg: Config, r: Reaction): seq<Message>
    requires r.Answer? ==> r.request.path in cfg.handlers
  {
    match r case Answer(m) => [cfg.ResponseTo(m)] case _ => []
  }

  function Events(r: Reaction): seq<Message> {
    match r case Handle(m) => [m] case _ => []
  }

  function Prepend(responses: seq<Message>, events: seq<Message>, r: Run): Run {
    Run(responses + r.responses, events + r.events)
  }

  predicate AnswerFits(cfg: Config, r: Reaction) {
    r.Answer? ==> r.request.path in cfg.handlers && |Encode(cfg.ResponseTo(r.request))| < TWO63
  }

  /** The responses that this stream calls for fit in memory. */
  predicate Sendable(cfg: Config, s: Bytes)
    decreases |s|
  {
    match ReadFrame(s)
    case Frame(flag, payload, next) =>
      var reaction := React(cfg, flag, payload);
      AnswerFits(cfg, reaction) && (reaction.Stop? || Sendable(cfg, s[next..]))
    case _ => true
  }

  // ---- The loop ------------------------------------------------------------------------------

  /** One QUIC stream: the bytes still to arrive, in order, the bytes written so far, and how many writes it
      still takes. */
  class Stream {
    var input: Bytes
    var output: Bytes
    var writes: nat

    /** `io.ReadFull` of `n` bytes; fails if the stream ends first. */
    method ReadFull(buf: array<Byte>, n: nat) returns (ok: bool)
      requires n <= buf.Length
      modifies this`input, buf
      ensures ok == (n <= |old(input)|)
      ensures ok ==> buf[..n] == old(input)[..n] && input == old(input)[n..]
    {
      ok := n <= |input|;
      if ok {
        forall k | 0 <= k < n {
          buf[k] := input[k];
        }
        assert buf[..n] == input[..n];
        input := input[n..];
      }
    }

    method Write(data: Bytes) returns (ok: bool)
      modifies this`output, this`writes
      ensures ok == (old(writes) > 0)
      ensures ok ==> output == old(output) + data && writes == old(writes) - 1
      ensures !ok ==> output == old(output) && writes == old(writes)
    {
      ok := writes > 0;
      if ok {
        output, writes := output + data, writes - 1;
      }
    }
  }

  /** Reads one frame into the reused buffer, which grows when the payload does not fit. */
  method ReadOne(stream: Stream, header: array<Byte>, flagBuff: array<Byte>, reqBuff0: array<Byte>)
      returns (r: Read, reqBuff: array<Byte>)
    requires header.Length == 4 && flagBuff.Length == 1
    requires header != flagBuff && header != reqBuff0 && flagBuff != reqBuff0
    modifies stream`input, header, flagBuff, reqBuff0
    ensures reqBuff == reqBuff0 || fresh(reqBuff)
    ensures r.Frame? <==> ReadFrame(old(stream.input)).Frame?
    ensures r.Frame? ==> r == ReadFrame(old(stream.input)) && stream.input == old(stream.input)[r.next..]
    ensures r.Frame? ==> |r.payload| <= reqBuff.Length && reqBuff[..|r.payload|] == r.payload
  {
    ghost var s := stream.input;
    reqBuff := reqBuff0;
    var ok := stream.ReadFull(header, 4);
    if !ok { return Incomplete, reqBuff; }
    assert header[..4] == header[..];
    var length := FromBigEndian32(header[..]);
    hide FromBigEndian32;
    if length < 1 { return ZeroLength, reqBuff; }
    ok := stream.ReadFull(flagBuff, 1);
    if !ok { return Incomplete, reqBuff; }
    assert flagBuff[0] == flagBuff[..1][0] == s[4];
    var payloadLen := length - 1;
    if reqBuff.Length < payloadLen {
      reqBuff := new Byte[payloadLen](_ => 0);
    }
    ok := stream.ReadFull(reqBuff, payloadLen);
    if !ok { return Incomplete, reqBuff; }
    assert s[4..][1..] == s[5..];
    assert s[5..][..payloadLen] == s[5..4 + length];
    assert s[5..][payloadLen..] == s[4 + length..];
    r := Frame(flagBuff[0], reqBuff[..payloadLen], 4 + length);
  }

  /** Decompresses and parses a payload into a pooled message. */
  method DecodeInto(req: PooledMessage, z: Zstd, flag: Byte, payload: Slice) returns (ok: bool)
    requires req.Value() == EMPTY && KindOfFlag(flag).Some? && !KindOfFlag(flag).value.Response?
    modifies req
    ensures ok <==> DecodePayload(ServerSide, z, flag, payload).Some?
    ensures ok ==> DecodePayload(ServerSide, z, flag, payload).value == (KindOfFlag(flag).value, req.Value())
  {
    var data := MaybeDecompress(ServerSide, z, payload, flag);
    if data.None? { return false; }
    hide Parse;
    var r := req.UnmarshalVT(RequestSchema, data.value);
    ok := r.Ok?;
  }

  /** Encodes into a pooled buffer, writes it, and releases it, written or not. */
  method WriteMessage(z: Zstd, stream: Stream, pool: Encoder.BufferPool, kind: Kind, m: Message) returns (ok: bool)
    requires pool.Valid() && |Encode(m)| < TWO63
    modifies stream`output, stream`writes, pool, pool.free, pool.arrays
    ensures pool.Valid() && fresh(pool.free - old(pool.free)) && fresh(pool.arrays - old(pool.arrays))
    ensures ok == (old(stream.writes) > 0) && stream.writes == old(stream.writes) - if ok then 1 else 0
    ensures stream.output == old(stream.output) + if ok then EncodeFrame(z, kind, m) else []
  {
    hide Encode, EncodeFrame, Packed;
    var b := pool.EncodeMessage(z, kind, m);
    ok := stream.Write(b.Contents());
    pool.Release(b);
  }

  /** Runs the handler on the request and sends its response, if the stream takes it; the request goes back to
      its pool before the response is encoded. */
  method Respond(cfg: Config, stream: Stream, pool: Encoder.BufferPool, req: PooledMessage, resp: PooledMessage)
      returns (ok: bool)
    requires pool.Valid() && req != resp && resp.Value() == EMPTY
    requires req.path in cfg.handlers && |Encode(cfg.ResponseTo(req.Value()))| < TWO63
    modifies stream`output, stream`writes, pool, pool.free, pool.arrays, req, resp
    ensures req.Value() == EMPTY && resp.Value() == EMPTY
    ensures pool.Valid() && fresh(pool.free - old(pool.free)) && fresh(pool.arrays - old(pool.arrays))
    ensures ok == (old(stream.writes) > 0) && stream.writes == old(stream.writes) - if ok then 1 else 0
    ensures stream.output
         == old(stream.output) + if ok then EncodeFrame(cfg.z, Response, cfg.ResponseTo(old(req.Value()))) else []
  {
    hide Encode, EncodeFrame, Encoder.BufferPool.Valid;
    ghost var m := req.Value();
    resp.requestId := req.requestId;
    var reply := cfg.handlers[req.path](req.Value());
    resp.code, resp.headers, resp.body := reply.code, reply.headers, reply.body;
    req.Release();
    assert resp.Value() == cfg.ResponseTo(m);
    ok := WriteMessage(cfg.z, stream, pool, Response, resp.Value());
    resp.Release();
  }

  /** The switch on one frame read. */
  method Dispatch(cfg: Config, stream: Stream, pool: Encoder.BufferPool, req: PooledMessage, resp: PooledMessage,
                  flag: Byte, payload: Slice)
      returns (stop: bool, events: seq<Message>)
    requires pool.Valid() && req != resp && req.Value() == EMPTY && resp.Value() == EMPTY
    requires AnswerFits(cfg, React(cfg, flag, payload))
    modifies stream`output, stream`writes, pool, pool.free, pool.arrays, req, resp
    ensures req.Value() == EMPTY && resp.Value() == EMPTY
    ensures pool.Valid() && fresh(pool.free - old(pool.free)) && fresh(pool.arrays - old(pool.arrays))
    ensures var r := Effective(React(cfg, flag, payload), old(stream.writes));
            && stop == r.Stop?
            && events == Events(r)
            && stream.writes == Remaining(r, old(stream.writes))
            && stream.output == old(stream.output) + AnswerBytes(cfg, r)
  {
    hide Encode, EncodeFrame, Encoder.BufferPool.Valid;
    stop, events := false, [];
    var kind := KindOfFlag(flag);
    if kind == Some(Request) {
      var ok := DecodeInto(req, cfg.z, flag, payload);
      hide DecodePayload;
      if !ok {
        req.Release();
      } else if req.path !in cfg.handlers {
        req.Release();
        stop := true;
      } else {
        ok := Respond(cfg, stream, pool, req, resp);
        stop := !ok;
      }
    } else if kind == Some(Event) {
      var ok := DecodeInto(req, cfg.z, flag, payload);
      hide DecodePayload;
      if ok && req.path in cfg.eventHandlers {
        events := [req.Value()];
      }
      req.Release();
    }
  }

  lemma PrependTwice(a: seq<Message>, b: seq<Message>, c: seq<Message>, d: seq<Message>, r: Run)
    ensures Prepend(a, b, Prepend(c, d, r)) == Prepend(a + c, b + d, r)
  {
    assert a + (c + r.responses) == a + c + r.responses;
    assert b + (d + r.events) == b + d + r.events;
  }

  /** One frame of a run: what it adds, then the run on the rest of the stream. */
  lemma ServeUnfold(cfg: Config, s: Bytes, writes: nat, reaction: Reaction)
    requires ReadFrame(s).Frame? && !reaction.Stop?
    requires reaction == Effective(React(cfg, ReadFrame(s).flag, ReadFrame(s).payload), writes)
    ensures Serve(cfg, s, writes)
         == Prepend(Answers(cfg, reaction), Events(reaction),
                    Serve(cfg, s[ReadFrame(s).next..], Remaining(reaction, writes)))
  {
    hide React, ReadFrame, Prepend;
  }

  lemma SendableNow(cfg: Config, s: Bytes)
    requires Sendable(cfg, s) && ReadFrame(s).Frame?
    ensures var reaction := React(cfg, ReadFrame(s).flag, ReadFrame(s).payload);
            AnswerFits(cfg, reaction) && (!reaction.Stop? ==> Sendable(cfg, s[ReadFrame(s).next..]))
  {
    hide ReadFrame, React, AnswerFits;
  }

  lemma ServeStart(cfg: Config, s: Bytes, writes: nat, output: Bytes)
    ensures Prepend([], [], Serve(cfg, s, writes)) == Serve(cfg, s, writes)
    ensures output + ResponseBytes(cfg.z, []) == output
  {
    hide Serve;
  }

  lemma ServeEnd(cfg: Config, s: Bytes, writes: nat)
    requires ReadFrame(s).Frame? ==> Effective(React(cfg, ReadFrame(s).flag, ReadFrame(s).payload), writes).Stop?
    ensures Serve(cfg, s, writes) == Run([], [])
  {
    hide React, ReadFrame;
  }

  lemma PrependNothing(sent: seq<Message>, events: seq<Message>)
    ensures Prepend(sent, events, Run([], [])) == Run(sent, events)
  {
    assert sent + [] == sent && events + [] == events;
  }

  function AnswerBytes(cfg: Config, r: Reaction): Bytes
    requires AnswerFits(cfg, r)
  {
    match r case Answer(m) => EncodeFrame(cfg.z, Response, cfg.ResponseTo(m)) case _ => []
  }

  lemma SentAnswer(cfg: Config, sent: seq<Message>, r: Reaction)
    requires AnswerFits(cfg, r)
    requires forall x :: x in sent ==> |Encode(x)| < TWO63
    ensures forall x :: x in sent + Answers(cfg, r) ==> |Encode(x)| < TWO63
    ensures ResponseBytes(cfg.z, sent + Answers(cfg, r)) == ResponseBytes(cfg.z, sent) + AnswerBytes(cfg, r)
  {
    hide Encode, EncodeFrame;
    if r.Answer? {
      ResponseBytesAppend(cfg.z, sent, cfg.ResponseTo(r.request));
    } else {
      assert sent + [] == sent;
      assert ResponseBytes(cfg.z, sent) + [] == ResponseBytes(cfg.z, sent);
    }
  }

  /** One turn of the loop: reads a frame and reacts to it; `more` is false when the loop returns. */
  method Turn(cfg: Config, stream: Stream, header: array<Byte>, flagBuff: array<Byte>, reqBuff0: array<Byte>,
              pool: Encoder.BufferPool, req: PooledMessage, resp: PooledMessage)
      returns (more: bool, reqBuff: array<Byte>, events: seq<Message>, ghost reaction: Reaction)
    requires Sendable(cfg, stream.input) && pool.Valid()
    requires req != resp && req.Value() == EMPTY && resp.Value() == EMPTY
    requires header.Length == 4 && flagBuff.Length == 1
    requires header != flagBuff && header != reqBuff0 && flagBuff != reqBuff0
    modifies stream, header, flagBuff, reqBuff0, pool, pool.free, pool.arrays, req, resp
    ensures req.Value() == EMPTY && resp.Value() == EMPTY
    ensures reqBuff == reqBuff0 || fresh(reqBuff)
    ensures pool.Valid() && fresh(pool.free - old(pool.free)) && fresh(pool.arrays - old(pool.arrays))
    ensures AnswerFits(cfg, reaction)
    ensures stream.output == old(stream.output) + AnswerBytes(cfg, reaction)
    ensures !more ==> reaction == Stop && Serve(cfg, old(stream.input), old(stream.writes)) == Run([], [])
    ensures more ==>
              && |stream.input| < |old(stream.input)| && Sendable(cfg, stream.input)
              && events == Events(reaction)
              && Serve(cfg, old(stream.input), old(stream.writes))
                 == Prepend(Answers(cfg, reaction), events, Serve(cfg, stream.input, stream.writes))
  {
    hide Encode, EncodeFrame, React, ReadFrame, Serve, Prepend, Sendable, Encoder.BufferPool.Valid;
    ghost var s, writes := stream.input, stream.writes;
    var r;
    r, reqBuff := ReadOne(stream, header, flagBuff, reqBuff0);
    if !r.Frame? {
      ServeEnd(cfg, s, writes);
      return false, reqBuff, [], Stop;
    }
    reaction := Effective(React(cfg, r.flag, r.payload), writes);
    SendableNow(cfg, s);
    var stop;
    stop, events := Dispatch(cfg, stream, pool, req, resp, r.flag, reqBuff[..|r.payload|]);
    more := !stop;
    if stop {
      ServeEnd(cfg, s, writes);
    } else {
      ServeUnfold(cfg, s, writes, reaction);
    }
  }

  /** The whole loop, with its buffers and pooled messages reused from frame to frame, on a stream whose writes
      may fail at any time. */
  method StreamReadCycle(cfg: Config, stream: Stream) returns (events: seq<Message>)
    requires Sendable(cfg, stream.input)
    modifies stream
    ensures var run := Serve(cfg, old(stream.input), old(stream.writes));
            && events == run.events
            && (forall r :: r in run.responses ==> |Encode(r)| < TWO63)
            && stream.output == old(stream.output) + ResponseBytes(cfg.z, run.responses)
  {
    hide Encode, ResponseBytes, Serve, Prepend, Answers, AnswerBytes, Events, Sendable,
      Encoder.BufferPool.Valid;
    var header, flagBuff, reqBuff := new Byte[4](_ => 0), new Byte[1](_ => 0), new Byte[0];
    var pool := new Encoder.BufferPool();
    var req := new PooledMessage();
    var resp := new PooledMessage();
    ghost var s0, w0, o0, sent := stream.input, stream.writes, stream.output, [];
    events := [];
    ServeStart(cfg, s0, w0, o0);
    var more := true;
    while more
      invariant header.Length == 4 && flagBuff.Length == 1
      invariant header != flagBuff && header != reqBuff && flagBuff != reqBuff
      invariant fresh(header) && fresh(flagBuff) && fresh(reqBuff) && fresh(req) && fresh(resp) && req != resp
      invariant req.Value() == EMPTY && resp.Value() == EMPTY
      invariant fresh(pool) && pool.Valid() && fresh(pool.free) && fresh(pool.arrays)
      invariant Serve(cfg, s0, w0)
             == if more then Prepend(sent, events, Serve(cfg, stream.input, stream.writes)) else Run(sent, events)
      invariant forall r :: r in sent ==> |Encode(r)| < TWO63
      invariant stream.output == o0 + ResponseBytes(cfg.z, sent)
      invariant more ==> Sendable(cfg, stream.input)
      decreases more, |stream.input|
    {
      var handled;
      ghost var reaction;
      more, reqBuff, handled, reaction := Turn(cfg, stream, header, flagBuff, reqBuff, pool, req, resp);
      if !more {
        PrependNothing(sent, events);
        StopSendsNothing(cfg);
      } else {
        PrependTwice(sent, events, Answers(cfg, reaction), handled, Serve(cfg, stream.input, stream.writes));
        SentAnswer(cfg, sent, reaction);
        sent := sent + Answers(cfg, reaction);
        events := events + handled;
      }
    }
  }

  lemma StopSendsNothing(cfg: Config)
    ensures AnswerBytes(cfg, Stop) == []
  {
  }
}
