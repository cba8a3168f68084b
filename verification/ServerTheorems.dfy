/** What a server run sends, for every sequence of complete frames. */
module ServerTheorems {
  import opened Wire
  import opened Codec
  import opened Framing
  import opened Server

  /** What can stand on the stream: a frame, or a length field of zero. */
  datatype Item = Zero | Item(flag: Byte, payload: Slice)

  function ItemBytes(x: Item): Bytes {
    match x case Zero => BigEndian32(0) case Item(flag, payload) => FrameBytes(flag, payload)
  }

  function StreamOf(xs: seq<Item>): Bytes {
    if xs == [] then [] else ItemBytes(xs[0]) + StreamOf(xs[1..])
  }

  ghost predicate Complete(xs: seq<Item>) {
    forall x :: x in xs && x.Item? ==> |x.payload| < TWO32 - 1
  }

  /** The request an item carries, if it is a frame that decodes to one. */
  function RequestIn(cfg: Config, x: Item): Option<Message> {
    match x
    case Zero => None
    case Item(flag, payload) =>
      match DecodePayload(ServerSide, cfg.z, flag, payload)
      case Some((Request, m)) => Some(m)
      case _ => None
  }

  /** The event an item carries, if it is a frame that decodes to one. */
  function EventIn(cfg: Config, x: Item): Option<Message> {
    match x
    case Zero => None
    case Item(flag, payload) =>
      match DecodePayload(ServerSide, cfg.z, flag, payload)
      case Some((Event, m)) => Some(m)
      case _ => None
  }

  /** The items after which the loop returns: a zero length, a request for an unregistered method, or a request
      whose response the stream does not take. Nothing else ends it. */
  predicate Stops(cfg: Config, x: Item, writes: nat) {
    || x.Zero?
    || (RequestIn(cfg, x).Some? && (RequestIn(cfg, x).value.path !in cfg.handlers || writes == 0))
  }

  /** The items that have no response: events with or without a handler, unknown and response flags, payloads
      that do not decompress or parse. */
  predicate Silent(cfg: Config, x: Item) {
    x.Item? && RequestIn(cfg, x).None?
  }

  /** How many writes the stream takes after an item. */
  function WritesAfter(cfg: Config, x: Item, writes: nat): nat
    requires !Stops(cfg, x, writes)
  {
    if RequestIn(cfg, x).Some? then writes - 1 else writes
  }

  /** What the loop's reaction to a frame comes to. */
  lemma ReactionMeans(cfg: Config, x: Item, writes: nat)
    requires x.Item?
    ensures var r := Effective(React(cfg, x.flag, x.payload), writes);
            && (r.Stop? <==> Stops(cfg, x, writes))
            && (!r.Stop? ==> r == React(cfg, x.flag, x.payload) && Remaining(r, writes) == WritesAfter(cfg, x, writes))
            && (!r.Stop? ==> Answers(cfg, r) == AnswerTo(cfg, x) && Events(r) == HandledIn(cfg, x))
  {
    hide DecodePayload;
  }

  /** The response to an item, and the event handled on it. */
  function AnswerTo(cfg: Config, x: Item): seq<Message> {
    match RequestIn(cfg, x)
    case Some(m) => if m.path in cfg.handlers then [cfg.ResponseTo(m)] else []
    case None => []
  }

  function HandledIn(cfg: Config, x: Item): seq<Message> {
    match EventIn(cfg, x)
    case Some(m) => if m.path in cfg.eventHandlers then [m] else []
    case None => []
  }

  /** How many items are read before the loop returns. */
  function StopIndex(cfg: Config, xs: seq<Item>, writes: nat): (n: nat)
    ensures n <= |xs|
  {
    if xs == [] || Stops(cfg, xs[0], writes) then 0
    else 1 + StopIndex(cfg, xs[1..], WritesAfter(cfg, xs[0], writes))
  }

  /** With enough writes the loop stops at the first item that stops it by itself. */
  lemma {:induction false} StopIndexIsFirst(cfg: Config, xs: seq<Item>, writes: nat)
    requires writes >= |xs|
    ensures forall i :: 0 <= i < StopIndex(cfg, xs, writes) ==> !Stops(cfg, xs[i], 1)
    ensures StopIndex(cfg, xs, writes) < |xs| ==> Stops(cfg, xs[StopIndex(cfg, xs, writes)], 1)
  {
    hide RequestIn;
    if xs != [] && !Stops(cfg, xs[0], writes) {
      StopIndexIsFirst(cfg, xs[1..], WritesAfter(cfg, xs[0], writes));
      var n := StopIndex(cfg, xs, writes);
      assert forall i :: 0 < i < n ==> xs[i] == xs[1..][i - 1];
    }
  }

  /** The requests that decode, in order. */
  function Requests(cfg: Config, xs: seq<Item>): seq<Message> {
    if xs == [] then []
    else (if RequestIn(cfg, xs[0]).Some? then [RequestIn(cfg, xs[0]).value] else []) + Requests(cfg, xs[1..])
  }

  lemma ReadItem(x: Item, rest: Bytes)
    requires x.Item? ==> |x.payload| < TWO32 - 1
    ensures x.Zero? ==> ReadFrame(ItemBytes(x) + rest) == ZeroLength
    ensures x.Item? ==> ReadFrame(ItemBytes(x) + rest) == Frame(x.flag, x.payload, |ItemBytes(x)|)
    ensures (ItemBytes(x) + rest)[|ItemBytes(x)|..] == rest
  {
    match x
    case Item(flag, payload) => FrameReadBack(flag, payload, rest);
    case Zero =>
      assert (BigEndian32(0) + rest)[..4] == BigEndian32(0);
      BigEndianRoundTrip(0);
  }

  /** The loop on one item: it returns exactly at an item that stops it; otherwise it answers a request, handles
      an event that has a handler, and goes on. */
  lemma ServeItem(cfg: Config, x: Item, rest: Bytes, writes: nat)
    requires x.Item? ==> |x.payload| < TWO32 - 1
    ensures Stops(cfg, x, writes) ==> Serve(cfg, ItemBytes(x) + rest, writes) == Run([], [])
    ensures !Stops(cfg, x, writes) ==>
              Serve(cfg, ItemBytes(x) + rest, writes)
              == Prepend(AnswerTo(cfg, x), HandledIn(cfg, x), Serve(cfg, rest, WritesAfter(cfg, x, writes)))
  {
    ReadItem(x, rest);
    hide ReadFrame, ItemBytes, React, Prepend, Stops, Answers, Events, AnswerTo, HandledIn, Remaining;
    var s := ItemBytes(x) + rest;
    if x.Zero? {
      ServeEnd(cfg, s, writes);
    } else {
      ReactionMeans(cfg, x, writes);
      if Stops(cfg, x, writes) {
        ServeEnd(cfg, s, writes);
      } else {
        ServeUnfold(cfg, s, writes, React(cfg, x.flag, x.payload));
      }
    }
  }

  /** `rs` answers `qs` one by one: each with its own id and with what its handler replied. */
  ghost predicate AnswersAll(cfg: Config, rs: seq<Message>, qs: seq<Message>) {
    && |rs| == |qs|
    && forall k :: 0 <= k < |qs| ==> IsAnswer(cfg, rs[k], qs[k])
  }

  predicate IsAnswer(cfg: Config, r: Message, q: Message) {
    && q.path in cfg.handlers
    && r.requestId == q.requestId
    && r.code == cfg.handlers[q.path](q).code
    && r.headers == cfg.handlers[q.path](q).headers
    && r.body == cfg.handlers[q.path](q).body
    && r.path == [] && r.unknown == []
  }

  lemma AnswersOneMore(cfg: Config, x: Item, writes: nat, rs: seq<Message>, qs: seq<Message>)
    requires AnswersAll(cfg, rs, qs) && !Stops(cfg, x, writes)
    ensures AnswersAll(cfg, AnswerTo(cfg, x) + rs,
                       (if RequestIn(cfg, x).Some? then [RequestIn(cfg, x).value] else []) + qs)
  {
    hide RequestIn;
  }

  lemma BeforeStop(cfg: Config, xs: seq<Item>, writes: nat)
    requires xs != [] && !Stops(cfg, xs[0], writes)
    ensures var p := xs[..StopIndex(cfg, xs, writes)];
            p != [] && p[0] == xs[0] && p[1..] == xs[1..][..StopIndex(cfg, xs[1..], WritesAfter(cfg, xs[0], writes))]
  {
  }

  /** Every decodable request before the stop is answered, in order, with its own id and with what its
      handler replied, and nothing else is sent. */
  lemma {:induction false} ServerRun(cfg: Config, xs: seq<Item>, writes: nat)
    requires Complete(xs)
    ensures AnswersAll(cfg, Serve(cfg, StreamOf(xs), writes).responses, Requests(cfg, xs[..StopIndex(cfg, xs, writes)]))
  {
    if xs == [] {
      assert Serve(cfg, [], writes) == Run([], []);
    } else {
      var x, rest := xs[0], xs[1..];
      assert x in xs;
      ServeItem(cfg, x, StreamOf(rest), writes);
      if Stops(cfg, x, writes) {
        assert xs[..0] == [];
      } else {
        var left := WritesAfter(cfg, x, writes);
        ServerRun(cfg, rest, left);
        BeforeStop(cfg, xs, writes);
        var p := xs[..StopIndex(cfg, xs, writes)];
        assert Requests(cfg, p)
            == (if RequestIn(cfg, x).Some? then [RequestIn(cfg, x).value] else []) + Requests(cfg, p[1..]);
        hide Serve, ItemBytes, StopIndex, Requests, RequestIn, AnswersAll, AnswerTo;
        AnswersOneMore(cfg, x, writes, Serve(cfg, StreamOf(rest), left).responses,
                       Requests(cfg, rest[..StopIndex(cfg, rest, left)]));
      }
    }
  }

  /** The events that decode and have a handler, in order. */
  function Handled(cfg: Config, xs: seq<Item>): seq<Message> {
    if xs == [] then [] else HandledIn(cfg, xs[0]) + Handled(cfg, xs[1..])
  }

  /** Every decodable event before the stop whose method has a handler is handled, in order, and no other. */
  lemma {:induction false} EventRun(cfg: Config, xs: seq<Item>, writes: nat)
    requires Complete(xs)
    ensures Serve(cfg, StreamOf(xs), writes).events == Handled(cfg, xs[..StopIndex(cfg, xs, writes)])
  {
    if xs == [] {
      assert Serve(cfg, [], writes) == Run([], []);
    } else {
      var x, rest := xs[0], xs[1..];
      assert x in xs;
      ServeItem(cfg, x, StreamOf(rest), writes);
      if Stops(cfg, x, writes) {
        assert xs[..0] == [];
      } else {
        EventRun(cfg, rest, WritesAfter(cfg, x, writes));
        BeforeStop(cfg, xs, writes);
        var p := xs[..StopIndex(cfg, xs, writes)];
        assert Handled(cfg, p) == HandledIn(cfg, x) + Handled(cfg, p[1..]);
        hide Serve, ItemBytes, StopIndex, Handled, HandledIn;
      }
    }
  }

  /** Such an item sends nothing, and what follows it is read as if it were not there. */
  lemma {:induction false} SilentItemIsInvisible(cfg: Config, a: seq<Item>, x: Item, b: seq<Item>, writes: nat)
    requires Complete(a + [x] + b) && Silent(cfg, x)
    ensures Serve(cfg, StreamOf(a + [x] + b), writes).responses == Serve(cfg, StreamOf(a + b), writes).responses
  {
    if a == [] {
      assert a + [x] + b == [x] + b && a + b == b && ([x] + b)[1..] == b;
      assert x in a + [x] + b;
      ServeItem(cfg, x, StreamOf(b), writes);
      hide Serve, ItemBytes;
      assert [] + Serve(cfg, StreamOf(b), writes).responses == Serve(cfg, StreamOf(b), writes).responses;
    } else {
      var c := a + [x] + b;
      var y, t := a[0], a[1..];
      assert c[0] == y && c[1..] == t + [x] + b && (a + b)[0] == y && (a + b)[1..] == t + b;
      assert y in c;
      assert forall z :: z in t + [x] + b ==> z in c;
      ServeItem(cfg, y, StreamOf(t + [x] + b), writes);
      ServeItem(cfg, y, StreamOf(t + b), writes);
      hide Serve, ItemBytes, RequestIn, AnswerTo, HandledIn;
      if !Stops(cfg, y, writes) {
        SilentItemIsInvisible(cfg, t, x, b, WritesAfter(cfg, y, writes));
      }
    }
  }

  /** A client reading the server's output gets exactly the responses, and only response frames. */
  lemma OutputReadBack(z: Zstd, rs: seq<Message>)
    requires z.Lawful() && forall r :: r in rs ==> |Encode(r)| < TWO63 && Framable(z, Response, r)
    ensures ReadMessages(ClientSide, z, ResponseBytes(z, rs)) == Tagged(rs)
  {
    hide Framable, Encode;
    StreamRoundTrip(ClientSide, z, Tagged(rs));
  }
}
