/** The client's read loop over one stream: the response objects it hands on. */
module ClientReader {
  import opened Wire
  import opened Codec
  import opened Framing
  import Server

  /** `sync.Pool` of messages: `Get` may return any of them or make a new one. */
  class MessagePool {
    var free: set<PooledMessage>

    constructor ()
      ensures Valid() && free == {}
    {
      free := {};
    }

    ghost predicate Valid()
      reads this, free
    {
      forall m :: m in free ==> m.Value() == EMPTY
    }

    method Get() returns (m: PooledMessage)
      requires Valid()
      modifies this
      ensures Valid() && m !in free && m.Value() == EMPTY
      ensures free <= old(free) && (m in old(free) || fresh(m))
    {
      var reuse: bool := *;
      if free != {} && reuse {
        m :| m in free;
        free := free - {m};
      } else {
        m := new PooledMessage();
      }
    }

    method Put(m: PooledMessage)
      requires Valid() && m !in free
      modifies this, m
      ensures Valid() && free == old(free) + {m}
    {
      m.Release();
      free := free + {m};
    }
  }

  /** Decompresses and parses one frame into a message from the pool, which keeps it unless it decoded. */
  method DecodeFrame(z: Zstd, flag: Byte, payload: Slice, pool: MessagePool)
      returns (r: Option<(Kind, PooledMessage)>)
    requires pool.Valid()
    modifies pool, pool.free
    ensures pool.Valid() && fresh(pool.free - old(pool.free))
    ensures r.Some? <==> DecodePayload(ClientSide, z, flag, payload).Some?
    ensures r.Some? ==>
              && r.value.1 !in pool.free && (r.value.1 in old(pool.free) || fresh(r.value.1))
              && DecodePayload(ClientSide, z, flag, payload) == Some((r.value.0, r.value.1.Value()))
  {
    hide Parse;
    var kind := KindOfFlag(flag);
    if kind.None? { return None; }
    var data := MaybeDecompress(ClientSide, z, payload, flag);
    if data.None? { return None; }
    var m := pool.Get();
    var parsed := m.UnmarshalVT(SchemaOf(kind.value), data.value);
    if parsed.Err? {
      pool.Put(m);
      return None;
    }
    return Some((kind.value, m));
  }

  /** The responses among decoded messages. */
  function Responses(kms: seq<(Kind, Message)>): seq<Message> {
    if kms == [] then []
    else (if kms[0].0.Response? then [kms[0].1] else []) + Responses(kms[1..])
  }

  /** The response in a frame, if that is what it holds. */
  function ResponseIn(km: Option<(Kind, Message)>): seq<Message> {
    match km case Some((Response, m)) => [m] case _ => []
  }

  lemma {:induction false} ResponsesUnfold(z: Zstd, s: Bytes)
    ensures var r := ReadFrame(s);
            Responses(ReadMessages(ClientSide, z, s))
            == if r.Frame? then
                 ResponseIn(DecodePayload(ClientSide, z, r.flag, r.payload))
                 + Responses(ReadMessages(ClientSide, z, s[r.next..]))
               else []
  {
    hide ReadFrame, DecodePayload;
    var r := ReadFrame(s);
    if r.Frame? {
      var rest := ReadMessages(ClientSide, z, s[r.next..]);
      assert [] + Responses(rest) == Responses(rest);
      match DecodePayload(ClientSide, z, r.flag, r.payload)
      case Some(km) => assert ([km] + rest)[1..] == rest;
      case None =>
    }
  }

  /** The objects handed on hold these responses, are all different, and are not in the pool. */
  ghost predicate HandedOn(pool: MessagePool, objects: seq<PooledMessage>, responses: seq<Message>)
    reads pool, objects
  {
    && |objects| == |responses|
    && (forall i :: 0 <= i < |objects| ==> objects[i].Value() == responses[i] && objects[i] !in pool.free)
    && (forall i, j :: 0 <= i < j < |objects| ==> objects[i] != objects[j])
  }

  /** One frame: a response object is handed on as it is, any other message goes back to the pool. */
  method Accept(z: Zstd, flag: Byte, payload: Slice, pool: MessagePool, objects: seq<PooledMessage>,
                ghost before: seq<Message>)
      returns (after: seq<PooledMessage>)
    requires pool.Valid() && HandedOn(pool, objects, before)
    modifies pool, pool.free
    ensures pool.Valid() && fresh(pool.free - old(pool.free))
    ensures HandedOn(pool, after, before + ResponseIn(DecodePayload(ClientSide, z, flag, payload)))
    ensures forall m :: m in after ==> m in objects || m in old(pool.free) || fresh(m)
  {
    hide DecodePayload;
    after := objects;
    var r := DecodeFrame(z, flag, payload, pool);
    if r.Some? {
      if r.value.0.Response? {
        after := objects + [r.value.1];
      } else {
        pool.Put(r.value.1);
      }
    }
  }

  /** The loop with its reused buffers and pooled messages hands on exactly the responses on the stream, in
      order, up to the first invalid length; decoding later frames overwrites none of them. */
  method ReadCycle(z: Zstd, stream: Server.Stream, pool: MessagePool)
      returns (objects: seq<PooledMessage>)
    requires pool.Valid()
    modifies stream`input, pool, pool.free
    ensures pool.Valid() && HandedOn(pool, objects, Responses(ReadMessages(ClientSide, z, old(stream.input))))
  {
    hide ReadMessages, ReadFrame, DecodePayload, ResponseIn, Responses;
    var header, flagBuff, reqBuff := new Byte[4](_ => 0), new Byte[1](_ => 0), new Byte[0];
    ghost var s0, free0 := stream.input, pool.free;
    ghost var responses: seq<Message> := [];
    objects := [];
    while true
      invariant header.Length == 4 && flagBuff.Length == 1
      invariant header != flagBuff && header != reqBuff && flagBuff != reqBuff
      invariant fresh(header) && fresh(flagBuff) && fresh(reqBuff)
      invariant pool.Valid() && fresh(pool.free - free0)
      invariant forall m :: m in objects ==> m in free0 || fresh(m)
      invariant HandedOn(pool, objects, responses)
      invariant Responses(ReadMessages(ClientSide, z, s0)) == responses + Responses(ReadMessages(ClientSide, z, stream.input))
      decreases |stream.input|
    {
      ghost var s := stream.input;
      ResponsesUnfold(z, s);
      var r;
      r, reqBuff := Server.ReadOne(stream, header, flagBuff, reqBuff);
      if !r.Frame? { return; }
      objects := Accept(z, r.flag, reqBuff[..|r.payload|], pool, objects, responses);
      ghost var one := ResponseIn(DecodePayload(ClientSide, z, r.flag, r.payload));
      Associate(responses, one, Responses(ReadMessages(ClientSide, z, stream.input)));
      responses := responses + one;
    }
  }

  lemma Associate(a: seq<Message>, b: seq<Message>, c: seq<Message>)
    ensures a + (b + c) == (a + b) + c
  {
  }

  /** What the server writes for `rs` is handed on as exactly `rs`. */
  lemma ServerOutputIsHandedOn(z: Zstd, rs: seq<Message>)
    requires z.Lawful() && forall r :: r in rs ==> |Encode(r)| < TWO63 && Framable(z, Response, r)
    ensures Responses(ReadMessages(ClientSide, z, ResponseBytes(z, rs))) == rs
  {
    hide Framable, Encode, ReadMessages, ConcatFrames;
    StreamRoundTrip(ClientSide, z, Tagged(rs));
    ResponsesOfTagged(rs);
  }

  lemma {:induction false} ResponsesOfTagged(rs: seq<Message>)
    ensures Responses(Tagged(rs)) == rs
  {
    if rs != [] {
      assert Tagged(rs)[1..] == Tagged(rs[1..]);
      ResponsesOfTagged(rs[1..]);
    }
  }
}
