/** Frames: a 4-byte big-endian length that counts the flag and the payload, a flag, and the payload, which
    is the encoded message or its zstd compression. */
module Framing {
  import opened Wire
  import opened Codec
  import opened CodecTheorems

  const REQUEST_FLAG: Byte := 1
  const RESPONSE_FLAG: Byte := 2
  const EVENT_FLAG: Byte := 3
  const REQUEST_ZSTD_FLAG: Byte := 4
  const RESPONSE_ZSTD_FLAG: Byte := 5
  const EVENT_ZSTD_FLAG: Byte := 6

  const HEADER_SIZE: nat := 5
  const COMPRESSION_THRESHOLD: nat := 16384

  /** A byte slice that fits in memory. */
  type Slice = b: Bytes | |b| < TWO63 witness []

  /** The compression library: two arbitrary functions, of which only the inverse law is used. */
  datatype Zstd = Zstd(compress: Slice -> Slice, decompress: Slice -> Option<Slice>)
  {
    ghost predicate Lawful() {
      forall x: Slice :: decompress(compress(x)) == Some(x)
    }
  }

  datatype Kind = Request | Response | Event

  function SchemaOf(kind: Kind): Schema {
    if kind.Response? then ResponseSchema else RequestSchema
  }

  function PlainFlag(kind: Kind): Byte {
    match kind case Request => REQUEST_FLAG case Response => RESPONSE_FLAG case Event => EVENT_FLAG
  }

  function ZstdFlag(kind: Kind): Byte {
    match kind case Request => REQUEST_ZSTD_FLAG case Response => RESPONSE_ZSTD_FLAG case Event => EVENT_ZSTD_FLAG
  }

  function KindOfFlag(flag: Byte): Option<Kind> {
    if flag == REQUEST_FLAG || flag == REQUEST_ZSTD_FLAG then Some(Request)
    else if flag == RESPONSE_FLAG || flag == RESPONSE_ZSTD_FLAG then Some(Response)
    else if flag == EVENT_FLAG || flag == EVENT_ZSTD_FLAG then Some(Event)
    else None
  }

  // ---- Writing -------------------------------------------------------------------------------

  function BigEndian32(v: nat): (s: Bytes)
    requires v < TWO32
    ensures |s| == 4
  {
    [v / 0x100_0000, v / 0x1_0000 % 256, v / 256 % 256, v % 256]
  }

  function FromBigEndian32(s: Bytes): (v: nat)
    requires |s| == 4
    ensures v < TWO32
  {
    var a: int, b: int, c: int, d: int := s[0], s[1], s[2], s[3];
    0x100_0000 * a + 0x1_0000 * b + 256 * c + d
  }

  lemma BigEndianRoundTrip(v: nat)
    requires v < TWO32
    ensures FromBigEndian32(BigEndian32(v)) == v
  {
    var h, t := v / 256, v / 0x1_0000;
    assert t == h / 256 && v / 0x100_0000 == t / 256;
    assert v == 256 * h + v % 256 && h == 256 * t + h % 256 && t == 256 * (t / 256) + t % 256;
  }

  /** A frame as written: the length field is a `uint32` and wraps. */
  function FrameBytes(flag: Byte, payload: Bytes): (s: Bytes)
    ensures |s| == HEADER_SIZE + |payload|
  {
    BigEndian32((1 + |payload|) % TWO32) + [flag] + payload
  }

  /** The flag and payload chosen for a message: compressed only above the threshold and only if shorter. */
  function Packed(z: Zstd, kind: Kind, m: Message): (Byte, Slice)
    requires |Encode(m)| < TWO63
  {
    var p: Slice := Encode(m);
    if |p| > COMPRESSION_THRESHOLD && |z.compress(p)| < |p| then (ZstdFlag(kind), z.compress(p))
    else (PlainFlag(kind), p)
  }

  function EncodeFrame(z: Zstd, kind: Kind, m: Message): Bytes
    requires |Encode(m)| < TWO63
  {
    var (flag, payload) := Packed(z, kind, m);
    FrameBytes(flag, payload)
  }

  /** The messages whose frames carry them: well formed, with a payload whose length plus one is a `uint32`. */
  predicate Framable(z: Zstd, kind: Kind, m: Message)
  {
    WellFormed(SchemaOf(kind), m) && |Packed(z, kind, m).1| < TWO32 - 1
  }

  // ---- Reading -------------------------------------------------------------------------------

  datatype Read =
    | Frame(flag: Byte, payload: Slice, next: nat)  // `next` is the index of the byte after the frame
    | ZeroLength
    | Incomplete

  /** What a read loop gets from the stream `s`: both loops read the length, the flag and the payload. */
  function ReadFrame(s: Bytes): (r: Read)
    ensures r.Frame? ==> HEADER_SIZE <= r.next <= |s| && r.next == HEADER_SIZE + |r.payload|
  {
    if |s| < 4 then Incomplete
    else
      var length := FromBigEndian32(s[..4]);
      if length < 1 then ZeroLength
      else if |s| < 4 + length then Incomplete
      else Frame(s[4], s[5..4 + length], 4 + length)
  }

  datatype Side = ClientSide | ServerSide

  /** The client decompresses all three compressed kinds, the server only the two it expects. */
  function MaybeDecompress(side: Side, z: Zstd, data: Slice, flag: Byte): Option<Slice>
  {
    if flag == REQUEST_ZSTD_FLAG || flag == EVENT_ZSTD_FLAG || (flag == RESPONSE_ZSTD_FLAG && side.ClientSide?) then
      z.decompress(data)
    else Some(data)
  }

  /** The message in a frame, if its flag is known and its payload decompresses and parses. */
  function DecodePayload(side: Side, z: Zstd, flag: Byte, payload: Slice): Option<(Kind, Message)>
  {
    match KindOfFlag(flag)
    case None => None
    case Some(kind) =>
      match MaybeDecompress(side, z, payload, flag)
      case None => None
      case Some(data) =>
        match Parse(SchemaOf(kind), EMPTY, data)
        case Err(_) => None
        case Ok(m) => Some((kind, m))
  }

  /** The messages of all complete frames of a stream, in order, up to the first invalid length. */
  function ReadMessages(side: Side, z: Zstd, s: Bytes): seq<(Kind, Message)>
    decreases |s|
  {
    match ReadFrame(s)
    case Frame(flag, payload, next) =>
      var rest := ReadMessages(side, z, s[next..]);
      (match DecodePayload(side, z, flag, payload)
       case Some(km) => [km] + rest
       case None => rest)
    case _ => []
  }

  // ---- Theorems ------------------------------------------------------------------------------

  /** A frame in front of anything is read back whole. */
  lemma FrameReadBack(flag: Byte, payload: Slice, rest: Bytes)
    requires |payload| < TWO32 - 1
    ensures ReadFrame(FrameBytes(flag, payload) + rest) == Frame(flag, payload, HEADER_SIZE + |payload|)
  {
    var s := FrameBytes(flag, payload) + rest;
    var n := 1 + |payload|;
    assert s[..4] == BigEndian32(n);
    BigEndianRoundTrip(n);
    hide BigEndian32, FromBigEndian32;
    assert s[5..4 + n] == payload;
  }

  /** The 32-bit length field delimits the payload exactly when the length does not wrap. */
  lemma FrameLengthExact(flag: Byte, payload: Slice)
    ensures ReadFrame(FrameBytes(flag, payload)) == Frame(flag, payload, HEADER_SIZE + |payload|)
       <==> |payload| < TWO32 - 1
  {
    var s := FrameBytes(flag, payload);
    if |payload| < TWO32 - 1 {
      FrameReadBack(flag, payload, []);
      assert s + [] == s;
    } else {
      var v := (1 + |payload|) % TWO32;
      assert s[..4] == BigEndian32(v);
      BigEndianRoundTrip(v);
      hide BigEndian32, FromBigEndian32;
    }
  }

  /** Unpacking what was packed, on the side that expects the kind. */
  lemma PackedReadBack(side: Side, z: Zstd, kind: Kind, m: Message)
    requires z.Lawful() && WellFormed(SchemaOf(kind), m) && !(side.ServerSide? && kind.Response?)
    ensures DecodePayload(side, z, Packed(z, kind, m).0, Packed(z, kind, m).1) == Some((kind, m))
  {
    RoundTrip(SchemaOf(kind), m);
    hide Parse, Encode, WellFormed;
    var p: Slice := Encode(m);
    assert z.decompress(z.compress(p)) == Some(p);
  }

  /** One frame at the head of a stream is read as its message, and the reader is aligned after it. */
  lemma EncodeFrameReadBack(side: Side, z: Zstd, kind: Kind, m: Message, rest: Bytes)
    requires z.Lawful() && Framable(z, kind, m) && !(side.ServerSide? && kind.Response?)
    ensures var r := ReadFrame(EncodeFrame(z, kind, m) + rest);
            && r.Frame?
            && r.flag in {PlainFlag(kind), ZstdFlag(kind)}
            && DecodePayload(side, z, r.flag, r.payload) == Some((kind, m))
            && (EncodeFrame(z, kind, m) + rest)[r.next..] == rest
  {
    var (flag, payload) := Packed(z, kind, m);
    FrameReadBack(flag, payload, rest);
    PackedReadBack(side, z, kind, m);
    hide FrameBytes, ReadFrame, DecodePayload, WellFormed, Encode;
  }

  function ConcatFrames(z: Zstd, ms: seq<(Kind, Message)>): Bytes
    requires forall km :: km in ms ==> |Encode(km.1)| < TWO63
  {
    if ms == [] then [] else EncodeFrame(z, ms[0].0, ms[0].1) + ConcatFrames(z, ms[1..])
  }

  lemma {:induction false} ConcatFramesAppend(z: Zstd, ms: seq<(Kind, Message)>, km: (Kind, Message))
    requires |Encode(km.1)| < TWO63 && forall x :: x in ms ==> |Encode(x.1)| < TWO63
    ensures ConcatFrames(z, ms + [km]) == ConcatFrames(z, ms) + EncodeFrame(z, km.0, km.1)
  {
    hide Encode, EncodeFrame;
    if ms == [] {
      assert ms + [km] == [km] && [km][1..] == [];
      assert ConcatFrames(z, [km]) == EncodeFrame(z, km.0, km.1) + [];
      assert EncodeFrame(z, km.0, km.1) + [] == [] + EncodeFrame(z, km.0, km.1);
    } else {
      assert (ms + [km])[0] == ms[0] && (ms + [km])[1..] == ms[1..] + [km];
      ConcatFramesAppend(z, ms[1..], km);
      var a, b, c := EncodeFrame(z, ms[0].0, ms[0].1), ConcatFrames(z, ms[1..]), EncodeFrame(z, km.0, km.1);
      assert a + (b + c) == (a + b) + c;
    }
  }

  /** Responses as a reader of the stream sees them. */
  function Tagged(rs: seq<Message>): (kms: seq<(Kind, Message)>)
    ensures |kms| == |rs| && forall i :: 0 <= i < |rs| ==> kms[i] == (Response, rs[i])
  {
    seq(|rs|, i requires 0 <= i < |rs| => (Response, rs[i]))
  }

  function ResponseBytes(z: Zstd, rs: seq<Message>): Bytes
    requires forall r :: r in rs ==> |Encode(r)| < TWO63
  {
    ConcatFrames(z, Tagged(rs))
  }

  lemma ResponseBytesAppend(z: Zstd, rs: seq<Message>, r: Message)
    requires |Encode(r)| < TWO63 && forall x :: x in rs ==> |Encode(x)| < TWO63
    ensures ResponseBytes(z, rs + [r]) == ResponseBytes(z, rs) + EncodeFrame(z, Response, r)
  {
    hide Encode, EncodeFrame, ConcatFrames;
    ConcatFramesAppend(z, Tagged(rs), (Response, r));
    assert Tagged(rs + [r]) == Tagged(rs) + [(Response, r)];
  }

  ghost predicate AllFramable(side: Side, z: Zstd, ms: seq<(Kind, Message)>)
  {
    forall km :: km in ms ==> Framable(z, km.0, km.1) && !(side.ServerSide? && km.0.Response?)
  }

  lemma FramableSize(z: Zstd, kind: Kind, m: Message)
    requires Framable(z, kind, m)
    ensures |Encode(m)| < TWO63
  {
  }

  lemma FramableSizes(side: Side, z: Zstd, ms: seq<(Kind, Message)>)
    requires AllFramable(side, z, ms)
    ensures forall km :: km in ms ==> |Encode(km.1)| < TWO63
  {
    forall km | km in ms
      ensures |Encode(km.1)| < TWO63
    {
      FramableSize(z, km.0, km.1);
    }
  }

  /** The frame-stream round trip: reading the concatenation of the frames of any list of messages yields
      the same kinds and messages in order, however each one was compressed. */
  lemma {:induction false} StreamRoundTrip(side: Side, z: Zstd, ms: seq<(Kind, Message)>)
    requires z.Lawful() && AllFramable(side, z, ms)
    ensures ReadMessages(side, z, ConcatFrames(z, ms)) == ms
  {
    hide EncodeFrame, ReadFrame, DecodePayload, Encode, WellFormed, Framable;
    FramableSizes(side, z, ms);
    if ms == [] {
      NothingToRead(side, z);
    } else {
      var (kind, m) := ms[0];
      assert ms[0] in ms;
      EncodeFrameReadBack(side, z, kind, m, ConcatFrames(z, ms[1..]));
      StreamRoundTrip(side, z, ms[1..]);
      assert [ms[0]] + ms[1..] == ms;
    }
  }

  lemma NothingToRead(side: Side, z: Zstd)
    ensures ReadMessages(side, z, []) == []
  {
  }
}
