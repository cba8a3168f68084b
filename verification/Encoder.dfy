/** `encodeMessage` over pooled buffers: the frame is built in place in a buffer that an earlier, possibly
    longer, frame may have used. */
module Encoder {
  import opened Wire
  import opened Codec
  import opened Framing

  const DEFAULT_BUF_SIZE: nat := 1024

  /** A slice `data[..len]` with capacity `data.Length`, of which `used` bytes are the frame. */
  class Buffer {
    var data: array<Byte>
    var len: nat
    var used: nat

    constructor (size: nat)
      ensures fresh(data) && len == size == data.Length && used == 0
    {
      data := new Byte[size](_ => 0);
      len, used := size, 0;
    }

    ghost predicate Valid()
      reads this
    {
      used <= len <= data.Length
    }

    function Contents(): Bytes
      requires Valid()
      reads this, data
    {
      data[..used]
    }
  }

  /** `sync.Pool` of buffers: `Get` may return any of them or make a new one. */
  class BufferPool {
    var free: set<Buffer>
    ghost var arrays: set<array<Byte>>  // the bytes of the free buffers

    constructor ()
      ensures Valid() && free == {} && arrays == {}
    {
      free, arrays := {}, {};
    }

    ghost predicate Valid()
      reads this, free
    {
      && arrays == (set b | b in free :: b.data)
      && (forall b :: b in free ==> b.used == 0 && b.len == b.data.Length)
      && (forall b, c :: b in free && c in free && b != c ==> b.data != c.data)
    }

    /** `b` is in use: neither it nor its bytes belong to the pool. */
    ghost predicate InUse(b: Buffer)
      reads this, free, b
    {
      b !in free && b.data !in arrays
    }

    method GetBuffer(size: nat) returns (b: Buffer)
      requires Valid()
      modifies this, free
      ensures Valid() && InUse(b) && b.used == 0 && b.len == size <= b.data.Length
      ensures free <= old(free) && arrays <= old(arrays)
      ensures b in old(free) || fresh(b)
      ensures b.data in old(arrays) || fresh(b.data)
    {
      var reuse: bool := *;
      if free != {} && reuse {
        b :| b in free;
        free, arrays := free - {b}, arrays - {b.data};
      } else {
        b := new Buffer(DEFAULT_BUF_SIZE);
      }
      if b.data.Length < size {
        b := new Buffer(size);
      } else {
        b.len := size;
      }
    }

    /** A buffer is released once: it must not be in the pool already. */
    method Release(b: Buffer)
      requires Valid() && InUse(b) && b.Valid()
      modifies this, b
      ensures Valid() && free == old(free) + {b} && b.data == old(b.data) && arrays == old(arrays) + {b.data}
    {
      b.len := b.data.Length;
      b.used := 0;
      free, arrays := free + {b}, arrays + {b.data};
    }

    /** The frame is a function of the message alone, whatever the pool holds and whichever buffer it
        hands out. */
    method EncodeMessage(z: Zstd, kind: Kind, m: Message) returns (b: Buffer)
      requires Valid() && |Encode(m)| < TWO63
      modifies this, free, arrays
      ensures Valid() && InUse(b) && b.Valid()
      ensures b.Contents() == EncodeFrame(z, kind, m)
      ensures b.used == HEADER_SIZE + |Packed(z, kind, m).1|
      ensures free <= old(free) && arrays <= old(arrays)
      ensures b in old(free) || fresh(b)
      ensures b.data in old(arrays) || fresh(b.data)
    {
      var payloadSize := SizeVT(m);
      b := GetBuffer(HEADER_SIZE + payloadSize);
      b.used := FillFrame(z, kind, m, b.data, b.len);
    }
  }

  /** Builds the frame in the slice `a[..len]`: marshals after the header, compresses in place if that is
      worthwhile, then writes flag and length. */
  method FillFrame(z: Zstd, kind: Kind, m: Message, a: array<Byte>, len: nat) returns (used: nat)
    requires |Encode(m)| < TWO63 && len == HEADER_SIZE + |Encode(m)| <= a.Length
    modifies a
    ensures used == HEADER_SIZE + |Packed(z, kind, m).1| <= len
    ensures a[..used] == EncodeFrame(z, kind, m)
  {
    hide Encode, BigEndian32;
    var n := MarshalToSizedBufferVT(m, a, HEADER_SIZE, len);
    assert a[HEADER_SIZE..len] == Encode(m);
    hide Splice;
    var useFlag, payloadLen := PlainFlag(kind), n;
    if n > COMPRESSION_THRESHOLD {
      var compressed := z.compress(a[HEADER_SIZE..HEADER_SIZE + n]);
      if |compressed| < n {
        payloadLen := |compressed|;
        useFlag := ZstdFlag(kind);
        CopyAt(a, HEADER_SIZE, compressed);
      }
    }
    ghost var payload := a[HEADER_SIZE..HEADER_SIZE + payloadLen];
    assert payload == Packed(z, kind, m).1 && useFlag == Packed(z, kind, m).0;
    PutHeader(a, useFlag, (1 + payloadLen) % TWO32);
    used := HEADER_SIZE + payloadLen;
    assert a[HEADER_SIZE..][..payloadLen] == payload;
    assert a[..used] == a[..HEADER_SIZE] + payload;
    assert EncodeFrame(z, kind, m) == FrameBytes(useFlag, payload);
  }

  method CopyAt(a: array<Byte>, i: nat, s: Bytes)
    requires i + |s| <= a.Length
    modifies a
    ensures a[i..i + |s|] == s
  {
    forall k | 0 <= k < |s| {
      a[i + k] := s[k];
    }
  }

  method PutHeader(a: array<Byte>, flag: Byte, length: nat)
    requires HEADER_SIZE <= a.Length && length < TWO32
    modifies a
    ensures a[..HEADER_SIZE] == BigEndian32(length) + [flag]
    ensures a[HEADER_SIZE..] == old(a[HEADER_SIZE..])
  {
    a[4] := flag;
    var s := BigEndian32(length);
    a[0], a[1], a[2], a[3] := s[0], s[1], s[2], s[3];
  }

  // ---- Whole histories -----------------------------------------------------------------------

  datatype Op =
    | EncodeOp(kind: Kind, m: Message)
    | ReleaseOp(index: nat)

  ghost predicate Sized(ops: seq<Op>)
  {
    forall op :: op in ops && op.EncodeOp? ==> |Encode(op.m)| < TWO63
  }

  /** The buffers in use and the pool share no object and no bytes. */
  ghost predicate Separate(pool: BufferPool, live: seq<Buffer>)
    reads pool, pool.free, live
  {
    && pool.Valid()
    && (forall i :: 0 <= i < |live| ==> live[i].Valid() && pool.InUse(live[i]))
    && (forall i, j :: 0 <= i < j < |live| ==> live[i] != live[j] && live[i].data != live[j].data)
  }

  /** Each buffer in use holds the frame of the message it was encoded from. */
  ghost predicate Carries(z: Zstd, live: seq<Buffer>, sent: seq<(Kind, Message)>)
    reads live, set b | b in live :: b.data
  {
    |sent| == |live| &&
    forall i :: 0 <= i < |live| ==>
      |Encode(sent[i].1)| < TWO63 && live[i].Valid() && live[i].Contents() == EncodeFrame(z, sent[i].0, sent[i].1)
  }

  /** Encoding one more message leaves every frame in use as it is. */
  method EncodeBeside(z: Zstd, pool: BufferPool, live: seq<Buffer>, sent: seq<(Kind, Message)>, kind: Kind, m: Message)
      returns (b: Buffer)
    requires Separate(pool, live) && Carries(z, live, sent) && |Encode(m)| < TWO63
    modifies pool, pool.free, pool.arrays
    ensures Separate(pool, live + [b]) && Carries(z, live + [b], sent + [(kind, m)])
    ensures pool.free <= old(pool.free) && pool.arrays <= old(pool.arrays)
    ensures b in old(pool.free) || fresh(b)
    ensures b.data in old(pool.arrays) || fresh(b.data)
    ensures forall x :: x in live ==> x.data == old(x.data)
  {
    hide Encode, EncodeFrame, Packed;
    b := pool.EncodeMessage(z, kind, m);
  }

  /** Releasing one buffer leaves the other frames in use as they are. */
  method ReleaseAmong(ghost z: Zstd, pool: BufferPool, live: seq<Buffer>, ghost sent: seq<(Kind, Message)>, i: nat)
      returns (rest: seq<Buffer>)
    requires Separate(pool, live) && Carries(z, live, sent) && i < |live|
    modifies pool, live[i]
    ensures rest == live[..i] + live[i + 1..] && forall x :: x in rest ==> x in live
    ensures Separate(pool, rest) && Carries(z, rest, sent[..i] + sent[i + 1..])
    ensures pool.free == old(pool.free) + {live[i]} && pool.arrays == old(pool.arrays) + {live[i].data}
    ensures forall x :: x in live ==> x.data == old(x.data)
  {
    hide Encode, EncodeFrame, Packed;
    rest := live[..i] + live[i + 1..];
    pool.Release(live[i]);
  }

  lemma CarriedFrame(z: Zstd, live: seq<Buffer>, sent: seq<(Kind, Message)>, i: nat)
    requires Carries(z, live, sent) && i < |live|
    ensures |sent| == |live| && |Encode(sent[i].1)| < TWO63
    ensures live[i].Valid() && live[i].Contents() == EncodeFrame(z, sent[i].0, sent[i].1)
  {
  }

  lemma NothingInUse(z: Zstd, pool: BufferPool)
    requires pool.Valid()
    ensures Separate(pool, []) && Carries(z, [], [])
  {
  }

  /** The messages whose frames are in use after a history, in the order they were encoded. */
  function Pending(ops: seq<Op>): seq<(Kind, Message)>
  {
    if ops == [] then []
    else
      var before := Pending(ops[..|ops| - 1]);
      match ops[|ops| - 1]
      case EncodeOp(kind, m) => before + [(kind, m)]
      case ReleaseOp(i) => if i < |before| then before[..i] + before[i + 1..] else before
  }

  /** The messages whose frames have been given back, in order. */
  function Finished(ops: seq<Op>): seq<(Kind, Message)>
  {
    if ops == [] then []
    else
      var n := |ops| - 1;
      var before := Pending(ops[..n]);
      Finished(ops[..n]) + (if ops[n].ReleaseOp? && ops[n].index < |before| then [before[ops[n].index]] else [])
  }

  lemma HistoryStep(ops: seq<Op>, k: nat)
    requires k < |ops|
    ensures ops[..k + 1] != [] && ops[..k + 1][..k] == ops[..k] && ops[..k + 1][k] == ops[k]
  {
  }

  /** `log` holds the frames of `done`, in order. */
  ghost predicate FramesOf(z: Zstd, log: seq<Bytes>, done: seq<(Kind, Message)>)
  {
    && |log| == |done|
    && forall i :: 0 <= i < |log| ==> |Encode(done[i].1)| < TWO63 && log[i] == EncodeFrame(z, done[i].0, done[i].1)
  }

  /** Any history of encodes and releases over one pool, with any number of buffers in use at once: what a
      buffer holds when it is given back is still exactly the frame of the message it was encoded from. */
  method RunHistory(z: Zstd, ops: seq<Op>) returns (log: seq<Bytes>)
    requires Sized(ops)
    ensures FramesOf(z, log, Finished(ops))
  {
    hide Encode, EncodeFrame, Packed, Separate, Carries, BufferPool.Valid, BufferPool.InUse;
    var pool := new BufferPool();
    var live: seq<Buffer>, sent: seq<(Kind, Message)> := [], [];
    log := [];
    NothingInUse(z, pool);
    for k := 0 to |ops|
      invariant fresh(pool) && fresh(pool.free) && fresh(pool.arrays)
      invariant forall b :: b in live ==> fresh(b) && fresh(b.data)
      invariant Separate(pool, live) && Carries(z, live, sent)
      invariant sent == Pending(ops[..k]) && FramesOf(z, log, Finished(ops[..k]))
    {
      HistoryStep(ops, k);
      match ops[k]
      case EncodeOp(kind, m) =>
        var b := EncodeBeside(z, pool, live, sent, kind, m);
        live, sent := live + [b], sent + [(kind, m)];
      case ReleaseOp(i) =>
        CarriedLength(z, live, sent);
        if i < |live| {
          CarriedFrame(z, live, sent, i);
          var b := live[i];
          log := log + [b.Contents()];
          live := ReleaseAmong(z, pool, live, sent, i);
          sent := sent[..i] + sent[i + 1..];
        }
    }
    assert ops[..|ops|] == ops;
  }

  lemma CarriedLength(z: Zstd, live: seq<Buffer>, sent: seq<(Kind, Message)>)
    requires Carries(z, live, sent)
    ensures |sent| == |live|
  {
  }
}
