/** The generated codec of `Request` and `Response`. The two generated parsers and writers differ only in
    field 5, which `Response` reads as its code and `Request` keeps as an unknown field, so one codec
    takes the message schema as a parameter. */
module Codec {
  import opened Wire

  datatype Schema = RequestSchema | ResponseSchema

  datatype Message = Message(
    headers: seq<Bytes>, path: Bytes, requestId: nat, body: Bytes, code: nat, unknown: Bytes)

  const EMPTY: Message := Message([], [], 0, [], 0, [])

  // ---- Writing -------------------------------------------------------------------------------

  const TAG_HEADERS: Byte := 0x0a
  const TAG_METHOD: Byte := 0x12
  const TAG_ID: Byte := 0x18
  const TAG_BODY: Byte := 0x22
  const TAG_CODE: Byte := 0x28

  function BytesField(tag: Byte, b: Bytes): Bytes
  {
    [tag] + EncVarint(|b|) + b
  }

  function OptionalBytes(tag: Byte, b: Bytes): Bytes
  {
    if b == [] then [] else BytesField(tag, b)
  }

  function OptionalVarint(tag: Byte, v: nat): Bytes
  {
    if v == 0 then [] else [tag] + EncVarint(v)
  }

  function EncodeHeaders(hs: seq<Bytes>): Bytes
  {
    if hs == [] then [] else BytesField(TAG_HEADERS, hs[0]) + EncodeHeaders(hs[1..])
  }

  /** The bytes of a message, fields in number order, unknown fields last. */
  function Encode(m: Message): Bytes
  {
    EncodeHeaders(m.headers)
    + (OptionalBytes(TAG_METHOD, m.path)
    + (OptionalVarint(TAG_ID, m.requestId)
    + (OptionalBytes(TAG_BODY, m.body)
    + (OptionalVarint(TAG_CODE, m.code)
    + m.unknown))))
  }

  // ---- Reading -------------------------------------------------------------------------------

  datatype Record =
    | Header(bytes: Bytes)
    | Path(bytes: Bytes)
    | Id(value: nat)
    | Body(bytes: Bytes)
    | Code(value: nat)
    | Unknown(bytes: Bytes)

  /** A length-delimited payload at `i`, with the checks on 64-bit lengths and indices. */
  function Delimited(wireType: nat, d: Bytes, i: nat): (r: Result<(Bytes, nat)>)
    requires i <= |d| < TWO63
    ensures r.Ok? ==> i < r.value.1 <= |d|
  {
    if wireType != 2 then Err(WrongWireType)
    else
      match Uvarint(d, i, 64)
      case Err(e) => Err(e)
      case Ok((u, j)) =>
        var byteLen := Int64(u);
        if byteLen < 0 then Err(InvalidLength)
        else
          match Advance(j, byteLen)
          case Err(e) => Err(e)
          case Ok(post) => if post > |d| then Err(UnexpectedEOF) else Ok((d[j..post], post))
  }

  function Scalar(wireType: nat, d: Bytes, i: nat, width: nat): (r: Result<(nat, nat)>)
    requires i <= |d|
    ensures r.Ok? ==> i < r.value.1 <= |d|
  {
    if wireType != 0 then Err(WrongWireType) else Uvarint(d, i, width)
  }

  /** The tag at `i`: field number, wire type and the index after it. */
  function Tag(d: Bytes, i: nat): (r: Result<(int, nat, nat)>)
    requires i < |d|
    ensures r.Ok? ==> i < r.value.2 <= |d| && r.value.0 > 0
  {
    match Uvarint(d, i, 64)
    case Err(e) => Err(e)
    case Ok((wire, j)) =>
      var fieldNum, wireType := Int32(wire / 8), wire % 8;
      if wireType == 4 then Err(EndGroupForNonGroup)
      else if fieldNum <= 0 then Err(IllegalTag)
      else Ok((fieldNum, wireType, j))
  }

  /** An unknown record: the bytes from its tag at `i` on that `Skip` measures. */
  function UnknownAt(d: Bytes, i: nat): (r: Result<(Record, nat)>)
    requires i < |d| < TWO63
    ensures r.Ok? ==> i < r.value.1 <= |d| && r.value.0.Unknown?
  {
    match SkipFrom(d[i..], 0, 0)
    case Err(e) => Err(e)
    case Ok(skippy) =>
      if Int64(i + skippy) < 0 then Err(InvalidLength)
      else if i + skippy > |d| then Err(UnexpectedEOF)
      else Ok((Unknown(d[i..i + skippy]), i + skippy))
  }

  /** The record that starts at `i` and the index after it. */
  function NextRecord(schema: Schema, d: Bytes, i: nat): (r: Result<(Record, nat)>)
    requires i < |d| < TWO63
    ensures r.Ok? ==> i < r.value.1 <= |d|
  {
    match Tag(d, i)
    case Err(e) => Err(e)
    case Ok((fieldNum, wireType, j)) =>
      if fieldNum == 1 then
        (match Delimited(wireType, d, j) case Err(e) => Err(e) case Ok((b, k)) => Ok((Header(b), k)))
      else if fieldNum == 2 then
        (match Delimited(wireType, d, j) case Err(e) => Err(e) case Ok((b, k)) => Ok((Path(b), k)))
      else if fieldNum == 3 then
        (match Scalar(wireType, d, j, 64) case Err(e) => Err(e) case Ok((v, k)) => Ok((Id(v), k)))
      else if fieldNum == 4 then
        (match Delimited(wireType, d, j) case Err(e) => Err(e) case Ok((b, k)) => Ok((Body(b), k)))
      else if fieldNum == 5 && schema.ResponseSchema? then
        (match Scalar(wireType, d, j, 32) case Err(e) => Err(e) case Ok((v, k)) => Ok((Code(v), k)))
      else UnknownAt(d, i)
  }

  /** What one record does to the message: headers and unknown fields accumulate, the rest is overwritten. */
  function Apply(m: Message, r: Record): Message
  {
    match r
    case Header(b) => m.(headers := m.headers + [b])
    case Path(b) => m.(path := b)
    case Id(v) => m.(requestId := v)
    case Body(b) => m.(body := b)
    case Code(v) => m.(code := v)
    case Unknown(b) => m.(unknown := m.unknown + b)
  }

  /** Parsing from index `i` on into a message that already holds `m`. */
  function ParseFrom(schema: Schema, m: Message, d: Bytes, i: nat): Result<Message>
    requires i <= |d| < TWO63
    decreases |d| - i
  {
    if i == |d| then Ok(m)
    else
      match NextRecord(schema, d, i)
      case Err(e) => Err(e)
      case Ok((r, j)) => ParseFrom(schema, Apply(m, r), d, j)
  }

  function Parse(schema: Schema, m: Message, d: Bytes): Result<Message>
    requires |d| < TWO63
  {
    ParseFrom(schema, m, d, 0)
  }

  // ---- The imperative codec ------------------------------------------------------------------

  method ReadTag(dAtA: Bytes, start: nat) returns (r: Result<(int, nat, nat)>)
    requires start < |dAtA|
    ensures r == Tag(dAtA, start)
  {
    var tag := ReadVarint(dAtA, start, 64);
    if tag.Err? { return Err(tag.error); }
    var (wire, iNdEx) := tag.value;
    var fieldNum, wireType := Int32(wire / 8), wire % 8;
    if wireType == 4 { return Err(EndGroupForNonGroup); }
    if fieldNum <= 0 { return Err(IllegalTag); }
    return Ok((fieldNum, wireType, iNdEx));
  }

  /** The code shared by the length-delimited fields, with explicit 64-bit arithmetic. */
  method ReadDelimited(wireType: nat, dAtA: Bytes, start: nat) returns (r: Result<(Bytes, nat)>)
    requires start <= |dAtA| < TWO63
    ensures r == Delimited(wireType, dAtA, start)
  {
    hide Uvarint;
    if wireType != 2 { return Err(WrongWireType); }
    var len := ReadVarint(dAtA, start, 64);
    if len.Err? { return Err(len.error); }
    var iNdEx := len.value.1;
    var byteLen := Int64(len.value.0);
    if byteLen < 0 { return Err(InvalidLength); }
    var postIndex := Int64(iNdEx + byteLen);
    if postIndex < 0 { return Err(InvalidLength); }
    if postIndex > |dAtA| { return Err(UnexpectedEOF); }
    return Ok((dAtA[iNdEx..postIndex], postIndex));
  }

  /** A message object as the pools hand it out: its fields are overwritten in place. */
  class PooledMessage {
    var headers: seq<Bytes>
    var path: Bytes
    var requestId: nat
    var body: Bytes
    var code: nat
    var unknown: Bytes

    constructor ()
      ensures Value() == EMPTY
    {
      headers, path, requestId, body, code, unknown := [], [], 0, [], 0, [];
    }

    function Value(): Message
      reads this
    {
      Message(headers, path, requestId, body, code, unknown)
    }

    /** Truncates the slices it keeps and resets the rest, before the object goes back to its pool. */
    method Release()
      modifies this
      ensures Value() == EMPTY
    {
      var h, p, b := headers[..0], path[..0], body[..0];
      headers, path, requestId, body, code, unknown := [], [], 0, [], 0, [];
      headers, path, body := h, p, b;
    }

    /** One turn of the parser's loop: reads the record at `start` into the fields. */
    method UnmarshalField(schema: Schema, dAtA: Bytes, start: nat) returns (r: Result<nat>)
      requires start < |dAtA| < TWO63
      modifies this
      ensures match NextRecord(schema, dAtA, start)
              case Ok((record, j)) => r == Ok(j) && Value() == Apply(old(Value()), record)
              case Err(e) => r == Err(e)
    {
      hide Tag, Delimited, Uvarint, UnknownAt;
      var tag := ReadTag(dAtA, start);
      if tag.Err? { return Err(tag.error); }
      var (fieldNum, wireType, iNdEx) := tag.value;
      if fieldNum == 1 || fieldNum == 2 || fieldNum == 4 {
        var field := ReadDelimited(wireType, dAtA, iNdEx);
        if field.Err? { return Err(field.error); }
        var (data, postIndex) := field.value;
        if fieldNum == 1 {
          headers := headers + [data];
        } else if fieldNum == 2 {
          path := data;
        } else {
          body := data;
        }
        return Ok(postIndex);
      } else if fieldNum == 3 {
        if wireType != 0 { return Err(WrongWireType); }
        requestId := 0;
        var v := ReadVarint(dAtA, iNdEx, 64);
        if v.Err? { return Err(v.error); }
        requestId := v.value.0;
        return Ok(v.value.1);
      } else if fieldNum == 5 && schema.ResponseSchema? {
        if wireType != 0 { return Err(WrongWireType); }
        code := 0;
        var v := ReadVarint(dAtA, iNdEx, 32);
        if v.Err? { return Err(v.error); }
        code := v.value.0;
        return Ok(v.value.1);
      } else {
        var raw := UnknownAt(dAtA, start);
        if raw.Err? { return Err(raw.error); }
        unknown := unknown + raw.value.0.bytes;
        return Ok(raw.value.1);
      }
    }

    method UnmarshalVT(schema: Schema, dAtA: Bytes) returns (r: Result<()>)
      requires |dAtA| < TWO63
      modifies this
      ensures match Parse(schema, old(Value()), dAtA)
              case Ok(m) => r == Ok(()) && Value() == m
              case Err(e) => r == Err(e)
    {
      var iNdEx := 0;
      while iNdEx < |dAtA|
        invariant iNdEx <= |dAtA|
        invariant ParseFrom(schema, old(Value()), dAtA, 0) == ParseFrom(schema, Value(), dAtA, iNdEx)
      {
        var next := UnmarshalField(schema, dAtA, iNdEx);
        if next.Err? { return Err(next.error); }
        iNdEx := next.value;
      }
      return Ok(());
    }
  }

  /** `SizeVT`: the sizes are added up field by field without writing anything. */
  method SizeVT(m: Message) returns (n: nat)
    ensures n == |Encode(m)|
  {
    hide EncVarint, VarintSize;
    n := 0;
    for i := 0 to |m.headers|
      invariant n + |EncodeHeaders(m.headers[i..])| == |EncodeHeaders(m.headers)|
    {
      var l := |m.headers[i]|;
      EncVarintSize(l);
      assert m.headers[i..][1..] == m.headers[i + 1..];
      n := n + 1 + l + VarintSize(l);
    }
    EncVarintSize(|m.path|);
    EncVarintSize(m.requestId);
    EncVarintSize(|m.body|);
    EncVarintSize(m.code);
    if |m.path| > 0 { n := n + 1 + |m.path| + VarintSize(|m.path|); }
    if m.requestId != 0 { n := n + 1 + VarintSize(m.requestId); }
    if |m.body| > 0 { n := n + 1 + |m.body| + VarintSize(|m.body|); }
    if m.code != 0 { n := n + 1 + VarintSize(m.code); }
    n := n + |m.unknown|;
  }

  /** `a` with the part between `i` and `hi` replaced by `s`. */
  function Splice(a: Bytes, i: nat, s: Bytes, hi: nat): Bytes
    requires i <= hi <= |a|
  {
    a[..i] + s + a[hi..]
  }

  lemma SpliceBefore(a: Bytes, i: nat, f: Bytes, mid: nat, s: Bytes, hi: nat)
    requires i <= mid <= hi <= |a| && mid + |s| == hi
    ensures Splice(Splice(a, mid, s, hi), i, f, mid) == Splice(a, i, f + s, hi)
  {
    var b := Splice(a, mid, s, hi);
    assert b[..i] == a[..i];
    assert b[mid..] == s + a[hi..];
  }

  /** `copy` of `b` into the bytes just before `i`. */
  method CopyBefore(a: array<Byte>, i: nat, b: Bytes) returns (start: nat)
    requires |b| <= i <= a.Length
    modifies a
    ensures start + |b| == i && a[..] == Splice(old(a[..]), start, b, i)
  {
    start := i - |b|;
    forall k | 0 <= k < |b| {
      a[start + k] := b[k];
    }
  }

  method PutVarintField(a: array<Byte>, i: nat, tag: Byte, v: nat) returns (start: nat)
    requires |[tag] + EncVarint(v)| <= i <= a.Length
    modifies a
    ensures start + |[tag] + EncVarint(v)| == i && a[..] == Splice(old(a[..]), start, [tag] + EncVarint(v), i)
  {
    EncVarintSize(v);
    start := EncodeVarint(a, i, v);
    ghost var b := a[..];
    assert b == Splice(old(a[..]), start, EncVarint(v), i) by {
      assert b == b[..start] + b[start..i] + b[i..];
    }
    start := start - 1;
    a[start] := tag;
    assert a[..] == Splice(b, start, [tag], start + 1);
    SpliceBefore(old(a[..]), start, [tag], start + 1, EncVarint(v), i);
  }

  method PutBytesField(a: array<Byte>, i: nat, tag: Byte, b: Bytes) returns (start: nat)
    requires |BytesField(tag, b)| <= i <= a.Length
    modifies a
    ensures start + |BytesField(tag, b)| == i && a[..] == Splice(old(a[..]), start, BytesField(tag, b), i)
  {
    var mid := CopyBefore(a, i, b);
    start := PutVarintField(a, mid, tag, |b|);
    SpliceBefore(old(a[..]), start, [tag] + EncVarint(|b|), mid, b, i);
  }

  /** Puts an optional field in front of the bytes `s` already written up to `hi`; `a0` is the slice
      before anything was written. The three writers below share this form. */
  method PutOptionalBytes(a: array<Byte>, i: nat, tag: Byte, b: Bytes, ghost a0: Bytes, ghost s: Bytes, ghost hi: nat)
      returns (start: nat)
    requires |OptionalBytes(tag, b)| <= i && i + |s| == hi <= a.Length == |a0| && a[..] == Splice(a0, i, s, hi)
    modifies a
    ensures start + |OptionalBytes(tag, b)| == i && a[..] == Splice(a0, start, OptionalBytes(tag, b) + s, hi)
  {
    start := i;
    if |b| > 0 {
      start := PutBytesField(a, i, tag, b);
      SpliceBefore(a0, start, BytesField(tag, b), i, s, hi);
    } else {
      assert OptionalBytes(tag, b) + s == s;
    }
  }

  method PutOptionalVarint(a: array<Byte>, i: nat, tag: Byte, v: nat, ghost a0: Bytes, ghost s: Bytes, ghost hi: nat)
      returns (start: nat)
    requires |OptionalVarint(tag, v)| <= i && i + |s| == hi <= a.Length == |a0| && a[..] == Splice(a0, i, s, hi)
    modifies a
    ensures start + |OptionalVarint(tag, v)| == i && a[..] == Splice(a0, start, OptionalVarint(tag, v) + s, hi)
  {
    start := i;
    if v != 0 {
      start := PutVarintField(a, i, tag, v);
      SpliceBefore(a0, start, [tag] + EncVarint(v), i, s, hi);
    } else {
      assert OptionalVarint(tag, v) + s == s;
    }
  }

  /** The descending loop over the headers. */
  method PutHeaders(a: array<Byte>, i: nat, hs: seq<Bytes>, ghost a0: Bytes, ghost s: Bytes, ghost hi: nat)
      returns (start: nat)
    requires |EncodeHeaders(hs)| <= i && i + |s| == hi <= a.Length == |a0| && a[..] == Splice(a0, i, s, hi)
    modifies a
    ensures start + |EncodeHeaders(hs)| == i && a[..] == Splice(a0, start, EncodeHeaders(hs) + s, hi)
  {
    start := i;
    var k := |hs|;
    assert hs[k..] == [] && hs[..k] == hs;
    assert EncodeHeaders([]) + s == s;
    while k > 0
      invariant 0 <= k <= |hs|
      invariant start + |EncodeHeaders(hs[k..])| == i
      invariant |EncodeHeaders(hs[..k])| + |EncodeHeaders(hs[k..])| == |EncodeHeaders(hs)|
      invariant a[..] == Splice(a0, start, EncodeHeaders(hs[k..]) + s, hi)
    {
      k := k - 1;
      ghost var mid, t := start, EncodeHeaders(hs[k + 1..]) + s;
      assert hs[k..][0] == hs[k] && hs[k..][1..] == hs[k + 1..];
      EncodeHeadersSplit(hs, k);
      start := PutBytesField(a, start, TAG_HEADERS, hs[k]);
      SpliceBefore(a0, start, BytesField(TAG_HEADERS, hs[k]), mid, t, hi);
      assert BytesField(TAG_HEADERS, hs[k]) + t == EncodeHeaders(hs[k..]) + s;
    }
    assert hs[0..] == hs;
  }

  /** Writes the message into the slice `a[lo..hi]` from its end backwards. A slice shorter than the
      message makes the original index out of range, hence the precondition. */
  method MarshalToSizedBufferVT(m: Message, a: array<Byte>, lo: nat, hi: nat) returns (n: nat)
    requires lo <= hi <= a.Length && |Encode(m)| <= hi - lo
    modifies a
    ensures n == |Encode(m)| && a[..] == Splice(old(a[..]), hi - n, Encode(m), hi)
  {
    ghost var a0, s := a[..], m.unknown;
    var i := CopyBefore(a, hi, m.unknown);
    i := PutOptionalVarint(a, i, TAG_CODE, m.code, a0, s, hi);
    s := OptionalVarint(TAG_CODE, m.code) + s;
    i := PutOptionalBytes(a, i, TAG_BODY, m.body, a0, s, hi);
    s := OptionalBytes(TAG_BODY, m.body) + s;
    i := PutOptionalVarint(a, i, TAG_ID, m.requestId, a0, s, hi);
    s := OptionalVarint(TAG_ID, m.requestId) + s;
    i := PutOptionalBytes(a, i, TAG_METHOD, m.path, a0, s, hi);
    s := OptionalBytes(TAG_METHOD, m.path) + s;
    i := PutHeaders(a, i, m.headers, a0, s, hi);
    n := hi - i;
  }

  /** `MarshalVT`: a buffer of the computed size is filled from its last byte to its first. */
  method MarshalVT(m: Message) returns (d: Bytes)
    ensures d == Encode(m)
  {
    hide Encode;
    var size := SizeVT(m);
    var a := new Byte[size](_ => 0);
    var n := MarshalToSizedBufferVT(m, a, 0, size);
    assert a[..] == Encode(m);
    d := a[..n];
  }

  lemma {:induction false} EncodeHeadersConcat(a: seq<Bytes>, b: seq<Bytes>)
    ensures EncodeHeaders(a + b) == EncodeHeaders(a) + EncodeHeaders(b)
  {
    if a == [] {
      assert a + b == b;
    } else {
      assert (a + b)[1..] == a[1..] + b;
      EncodeHeadersConcat(a[1..], b);
    }
  }

  lemma EncodeHeadersSplit(hs: seq<Bytes>, k: nat)
    requires k <= |hs|
    ensures |EncodeHeaders(hs[..k])| + |EncodeHeaders(hs[k..])| == |EncodeHeaders(hs)|
  {
    EncodeHeadersConcat(hs[..k], hs[k..]);
    assert hs[..k] + hs[k..] == hs;
  }
}
