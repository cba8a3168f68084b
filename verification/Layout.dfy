/** The bytes themselves, in the numbers of the schema and of the frame format: what every accepted record, every
    encoded field, every skipped record and every frame looks like, without reference to the functions that read and
    write them. */
module Layout {
  import opened Wire
  import opened Codec
  import opened Framing

  // ---- Integers ------------------------------------------------------------------------------

  /** Conversions to `int64` and `int32` keep the value modulo 2^64 and 2^32. */
  lemma Truncations(x: int)
    ensures (x - Int64(x)) % 0x1_0000_0000_0000_0000 == 0 && -0x8000_0000_0000_0000 <= Int64(x) < 0x8000_0000_0000_0000
    ensures (x - Int32(x)) % 0x1_0000_0000 == 0 && -0x8000_0000 <= Int32(x) < 0x8000_0000
  {
    assert x == TWO64 * (x / TWO64) + x % TWO64 && x == TWO32 * (x / TWO32) + x % TWO32;
    var q, r := if x % TWO64 < TWO63 then x / TWO64 else x / TWO64 + 1, if x % TWO32 < TWO31 then x / TWO32 else x / TWO32 + 1;
    ModUnique(x - Int64(x), TWO64, q, 0);
    ModUnique(x - Int32(x), TWO32, r, 0);
  }

  /** The varint at `i` ends with the first byte below 128; ten bytes without one are an overflow, fewer at the end
      of the data a truncation. */
  lemma VarintMeans(d: Bytes, i: nat)
    requires i <= |d|
    ensures match VarintEnd(d, i, 0)
            case Ok(j) => i < j <= |d| && j - i <= 10 && d[j - 1] < 128 && forall x :: i <= x < j - 1 ==> d[x] >= 128
            case Err(e) =>
              && (e == IntOverflow || e == UnexpectedEOF)
              && (e == IntOverflow ==> i + 10 <= |d| && forall x :: i <= x < i + 10 ==> d[x] >= 128)
              && (e == UnexpectedEOF ==> |d| < i + 10 && forall x :: i <= x < |d| ==> d[x] >= 128)
  {
    VarintMeansFrom(d, i, 0);
  }

  lemma {:induction false} VarintMeansFrom(d: Bytes, i: nat, k: nat)
    requires i <= |d| && k <= 10
    ensures match VarintEnd(d, i, k)
            case Ok(j) => i < j <= |d| && j - i + k <= 10 && d[j - 1] < 128 && forall x :: i <= x < j - 1 ==> d[x] >= 128
            case Err(e) =>
              && (e == IntOverflow || e == UnexpectedEOF)
              && (e == IntOverflow ==> i + (10 - k) <= |d| && forall x :: i <= x < i + (10 - k) ==> d[x] >= 128)
              && (e == UnexpectedEOF ==> |d| < i + (10 - k) && forall x :: i <= x < |d| ==> d[x] >= 128)
    decreases 10 - k
  {
    if k < 10 && i < |d| && d[i] >= 128 {
      VarintMeansFrom(d, i + 1, k + 1);
    }
  }

  // ---- Records -------------------------------------------------------------------------------

  /** Every accepted record begins with a tag that carries its number and wire type: headers 1, method 2, id 3,
      body 4, code 5 in a response; anything else is unknown. */
  lemma RecordTag(schema: Schema, d: Bytes, i: nat)
    requires i < |d| < TWO63 && NextRecord(schema, d, i).Ok?
    ensures Uvarint(d, i, 64).Ok?
    ensures var wire := Uvarint(d, i, 64).value.0;
            var number, wireType := Int32(wire / 8), wire % 8;
            match NextRecord(schema, d, i).value.0
            case Header(_) => number == 1 && wireType == 2
            case Path(_) => number == 2 && wireType == 2
            case Id(_) => number == 3 && wireType == 0
            case Body(_) => number == 4 && wireType == 2
            case Code(_) => number == 5 && wireType == 0 && schema == ResponseSchema
            case Unknown(_) => (number > 5 || (number == 5 && schema == RequestSchema)) && wireType != 4
  {
    hide Uvarint, UnknownAt;
  }

  /** A tag with a number below 1 or the wire type of an end marker is never accepted, nor is a known field with
      another wire type than its own. */
  lemma BadTagRejected(schema: Schema, d: Bytes, i: nat)
    requires i < |d| < TWO63 && Uvarint(d, i, 64).Ok?
    ensures var wire := Uvarint(d, i, 64).value.0;
            var number, wireType := Int32(wire / 8), wire % 8;
            && (wireType == 4 ==> NextRecord(schema, d, i) == Err(EndGroupForNonGroup))
            && (wireType != 4 && number < 1 ==> NextRecord(schema, d, i) == Err(IllegalTag))
            && (wireType != 4 && number in {1, 2, 4} && wireType != 2 ==> NextRecord(schema, d, i) == Err(WrongWireType))
            && (wireType != 4 && number == 3 && wireType != 0 ==> NextRecord(schema, d, i) == Err(WrongWireType))
            && (wireType != 4 && number == 5 && schema == ResponseSchema && wireType != 0 ==>
                  NextRecord(schema, d, i) == Err(WrongWireType))
  {
    hide Uvarint, UnknownAt;
  }

  /** The payload of a length-delimited field, in plain arithmetic: the length is the varint's value, and the
      bytes after it are taken if they are there. */
  lemma DelimitedExactly(d: Bytes, i: nat)
    requires i <= |d| < TWO63 && Uvarint(d, i, 64).Ok?
    ensures var (length, j) := Uvarint(d, i, 64).value;
            Delimited(2, d, i)
            == if length >= TWO63 || j + length >= TWO63 then Err(InvalidLength)
               else if j + length > |d| then Err(UnexpectedEOF)
               else Ok((d[j..j + length], j + length))
  {
    hide Uvarint;
  }

  /** The value of a record's payload. */
  lemma RecordValue(schema: Schema, d: Bytes, i: nat)
    requires i < |d| < TWO63 && NextRecord(schema, d, i).Ok?
    ensures Uvarint(d, i, 64).Ok?
    ensures var j, end := Uvarint(d, i, 64).value.1, NextRecord(schema, d, i).value.1;
            && j <= |d|
            && match NextRecord(schema, d, i).value.0
               case Header(b) => HoldsBytes(d, j, b, end)
               case Path(b) => HoldsBytes(d, j, b, end)
               case Body(b) => HoldsBytes(d, j, b, end)
               case Id(v) => Uvarint(d, j, 64) == Ok((v, end))
               case Code(v) => Uvarint(d, j, 32) == Ok((v, end))
               case Unknown(b) => b == d[i..end]
  {
    hide Uvarint, SkipFrom;
  }

  /** A varint at `j` with the length of `b`, then `b` itself, up to `end`. */
  predicate HoldsBytes(d: Bytes, j: nat, b: Bytes, end: nat) {
    && Uvarint(d, j, 64).Ok?
    && var (length, start) := Uvarint(d, j, 64).value;
       length == |b| && start + |b| == end <= |d| && d[start..end] == b
  }

  // ---- Encoded fields ------------------------------------------------------------------------

  /** The bytes of each field on its own. */
  lemma EncodedFields(b: Bytes, v: nat)
    ensures b != [] ==> Encode(EMPTY.(path := b)) == [0x12] + EncVarint(|b|) + b
    ensures v != 0 ==> Encode(EMPTY.(requestId := v)) == [0x18] + EncVarint(v)
    ensures b != [] ==> Encode(EMPTY.(body := b)) == [0x22] + EncVarint(|b|) + b
    ensures v != 0 ==> Encode(EMPTY.(code := v)) == [0x28] + EncVarint(v)
    ensures Encode(EMPTY.(unknown := b)) == b
    ensures Encode(EMPTY) == []
  {
    hide EncVarint, Encode;
    EncodeOnly(EMPTY.(path := b, requestId := v, body := b, code := v));
    EncodeNone(b);
  }

  lemma EncodeNone(u: Bytes)
    ensures Encode(EMPTY.(unknown := u)) == u && Encode(EMPTY) == []
  {
  }

  lemma EncodedHeaders(h: Bytes, more: seq<Bytes>)
    ensures Encode(EMPTY.(headers := [h] + more)) == [0x0a] + EncVarint(|h|) + h + Encode(EMPTY.(headers := more))
  {
    hide EncVarint, Encode;
    EncodeOnly(EMPTY.(headers := [h] + more));
    EncodeOnly(EMPTY.(headers := more));
    assert ([h] + more)[0] == h && ([h] + more)[1..] == more;
  }

  /** A message is its fields in the order of their numbers, then its unknown fields; fields at their default are
      left out. */
  lemma EncodedInOrder(m: Message)
    ensures Encode(m)
         == Encode(EMPTY.(headers := m.headers)) + Encode(EMPTY.(path := m.path))
          + Encode(EMPTY.(requestId := m.requestId)) + Encode(EMPTY.(body := m.body))
          + Encode(EMPTY.(code := m.code)) + m.unknown
  {
    hide EncVarint, BytesField, EncodeHeaders;
    EncodeOnly(m);
    var h, p, i := EncodeHeaders(m.headers), OptionalBytes(TAG_METHOD, m.path), OptionalVarint(TAG_ID, m.requestId);
    var b, c, u := OptionalBytes(TAG_BODY, m.body), OptionalVarint(TAG_CODE, m.code), m.unknown;
    assert h + (p + (i + (b + (c + u)))) == h + p + i + b + c + u;
  }

  lemma EncodeOnly(m: Message)
    ensures Encode(EMPTY.(headers := m.headers)) == EncodeHeaders(m.headers)
    ensures Encode(EMPTY.(path := m.path)) == OptionalBytes(TAG_METHOD, m.path)
    ensures Encode(EMPTY.(requestId := m.requestId)) == OptionalVarint(TAG_ID, m.requestId)
    ensures Encode(EMPTY.(body := m.body)) == OptionalBytes(TAG_BODY, m.body)
    ensures Encode(EMPTY.(code := m.code)) == OptionalVarint(TAG_CODE, m.code)
  {
    hide EncVarint, BytesField;
  }

  /** A varint's groups, least significant first, all but the last with the high bit. */
  lemma {:induction false} VarintBytes(v: nat, k: nat)
    requires k < |EncVarint(v)|
    ensures EncVarint(v)[k] == (v / Pow2(7 * k)) % 128 + (if k + 1 < |EncVarint(v)| then 128 else 0)
    decreases k
  {
    if k > 0 {
      EncVarintStep(v);
      VarintBytes(v / 128, k - 1);
      Pow2Add(7, 7 * (k - 1));
      Pow2Values();
      DivDiv(v, 128, Pow2(7 * (k - 1)));
    } else {
      EncVarintStep(v);
    }
  }

  lemma DivDiv(v: nat, a: nat, b: nat)
    requires a > 0 && b > 0
    ensures a * b > 0 && v / a / b == v / (a * b)
  {
    var q, r := v / a, v % a;
    var s, t := q / b, q % b;
    MulStrict(0, a, b);
    MulAssoc(s, b, a);
    Distribute(s * b, t, a);
    assert v == s * (b * a) + (t * a + r);
    MulStrict(t, b, a);
    assert a * b == b * a;
    ModUnique(v, a * b, s, t * a + r);
  }

  // ---- Skipped records -----------------------------------------------------------------------

  /** The length of a skipped record that opens no group: the tag, and then a varint, eight bytes, a length and
      that many bytes, or four bytes. */
  lemma SkippedLength(s: Bytes)
    requires 0 < |s| < TWO63 && Uvarint(s, 0, 64).Ok?
    ensures var (wire, j) := Uvarint(s, 0, 64).value;
            && (wire % 8 == 0 ==> SkipFrom(s, 0, 0) == VarintEnd(s, j, 0))
            && (wire % 8 == 1 && j + 8 < TWO63 ==> SkipFrom(s, 0, 0) == Ok(j + 8))
            && (wire % 8 == 2 && Uvarint(s, j, 64).Ok? ==>
                  var (length, k) := Uvarint(s, j, 64).value;
                  SkipFrom(s, 0, 0) == if k + length < TWO63 then Ok(k + length) else Err(InvalidLength))
            && (wire % 8 == 4 ==> SkipFrom(s, 0, 0) == Err(UnexpectedEndOfGroup))
            && (wire % 8 == 5 && j + 4 < TWO63 ==> SkipFrom(s, 0, 0) == Ok(j + 4))
            && (wire % 8 > 5 ==> SkipFrom(s, 0, 0) == Err(IllegalWireType))
  {
    hide Uvarint, VarintEnd;
  }

  /** Inside open groups a whole record is passed over, and the groups stay open. */
  lemma {:induction false} SkipNested(s: Bytes, i: nat, depth: nat, outer: nat)
    requires |s| < TWO63 && SkipFrom(s, i, depth).Ok? && outer > 0
    ensures SkipFrom(s, i, depth + outer) == SkipFrom(s, SkipFrom(s, i, depth).value, outer)
    decreases |s| - i
  {
    hide Uvarint, SkipPayload;
    var (wire, j) := Uvarint(s, i, 64).value;
    var k := SkipPayload(s, wire % 8, j).value;
    var open := if wire % 8 == 3 then depth + 1 else if wire % 8 == 4 then depth - 1 else depth;
    if open != 0 {
      SkipNested(s, k, open, outer);
    }
  }

  /** A group with nothing but whole records from `i` to `k` in it. */
  ghost predicate RecordsBetween(s: Bytes, i: nat, k: nat)
    requires |s| < TWO63
    decreases k - i
  {
    i == k || (i < k && SkipFrom(s, i, 0).Ok? && SkipFrom(s, i, 0).value <= k && RecordsBetween(s, SkipFrom(s, i, 0).value, k))
  }

  lemma {:induction false} SkipRecords(s: Bytes, i: nat, k: nat)
    requires |s| < TWO63 && RecordsBetween(s, i, k)
    ensures SkipFrom(s, i, 1) == SkipFrom(s, k, 1)
    decreases k - i
  {
    if i < k {
      SkipNested(s, i, 0, 1);
      SkipRecords(s, SkipFrom(s, i, 0).value, k);
    }
  }

  /** A skipped group ends with its own end marker: the first that is not inside a record of the group. */
  lemma SkippedGroup(s: Bytes, k: nat)
    requires 0 < |s| < TWO63 && k < |s| && Uvarint(s, 0, 64).Ok? && Uvarint(s, 0, 64).value.0 % 8 == 3
    requires RecordsBetween(s, Uvarint(s, 0, 64).value.1, k)
    requires Uvarint(s, k, 64).Ok? && Uvarint(s, k, 64).value.0 % 8 == 4
    ensures SkipFrom(s, 0, 0) == Ok(Uvarint(s, k, 64).value.1)
  {
    hide Uvarint, RecordsBetween;
    SkipRecords(s, Uvarint(s, 0, 64).value.1, k);
  }

  // ---- Frames --------------------------------------------------------------------------------

  /** The number in the first four bytes, the most significant first. */
  function LengthField(s: Bytes): nat
    requires |s| >= 4
  {
    var a: int, b: int, c: int, d: int := s[0], s[1], s[2], s[3];
    0x100_0000 * a + 0x1_0000 * b + 0x100 * c + d
  }

  lemma LengthBytes(v: nat, rest: Bytes)
    requires v < TWO32
    ensures LengthField(BigEndian32(v) + rest) == v
  {
    var h, t := v / 256, v / 0x1_0000;
    assert t == h / 256 && v / 0x100_0000 == t / 256;
    assert v == 256 * h + v % 256 && h == 256 * t + h % 256 && t == 256 * (t / 256) + t % 256;
  }

  /** Every frame: a big-endian length that counts what follows it, modulo 2^32; the flag of its kind, 1 for a
      request, 2 for a response, 3 for an event, three more if compressed; and the encoded message, compressed only
      if it is longer than 16384 bytes and becomes shorter. */
  lemma FrameLayout(z: Zstd, kind: Kind, m: Message)
    requires |Encode(m)| < TWO63
    ensures var s, e := EncodeFrame(z, kind, m), Encode(m);
            var compressed := |e| > 16384 && |z.compress(e)| < |e|;
            && |s| >= 5
            && LengthField(s) == (|s| - 4) % 0x1_0000_0000
            && s[4] == (match kind case Request => 1 case Response => 2 case Event => 3) + (if compressed then 3 else 0)
            && s[5..] == (if compressed then z.compress(e) else e)
  {
    hide Encode, BigEndian32, LengthField;
    var (flag, payload) := Packed(z, kind, m);
    LengthBytes((1 + |payload|) % TWO32, [flag] + payload);
    var s := EncodeFrame(z, kind, m);
    assert s == BigEndian32((1 + |payload|) % TWO32) + ([flag] + payload);
    assert s[5..] == payload;
  }

  /** What a reader makes of any bytes: the length field says how many follow it. */
  lemma ReadLayout(s: Bytes)
    ensures ReadFrame(s)
         == if |s| < 4 then Incomplete
            else if LengthField(s) == 0 then ZeroLength
            else if |s| < 4 + LengthField(s) then Incomplete
            else Frame(s[4], s[5..4 + LengthField(s)], 4 + LengthField(s))
  {
    if |s| >= 4 {
      assert FromBigEndian32(s[..4]) == LengthField(s);
    }
  }

  /** What a frame means to each side, by its flag: 1 and 3 are requests and events as they are, 4 and 6 the same
      compressed, 2 a response as it is, 5 a compressed one, which only the client decompresses. */
  lemma FlagMeans(side: Side, z: Zstd, flag: Byte, payload: Slice)
    ensures var data := if flag == 4 || flag == 6 || (flag == 5 && side == ClientSide) then z.decompress(payload) else Some(payload);
            DecodePayload(side, z, flag, payload)
            == if flag < 1 || flag > 6 || data.None? then None
               else
                 var schema := if flag == 2 || flag == 5 then ResponseSchema else RequestSchema;
                 match Parse(schema, EMPTY, data.value)
                 case Err(_) => None
                 case Ok(m) => Some((if flag == 1 || flag == 4 then Request else if flag == 2 || flag == 5 then Response else Event, m))
  {
    hide Parse;
  }
}
