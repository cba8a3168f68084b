/** What the codec promises for every message and every byte string: records are determined by their own
    bytes, concatenation merges, writing then reading is the identity, and reading then writing is a
    canonicalisation that never grows. */
module CodecTheorems {
  import opened Wire
  import opened Codec

  // ---- Records as a list ---------------------------------------------------------------------

  function RecordsFrom(schema: Schema, d: Bytes, i: nat): Result<seq<Record>>
    requires i <= |d| < TWO63
    decreases |d| - i
  {
    if i == |d| then Ok([])
    else
      match NextRecord(schema, d, i)
      case Err(e) => Err(e)
      case Ok((r, j)) =>
        match RecordsFrom(schema, d, j)
        case Err(e) => Err(e)
        case Ok(rs) => Ok([r] + rs)
  }

  function Records(schema: Schema, d: Bytes): Result<seq<Record>>
    requires |d| < TWO63
  {
    RecordsFrom(schema, d, 0)
  }

  function ApplyAll(m: Message, rs: seq<Record>): Message
    decreases |rs|
  {
    if rs == [] then m else ApplyAll(Apply(m, rs[0]), rs[1..])
  }

  lemma {:induction false} ParseIsApplyAll(schema: Schema, m: Message, d: Bytes, i: nat)
    requires i <= |d| < TWO63
    ensures ParseFrom(schema, m, d, i) ==
            match RecordsFrom(schema, d, i) case Err(e) => Err(e) case Ok(rs) => Ok(ApplyAll(m, rs))
    decreases |d| - i
  {
    if i < |d| {
      match NextRecord(schema, d, i)
      case Err(_) =>
      case Ok((r, j)) =>
        ParseIsApplyAll(schema, Apply(m, r), d, j);
        if RecordsFrom(schema, d, j).Ok? {
          var rs := RecordsFrom(schema, d, j).value;
          assert ([r] + rs)[1..] == rs;
        }
    }
  }

  lemma SameBytesSlice(d: Bytes, i: nat, e: Bytes, j: nat, n: nat)
    requires SameBytes(d, i, e, j, n)
    ensures i + n <= |d| && j + n <= |e| && d[i..i + n] == e[j..j + n]
  {
  }

  // ---- Locality ------------------------------------------------------------------------------

  lemma TagLocal(d: Bytes, i: nat, e: Bytes, j: nat)
    requires i < |d| && j < |e| && Tag(d, i).Ok?
    requires SameBytes(d, i, e, j, Tag(d, i).value.2 - i)
    ensures Tag(e, j) == Ok((Tag(d, i).value.0, Tag(d, i).value.1, Tag(d, i).value.2 - i + j))
  {
    hide Uvarint, Int32;
    UvarintLocal(d, i, e, j, 64);
  }

  lemma DelimitedLocal(wireType: nat, d: Bytes, i: nat, e: Bytes, j: nat)
    requires i <= |d| < TWO63 && j <= |e| < TWO63 && Delimited(wireType, d, i).Ok?
    requires SameBytes(d, i, e, j, Delimited(wireType, d, i).value.1 - i)
    ensures Delimited(wireType, e, j) == Ok((Delimited(wireType, d, i).value.0, Delimited(wireType, d, i).value.1 - i + j))
  {
    hide Uvarint, Int64, SameBytes;
    var n := Delimited(wireType, d, i).value.1 - i;
    var (u, k) := Uvarint(d, i, 64).value;
    SameBytesPart(d, i, e, j, n, 0, k - i);
    UvarintLocal(d, i, e, j, 64);
    SameBytesPart(d, i, e, j, n, k - i, n - (k - i));
    SameBytesSlice(d, k, e, k - i + j, n - (k - i));
  }

  lemma UnknownLocal(d: Bytes, i: nat, e: Bytes, j: nat)
    requires i < |d| < TWO63 && j < |e| < TWO63 && UnknownAt(d, i).Ok?
    requires SameBytes(d, i, e, j, UnknownAt(d, i).value.1 - i)
    ensures UnknownAt(e, j) == Ok((UnknownAt(d, i).value.0, UnknownAt(d, i).value.1 - i + j))
  {
    hide SkipFrom;
    var n := UnknownAt(d, i).value.1 - i;
    assert d[i..][..n] == d[i..i + n];
    assert e[j..][..n] == e[j..j + n];
    SkipLocal(d[i..], e[j..], 0, 0);
  }

  /** A record is determined by the bytes it consumes, wherever they stand and whatever surrounds them. */
  lemma NextRecordLocal(schema: Schema, d: Bytes, i: nat, e: Bytes, j: nat)
    requires i < |d| < TWO63 && j < |e| < TWO63 && NextRecord(schema, d, i).Ok?
    requires SameBytes(d, i, e, j, NextRecord(schema, d, i).value.1 - i)
    ensures NextRecord(schema, e, j) == Ok((NextRecord(schema, d, i).value.0, NextRecord(schema, d, i).value.1 - i + j))
  {
    hide Tag, Delimited, Uvarint, UnknownAt, SameBytes;
    var n := NextRecord(schema, d, i).value.1 - i;
    var (fieldNum, wireType, k) := Tag(d, i).value;
    if fieldNum == 1 || fieldNum == 2 || fieldNum == 4 {
      SameBytesPart(d, i, e, j, n, 0, k - i);
      TagLocal(d, i, e, j);
      SameBytesPart(d, i, e, j, n, k - i, n - (k - i));
      DelimitedLocal(wireType, d, k, e, k - i + j);
    } else if fieldNum == 3 || (fieldNum == 5 && schema.ResponseSchema?) {
      SameBytesPart(d, i, e, j, n, 0, k - i);
      TagLocal(d, i, e, j);
      SameBytesPart(d, i, e, j, n, k - i, n - (k - i));
      UvarintLocal(d, k, e, k - i + j, if fieldNum == 3 then 64 else 32);
    } else {
      UnknownCoversTag(d, i);
      SameBytesPart(d, i, e, j, n, 0, k - i);
      TagLocal(d, i, e, j);
      UnknownLocal(d, i, e, j);
    }
  }

  /** A skipped record contains the whole of its tag. */
  lemma UnknownCoversTag(d: Bytes, i: nat)
    requires i < |d| < TWO63 && Tag(d, i).Ok? && UnknownAt(d, i).Ok?
    ensures Tag(d, i).value.2 <= UnknownAt(d, i).value.1
  {
    var s := d[i..];
    var k := Tag(d, i).value.2;
    assert SameBytes(d, i, s, 0, k - i) by { assert s[0..k - i] == d[i..k]; }
    UvarintLocal(d, i, s, 0, 64);
  }

  // ---- Concatenation -------------------------------------------------------------------------

  /** The records of `b` are the records of `a + b` from `|a|` on. */
  lemma {:induction false} RecordsShift(schema: Schema, a: Bytes, b: Bytes, i: nat)
    requires i <= |b| && |a + b| < TWO63
    ensures RecordsFrom(schema, b, i).Ok? <==> RecordsFrom(schema, a + b, |a| + i).Ok?
    ensures RecordsFrom(schema, b, i).Ok? ==> RecordsFrom(schema, a + b, |a| + i) == RecordsFrom(schema, b, i)
    decreases |b| - i
  {
    hide NextRecord;
    if i < |b| {
      var d := a + b;
      var x, y := NextRecord(schema, b, i), NextRecord(schema, d, |a| + i);
      if x.Ok? {
        var n := x.value.1 - i;
        assert d[|a| + i..|a| + i + n] == b[i..i + n];
        NextRecordLocal(schema, b, i, d, |a| + i);
        RecordsShift(schema, a, b, i + n);
      } else if y.Ok? {
        var n := y.value.1 - (|a| + i);
        assert d[|a| + i..|a| + i + n] == b[i..i + n];
        NextRecordLocal(schema, d, |a| + i, b, i);
      }
    }
  }

  lemma {:induction false} RecordsConcatFrom(schema: Schema, a: Bytes, b: Bytes, i: nat)
    requires i <= |a| && |a + b| < TWO63 && RecordsFrom(schema, a, i).Ok?
    ensures RecordsFrom(schema, a + b, i).Ok? <==> Records(schema, b).Ok?
    ensures Records(schema, b).Ok? ==>
              RecordsFrom(schema, a + b, i) == Ok(RecordsFrom(schema, a, i).value + Records(schema, b).value)
    decreases |a| - i
  {
    hide NextRecord;
    if i == |a| {
      RecordsShift(schema, a, b, 0);
      if Records(schema, b).Ok? {
        assert [] + Records(schema, b).value == Records(schema, b).value;
      }
    } else {
      var d := a + b;
      var j := NextRecord(schema, a, i).value.1;
      assert d[i..j] == a[i..j];
      NextRecordLocal(schema, a, i, d, i);
      RecordsConcatFrom(schema, a, b, j);
      if Records(schema, b).Ok? {
        var r, rs, bs := NextRecord(schema, a, i).value.0, RecordsFrom(schema, a, j).value, Records(schema, b).value;
        assert [r] + (rs + bs) == ([r] + rs) + bs;
      }
    }
  }

  /** Where `a` is a whole list of records, the records of `a + b` are those of `a` then those of `b`. */
  lemma RecordsConcat(schema: Schema, a: Bytes, b: Bytes)
    requires |a + b| < TWO63 && Records(schema, a).Ok?
    ensures Records(schema, a + b).Ok? <==> Records(schema, b).Ok?
    ensures Records(schema, b).Ok? ==> Records(schema, a + b) == Ok(Records(schema, a).value + Records(schema, b).value)
  {
    RecordsConcatFrom(schema, a, b, 0);
  }

  lemma {:induction false} ApplyAllConcat(m: Message, a: seq<Record>, b: seq<Record>)
    ensures ApplyAll(m, a + b) == ApplyAll(ApplyAll(m, a), b)
    decreases |a|
  {
    if a == [] {
      assert a + b == b;
    } else {
      assert (a + b)[1..] == a[1..] + b;
      ApplyAllConcat(Apply(m, a[0]), a[1..], b);
    }
  }

  /** Parsing a concatenation is parsing the second part into the result of the first. */
  lemma ParseConcat(schema: Schema, m: Message, a: Bytes, b: Bytes)
    requires |a + b| < TWO63 && Parse(schema, m, a).Ok?
    ensures Parse(schema, m, a + b).Ok? <==> Parse(schema, Parse(schema, m, a).value, b).Ok?
    ensures Parse(schema, m, a + b).Ok? ==> Parse(schema, m, a + b) == Parse(schema, Parse(schema, m, a).value, b)
  {
    ParseIsApplyAll(schema, m, a, 0);
    ParseIsApplyAll(schema, m, a + b, 0);
    ParseIsApplyAll(schema, Parse(schema, m, a).value, b, 0);
    RecordsConcat(schema, a, b);
    if Records(schema, b).Ok? {
      ApplyAllConcat(m, Records(schema, a).value, Records(schema, b).value);
    }
  }

  // ---- The merge law -------------------------------------------------------------------------

  predicate HasPath(rs: seq<Record>) { exists r :: r in rs && r.Path? }
  predicate HasId(rs: seq<Record>) { exists r :: r in rs && r.Id? }
  predicate HasBody(rs: seq<Record>) { exists r :: r in rs && r.Body? }
  predicate HasCode(rs: seq<Record>) { exists r :: r in rs && r.Code? }

  /** Message `d`, read from records `rs`, laid over message `m`: the last scalar present wins, headers and
      unknown fields are appended. */
  function Merge(m: Message, d: Message, rs: seq<Record>): Message
  {
    Message(
      m.headers + d.headers,
      if HasPath(rs) then d.path else m.path,
      if HasId(rs) then d.requestId else m.requestId,
      if HasBody(rs) then d.body else m.body,
      if HasCode(rs) then d.code else m.code,
      m.unknown + d.unknown)
  }

  lemma {:induction false} ApplyAllMerges(m: Message, rs: seq<Record>)
    ensures ApplyAll(m, rs) == Merge(m, ApplyAll(EMPTY, rs), rs)
  {
    if rs != [] {
      var n := |rs| - 1;
      var init, last := rs[..n], rs[n];
      assert rs == init + [last];
      ApplyAllConcat(m, init, [last]);
      ApplyAllConcat(EMPTY, init, [last]);
      ApplyAllMerges(m, init);
      var d := ApplyAll(EMPTY, init);
      assert forall r :: r in rs <==> r in init || r == last;
      assert ApplyAll(m, rs) == Apply(Merge(m, d, init), last);
      assert ApplyAll(EMPTY, rs) == Apply(d, last);
      MergeStep(m, d, init, last);
    }
  }

  lemma MergeStep(m: Message, d: Message, rs: seq<Record>, r: Record)
    ensures Apply(Merge(m, d, rs), r) == Merge(m, Apply(d, r), rs + [r])
  {
    assert forall x :: x in rs + [r] <==> x in rs || x == r;
    match r
    case Header(b) => assert m.headers + (d.headers + [b]) == (m.headers + d.headers) + [b];
    case Unknown(b) => assert m.unknown + (d.unknown + b) == (m.unknown + d.unknown) + b;
    case Path(_) => assert HasPath(rs + [r]);
    case Id(_) => assert HasId(rs + [r]);
    case Body(_) => assert HasBody(rs + [r]);
    case Code(_) => assert HasCode(rs + [r]);
  }

  /** The merge law: if `a` and `b` both parse on their own, their concatenation parses to the second laid
      over the first. */
  lemma MergeLaw(schema: Schema, a: Bytes, b: Bytes)
    requires |a + b| < TWO63 && Parse(schema, EMPTY, a).Ok? && Parse(schema, EMPTY, b).Ok?
    ensures Records(schema, b).Ok?
    ensures Parse(schema, EMPTY, a + b)
         == Ok(Merge(Parse(schema, EMPTY, a).value, Parse(schema, EMPTY, b).value, Records(schema, b).value))
  {
    var m := Parse(schema, EMPTY, a).value;
    ParseConcat(schema, EMPTY, a, b);
    ParseIsApplyAll(schema, m, b, 0);
    ParseIsApplyAll(schema, EMPTY, b, 0);
    ApplyAllMerges(m, Records(schema, b).value);
  }

  // ---- Round trip ----------------------------------------------------------------------------

  /** A list of whole unknown-field records. */
  predicate WholeUnknown(schema: Schema, u: Bytes)
  {
    |u| < TWO63 && Records(schema, u).Ok? && forall r :: r in Records(schema, u).value ==> r.Unknown?
  }

  /** The messages the generated structs can hold: `uint64` id, `uint32` code, no code in a request, slices
      that fit in memory, and unknown fields that are whole records. */
  predicate WellFormed(schema: Schema, m: Message)
  {
    && m.requestId < TWO64
    && m.code < TWO32
    && (schema.RequestSchema? ==> m.code == 0)
    && WholeUnknown(schema, m.unknown)
    && |Encode(m)| < TWO63
  }

  lemma SingleRecord(schema: Schema, d: Bytes, r: Record)
    requires 0 < |d| < TWO63 && NextRecord(schema, d, 0) == Ok((r, |d|))
    ensures Records(schema, d) == Ok([r])
  {
    hide NextRecord;
    assert RecordsFrom(schema, d, |d|) == Ok([]);
    assert [r] + [] == [r];
  }

  lemma OneByteTag(d: Bytes, tag: Byte)
    requires |d| > 0 && d[0] == tag && 8 <= tag < 128 && tag % 8 != 4
    ensures Tag(d, 0) == Ok((tag / 8, tag % 8, 1))
  {
    assert Uvarint(d, 0, 64) == Ok((tag, 1)) by {
      assert EncVarint(tag) == [tag];
      assert d[0..1] == [tag];
      VarintRoundTrip(d, 0, tag, 64);
    }
    hide Uvarint;
  }

  lemma BytesFieldReadBack(d: Bytes, tag: Byte, b: Bytes)
    requires d == BytesField(tag, b) && |d| < TWO63 && 8 <= tag < 128 && tag % 8 == 2
    ensures Tag(d, 0) == Ok((tag / 8, 2, 1)) && Delimited(2, d, 1) == Ok((b, |d|))
  {
    OneByteTag(d, tag);
    var e := EncVarint(|b|);
    hide Tag, Uvarint, EncVarint;
    assert d[1..1 + |e|] == e;
    VarintRoundTrip(d, 1, |b|, 64);
    assert Int64(|b|) == |b|;
    assert d[1 + |e|..|d|] == b;
  }

  lemma VarintFieldReadBack(d: Bytes, tag: Byte, v: nat, width: nat)
    requires d == [tag] + EncVarint(v) && 8 <= tag < 128 && tag % 8 == 0
    requires v < Modulus(width) && width <= 64
    ensures Tag(d, 0) == Ok((tag / 8, 0, 1)) && Scalar(0, d, 1, width) == Ok((v, |d|))
  {
    OneByteTag(d, tag);
    assert d[1..1 + |EncVarint(v)|] == EncVarint(v);
    VarintRoundTrip(d, 1, v, width);
  }

  function HeaderRecords(hs: seq<Bytes>): seq<Record>
  {
    seq(|hs|, i requires 0 <= i < |hs| => Header(hs[i]))
  }

  lemma {:induction false} HeadersReadBack(schema: Schema, hs: seq<Bytes>)
    requires |EncodeHeaders(hs)| < TWO63
    ensures Records(schema, EncodeHeaders(hs)) == Ok(HeaderRecords(hs))
  {
    if hs == [] {
    } else {
      var f := BytesField(TAG_HEADERS, hs[0]);
      BytesFieldReadBack(f, TAG_HEADERS, hs[0]);
      SingleRecord(schema, f, Header(hs[0]));
      HeadersReadBack(schema, hs[1..]);
      RecordsConcat(schema, f, EncodeHeaders(hs[1..]));
      assert HeaderRecords(hs) == [Header(hs[0])] + HeaderRecords(hs[1..]);
    }
  }

  function Present<T>(present: bool, r: T): seq<T>
  {
    if present then [r] else []
  }

  lemma PathReadBack(schema: Schema, b: Bytes)
    requires |BytesField(TAG_METHOD, b)| < TWO63
    ensures Records(schema, OptionalBytes(TAG_METHOD, b)) == Ok(Present(b != [], Path(b)))
  {
    if b != [] {
      BytesFieldReadBack(BytesField(TAG_METHOD, b), TAG_METHOD, b);
      hide Tag, Delimited;
      SingleRecord(schema, BytesField(TAG_METHOD, b), Path(b));
    }
  }

  lemma BodyReadBack(schema: Schema, b: Bytes)
    requires |BytesField(TAG_BODY, b)| < TWO63
    ensures Records(schema, OptionalBytes(TAG_BODY, b)) == Ok(Present(b != [], Body(b)))
  {
    if b != [] {
      BytesFieldReadBack(BytesField(TAG_BODY, b), TAG_BODY, b);
      hide Tag, Delimited;
      SingleRecord(schema, BytesField(TAG_BODY, b), Body(b));
    }
  }

  lemma IdReadBack(schema: Schema, v: nat)
    requires v < TWO64
    ensures |OptionalVarint(TAG_ID, v)| < TWO63
    ensures Records(schema, OptionalVarint(TAG_ID, v)) == Ok(Present(v != 0, Id(v)))
  {
    if v != 0 {
      VarintFits(v, 64);
      VarintFieldReadBack(OptionalVarint(TAG_ID, v), TAG_ID, v, 64);
      hide Tag, Uvarint;
      SingleRecord(schema, OptionalVarint(TAG_ID, v), Id(v));
    }
  }

  lemma CodeReadBack(schema: Schema, v: nat)
    requires v < TWO32 && (schema.RequestSchema? ==> v == 0)
    ensures |OptionalVarint(TAG_CODE, v)| < TWO63
    ensures Records(schema, OptionalVarint(TAG_CODE, v)) == Ok(Present(v != 0, Code(v)))
  {
    if v != 0 {
      VarintFits(v, 32);
      VarintFieldReadBack(OptionalVarint(TAG_CODE, v), TAG_CODE, v, 32);
      hide Tag, Uvarint;
      SingleRecord(schema, OptionalVarint(TAG_CODE, v), Code(v));
    }
  }

  /** The records that `Encode` writes, in order. */
  function RecordsOf(schema: Schema, m: Message): seq<Record>
    requires WholeUnknown(schema, m.unknown)
  {
    HeaderRecords(m.headers)
    + (Present(m.path != [], Path(m.path))
    + (Present(m.requestId != 0, Id(m.requestId))
    + (Present(m.body != [], Body(m.body))
    + (Present(m.code != 0, Code(m.code))
    + Records(schema, m.unknown).value))))
  }

  lemma EncodeReadBack(schema: Schema, m: Message)
    requires WellFormed(schema, m)
    ensures Records(schema, Encode(m)) == Ok(RecordsOf(schema, m))
  {
    HeadersReadBack(schema, m.headers);
    IdReadBack(schema, m.requestId);
    CodeReadBack(schema, m.code);
    if m.path != [] {
      PathReadBack(schema, m.path);
    }
    if m.body != [] {
      BodyReadBack(schema, m.body);
    }
    hide RecordsFrom, Records, EncodeHeaders, OptionalBytes, OptionalVarint, HeaderRecords, Present;
    var s := m.unknown;
    RecordsConcat(schema, OptionalVarint(TAG_CODE, m.code), s);
    s := OptionalVarint(TAG_CODE, m.code) + s;
    RecordsConcat(schema, OptionalBytes(TAG_BODY, m.body), s);
    s := OptionalBytes(TAG_BODY, m.body) + s;
    RecordsConcat(schema, OptionalVarint(TAG_ID, m.requestId), s);
    s := OptionalVarint(TAG_ID, m.requestId) + s;
    RecordsConcat(schema, OptionalBytes(TAG_METHOD, m.path), s);
    s := OptionalBytes(TAG_METHOD, m.path) + s;
    RecordsConcat(schema, EncodeHeaders(m.headers), s);
  }

  lemma {:induction false} ApplyHeaders(m: Message, hs: seq<Bytes>)
    ensures ApplyAll(m, HeaderRecords(hs)) == m.(headers := m.headers + hs)
    decreases |hs|
  {
    if hs == [] {
      assert m.headers + hs == m.headers;
    } else {
      var rs := HeaderRecords(hs);
      assert rs[1..] == HeaderRecords(hs[1..]);
      ApplyHeaders(m.(headers := m.headers + [hs[0]]), hs[1..]);
      assert m.headers + [hs[0]] + hs[1..] == m.headers + hs;
    }
  }

  lemma {:induction false} ApplyUnknown(schema: Schema, m: Message, u: Bytes, i: nat)
    requires i <= |u| < TWO63 && RecordsFrom(schema, u, i).Ok?
    requires forall r :: r in RecordsFrom(schema, u, i).value ==> r.Unknown?
    ensures ApplyAll(m, RecordsFrom(schema, u, i).value) == m.(unknown := m.unknown + u[i..])
    decreases |u| - i
  {
    hide NextRecord;
    if i == |u| {
      assert m.unknown + u[i..] == m.unknown;
    } else {
      var rs := RecordsFrom(schema, u, i).value;
      var (r, j) := NextRecord(schema, u, i).value;
      assert r in rs;
      assert rs[1..] == RecordsFrom(schema, u, j).value;
      UnknownIsRaw(schema, u, i);
      ApplyUnknown(schema, m.(unknown := m.unknown + r.bytes), u, j);
      assert m.unknown + u[i..j] + u[j..] == m.unknown + u[i..];
    }
  }

  lemma UnknownIsRaw(schema: Schema, d: Bytes, i: nat)
    requires i < |d| < TWO63 && NextRecord(schema, d, i).Ok? && NextRecord(schema, d, i).value.0.Unknown?
    ensures NextRecord(schema, d, i).value.0.bytes == d[i..NextRecord(schema, d, i).value.1]
  {
    hide Tag, Delimited, Scalar, SkipFrom;
  }

  /** What reading the bytes of `m` does to a message that already holds `m0`: headers and unknown fields
      are appended, and a scalar that is written overwrites. */
  function Overlay(m0: Message, m: Message): Message
  {
    Message(
      m0.headers + m.headers,
      if m.path != [] then m.path else m0.path,
      if m.requestId != 0 then m.requestId else m0.requestId,
      if m.body != [] then m.body else m0.body,
      if m.code != 0 then m.code else m0.code,
      m0.unknown + m.unknown)
  }

  /** The effect of the records that `Encode` writes, `u` standing for those of the unknown fields. */
  lemma ApplyFields(m0: Message, m: Message, u: seq<Record>)
    ensures ApplyAll(m0, HeaderRecords(m.headers)
                         + (Present(m.path != [], Path(m.path))
                         + (Present(m.requestId != 0, Id(m.requestId))
                         + (Present(m.body != [], Body(m.body))
                         + (Present(m.code != 0, Code(m.code)) + u)))))
         == ApplyAll(Overlay(m0, m).(unknown := m0.unknown), u)
  {
    ApplyHeaders(m0, m.headers);
    hide HeaderRecords, ApplyAll, Present;
    var p5 := Present(m.code != 0, Code(m.code));
    var p4 := Present(m.body != [], Body(m.body));
    var p3 := Present(m.requestId != 0, Id(m.requestId));
    var p2 := Present(m.path != [], Path(m.path));
    ApplyAllConcat(m0, HeaderRecords(m.headers), p2 + (p3 + (p4 + (p5 + u))));
    var m1 := m0.(headers := m0.headers + m.headers);
    ApplyAllConcat(m1, p2, p3 + (p4 + (p5 + u)));
    ApplyPresent(m1, m.path != [], Path(m.path));
    var m2 := m1.(path := Overlay(m0, m).path);
    ApplyAllConcat(m2, p3, p4 + (p5 + u));
    ApplyPresent(m2, m.requestId != 0, Id(m.requestId));
    var m3 := m2.(requestId := Overlay(m0, m).requestId);
    ApplyAllConcat(m3, p4, p5 + u);
    ApplyPresent(m3, m.body != [], Body(m.body));
    var m4 := m3.(body := Overlay(m0, m).body);
    ApplyAllConcat(m4, p5, u);
    ApplyPresent(m4, m.code != 0, Code(m.code));
  }

  lemma RoundTripInto(schema: Schema, m0: Message, m: Message)
    requires WellFormed(schema, m)
    ensures Parse(schema, m0, Encode(m)) == Ok(Overlay(m0, m))
  {
    EncodeReadBack(schema, m);
    ParseIsApplyAll(schema, m0, Encode(m), 0);
    ApplyUnknown(schema, Overlay(m0, m).(unknown := m0.unknown), m.unknown, 0);
    hide RecordsFrom, Encode, HeaderRecords, ApplyAll, Present;
    ApplyFields(m0, m, Records(schema, m.unknown).value);
    assert m.unknown[0..] == m.unknown;
  }

  lemma ApplyPresent(m: Message, present: bool, r: Record)
    ensures ApplyAll(m, Present(present, r)) == if present then Apply(m, r) else m
  {
    assert [r][1..] == [];
  }

  /** The codec round trip, for both schemas: reading what was written into an empty or released message
      gives the message back, empty headers, order and unknown fields included. */
  lemma RoundTrip(schema: Schema, m: Message)
    requires WellFormed(schema, m)
    ensures Parse(schema, EMPTY, Encode(m)) == Ok(m)
  {
    RoundTripInto(schema, EMPTY, m);
    assert [] + m.headers == m.headers && [] + m.unknown == m.unknown;
  }

  // ---- Canonicalisation ----------------------------------------------------------------------

  /** The shortest bytes of one record. */
  function RecordBytes(r: Record): Bytes
  {
    match r
    case Header(b) => BytesField(TAG_HEADERS, b)
    case Path(b) => OptionalBytes(TAG_METHOD, b)
    case Id(v) => OptionalVarint(TAG_ID, v)
    case Body(b) => OptionalBytes(TAG_BODY, b)
    case Code(v) => OptionalVarint(TAG_CODE, v)
    case Unknown(b) => b
  }

  /** No spelling of a varint is shorter than the one the writer uses. */
  lemma UvarintCost(d: Bytes, i: nat, width: nat)
    requires Uvarint(d, i, width).Ok?
    ensures |EncVarint(Uvarint(d, i, width).value.0)| <= Uvarint(d, i, width).value.1 - i
  {
    var (v, j) := Uvarint(d, i, width).value;
    GroupSumBound(d[i..j]);
    ModAtMost(GroupSum(d[i..j]), Modulus(width));
    EncVarintSize(v);
    VarintSizeMinimal(v, j - i);
  }

  lemma ModAtMost(x: nat, m: nat)
    requires m > 0
    ensures x % m <= x
  {
    assert x == m * (x / m) + x % m;
    assert m * (x / m) >= 0;
  }

  lemma DelimitedCost(wireType: nat, d: Bytes, i: nat)
    requires i <= |d| < TWO63 && Delimited(wireType, d, i).Ok?
    ensures |EncVarint(|Delimited(wireType, d, i).value.0|)| + |Delimited(wireType, d, i).value.0|
         <= Delimited(wireType, d, i).value.1 - i
  {
    UvarintCost(d, i, 64);
    hide Uvarint, EncVarint;
  }

  /** Every record read took at least as many bytes as writing it takes. */
  lemma RecordCost(schema: Schema, d: Bytes, i: nat)
    requires i < |d| < TWO63 && NextRecord(schema, d, i).Ok?
    ensures |RecordBytes(NextRecord(schema, d, i).value.0)| <= NextRecord(schema, d, i).value.1 - i
  {
    hide Tag, Delimited, Uvarint, SkipFrom, EncVarint;
    var (fieldNum, wireType, j) := Tag(d, i).value;
    if fieldNum == 1 || fieldNum == 2 || fieldNum == 4 {
      DelimitedCost(wireType, d, j);
    } else if fieldNum == 3 || (fieldNum == 5 && schema.ResponseSchema?) {
      UvarintCost(d, j, if fieldNum == 3 then 64 else 32);
    }
  }

  lemma ApplyCost(m: Message, r: Record)
    ensures |Encode(Apply(m, r))| <= |Encode(m)| + |RecordBytes(r)|
  {
    if r.Header? {
      EncodeHeadersConcat(m.headers, [r.bytes]);
      assert [r.bytes][1..] == [];
      assert EncodeHeaders([r.bytes]) == BytesField(TAG_HEADERS, r.bytes) + EncodeHeaders([]);
    }
  }

  /** The values a record can carry under a schema. */
  lemma RecordValues(schema: Schema, d: Bytes, i: nat)
    requires i < |d| < TWO63 && NextRecord(schema, d, i).Ok?
    ensures match NextRecord(schema, d, i).value.0
            case Id(v) => v < TWO64
            case Code(v) => v < TWO32 && schema.ResponseSchema?
            case _ => true
  {
    hide Tag, Delimited, Uvarint, UnknownAt;
  }

  lemma WholeUnknownGrows(schema: Schema, u: Bytes, d: Bytes, i: nat)
    requires WholeUnknown(schema, u)
    requires i < |d| < TWO63 && NextRecord(schema, d, i).Ok? && NextRecord(schema, d, i).value.0.Unknown?
    requires |u + NextRecord(schema, d, i).value.0.bytes| < TWO63
    ensures WholeUnknown(schema, u + NextRecord(schema, d, i).value.0.bytes)
  {
    var (r, j) := NextRecord(schema, d, i).value;
    UnknownIsRaw(schema, d, i);
    var raw := r.bytes;
    assert SameBytes(d, i, raw, 0, j - i) by { assert raw[0..j - i] == raw; }
    NextRecordLocal(schema, d, i, raw, 0);
    SingleRecord(schema, raw, r);
    RecordsConcat(schema, u, raw);
  }

  /** Parsing keeps a message well formed and no longer than the bytes read so far. */
  lemma {:induction false} ParsedIsWellFormed(schema: Schema, m: Message, d: Bytes, i: nat)
    requires i <= |d| < TWO63 && ParseFrom(schema, m, d, i).Ok?
    requires WellFormed(schema, m) && |Encode(m)| <= i
    ensures WellFormed(schema, ParseFrom(schema, m, d, i).value)
    ensures |Encode(ParseFrom(schema, m, d, i).value)| <= |d|
    decreases |d| - i
  {
    if i < |d| {
      var (r, j) := NextRecord(schema, d, i).value;
      var next := Apply(m, r);
      RecordCost(schema, d, i);
      ApplyCost(m, r);
      RecordValues(schema, d, i);
      hide NextRecord, RecordBytes;
      assert |next.unknown| <= |Encode(next)|;
      if r.Unknown? {
        WholeUnknownGrows(schema, m.unknown, d, i);
      }
      assert WellFormed(schema, next) by { hide Encode, Records; }
      ParsedIsWellFormed(schema, next, d, j);
    }
  }

  /** What the parser accepts is a message the structs can hold, and no longer than its source. */
  lemma ParsedMessage(schema: Schema, d: Bytes, m: Message)
    requires |d| < TWO63 && Parse(schema, EMPTY, d) == Ok(m)
    ensures WellFormed(schema, m) && |Encode(m)| <= |d|
  {
    assert WellFormed(schema, EMPTY) && Encode(EMPTY) == [];
    ParsedIsWellFormed(schema, EMPTY, d, 0);
  }

  /** Canonicalisation: whatever bytes the parser accepts, with fields in any order, repeated scalars,
      over-long varints and unknown fields, writing the result takes no more bytes and reads back as the
      same message. */
  lemma Canonicalisation(schema: Schema, d: Bytes, m: Message)
    requires |d| < TWO63 && Parse(schema, EMPTY, d) == Ok(m)
    ensures |Encode(m)| <= |d|
    ensures Parse(schema, EMPTY, Encode(m)) == Ok(m)
  {
    ParsedMessage(schema, d, m);
    RoundTrip(schema, m);
  }

  /** The messages that survive marshalling and unmarshalling are exactly the well-formed ones. */
  lemma RoundTripExactly(schema: Schema, m: Message)
    requires |Encode(m)| < TWO63
    ensures Parse(schema, EMPTY, Encode(m)) == Ok(m) <==> WellFormed(schema, m)
  {
    hide Encode, Parse, WellFormed;
    if WellFormed(schema, m) {
      RoundTrip(schema, m);
    }
    if Parse(schema, EMPTY, Encode(m)) == Ok(m) {
      ParsedMessage(schema, Encode(m), m);
    }
  }
}
