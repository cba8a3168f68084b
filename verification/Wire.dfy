/** The proto3 wire format primitives used by the generated codec: machine integers, the base-128
    varint reader and writer, and the skipping of one unknown record. */
module Wire {

  type Byte = b: int | 0 <= b < 256
  type Bytes = seq<Byte>

  const TWO31: int := 0x8000_0000
  const TWO32: int := 0x1_0000_0000
  const TWO63: int := 0x8000_0000_0000_0000
  const TWO64: int := 0x1_0000_0000_0000_0000

  datatype Error =
    | IntOverflow
    | UnexpectedEOF
    | InvalidLength
    | EndGroupForNonGroup
    | IllegalTag
    | WrongWireType
    | IllegalWireType
    | UnexpectedEndOfGroup

  datatype Result<+T> = Ok(value: T) | Err(error: Error)

  datatype Option<+T> = None | Some(value: T)

  // ---- Machine integers ----------------------------------------------------------------------

  /** Reads the low 64 bits of `x` as a two's complement `int`. */
  function Int64(x: int): (r: int)
    ensures -TWO63 <= r < TWO63
  {
    var u := x % TWO64;
    if u < TWO63 then u else u - TWO64
  }

  /** Reads the low 32 bits of `x` as a two's complement `int32`. */
  function Int32(x: int): (r: int)
    ensures -TWO31 <= r < TWO31
  {
    var u := x % TWO32;
    if u < TWO31 then u else u - TWO32
  }

  function Pow2(n: nat): (r: nat)
    ensures r > 0
  {
    if n == 0 then 1 else 2 * Pow2(n - 1)
  }

  lemma {:induction false} Pow2Add(a: nat, b: nat)
    ensures Pow2(a + b) == Pow2(a) * Pow2(b)
  {
    if a == 0 {
    } else {
      Pow2Add(a - 1, b);
    }
  }

  lemma {:induction false} Pow2Monotone(a: nat, b: nat)
    requires a <= b
    ensures Pow2(a) <= Pow2(b)
  {
    if a < b {
      Pow2Monotone(a, b - 1);
    }
  }

  lemma Pow2Values()
    ensures Pow2(7) == 128 && Pow2(32) == TWO32 && Pow2(64) == TWO64 && Pow2(70) == 64 * TWO64
  {
    assert Pow2(4) == 16;
    Pow2Add(4, 3);
    Pow2Add(4, 4);
    Pow2Add(8, 8);
    Pow2Add(16, 16);
    Pow2Add(32, 32);
    assert Pow2(6) == 64;
    Pow2Add(6, 64);
  }

  /** Bitwise or of two non-negative integers, bit by bit. */
  function Or(x: nat, y: nat): nat
  {
    if x == 0 then y
    else if y == 0 then x
    else 2 * Or(x / 2, y / 2) + (if x % 2 == 1 || y % 2 == 1 then 1 else 0)
  }

  /** The number of values of an unsigned integer of `width` bits. */
  function Modulus(width: nat): (r: nat)
    ensures r > 0
  {
    if width == 32 then TWO32 else if width == 64 then TWO64 else Pow2(width)
  }

  lemma ModulusIsPow2(width: nat)
    ensures Modulus(width) == Pow2(width)
  {
    Pow2Values();
  }

  /** `v << shift` in an unsigned integer of `width` bits. */
  function Shl(v: nat, shift: nat, width: nat): nat
  {
    (v * Pow2(shift)) % Pow2(width)
  }

  /** Or-ing in bits above the ones already present is addition. */
  lemma {:induction false} OrIsAddition(x: nat, y: nat, shift: nat)
    requires x < Pow2(shift)
    ensures Or(x, y * Pow2(shift)) == x + y * Pow2(shift)
  {
    if shift == 0 {
    } else if x == 0 {
    } else if y == 0 {
      assert y * Pow2(shift) == 0;
    } else {
      var p := Pow2(shift - 1);
      assert y * Pow2(shift) == 2 * (y * p);
      assert (y * Pow2(shift)) / 2 == y * p && (y * Pow2(shift)) % 2 == 0;
      OrIsAddition(x / 2, y, shift - 1);
      assert y * p > 0 by { MulPositive(y, p); }
    }
  }

  lemma MulPositive(a: nat, b: nat)
    requires a > 0 && b > 0
    ensures a * b > 0
  {
  }

  lemma Distribute(a: int, b: int, c: int)
    ensures (a + b) * c == a * c + b * c
  {
  }

  lemma SplitProduct(y: nat, q: nat, p: nat)
    requires q > 0
    ensures y * p == (y / q) * (q * p) + (y % q) * p
  {
    Distribute((y / q) * q, y % q, p);
    MulAssoc(y / q, q, p);
  }

  /** `(y << s) mod 2^w` keeps exactly the low `w - s` bits of `y`. */
  lemma ShlTruncates(y: nat, s: nat, w: nat)
    requires s <= w
    ensures Shl(y, s, w) == (y % Pow2(w - s)) * Pow2(s)
  {
    var p, q := Pow2(s), Pow2(w - s);
    Pow2Add(w - s, s);
    var r := y % q;
    SplitProduct(y, q, p);
    MulStrict(r, q, p);
    ModUnique(y * p, q * p, y / q, r * p);
  }

  lemma {:induction false} MulStrict(a: nat, b: nat, c: nat)
    requires a < b && c > 0
    ensures 0 <= a * c < b * c
    ensures a * c + c <= b * c
  {
    assert b * c == (b - 1) * c + c;
    if a < b - 1 {
      MulStrict(a, b - 1, c);
    }
  }

  lemma ModUnique(x: int, m: int, q: int, r: int)
    requires m > 0 && x == q * m + r && 0 <= r < m
    ensures x % m == r && x / m == q
  {
    var q', r' := x / m, x % m;
    assert x == m * q' + r';
    assert (q - q') * m == r' - r;
    MulCancel(q - q', m);
  }

  /** A multiple of `m` that is smaller than `m` in size is zero. */
  lemma MulCancel(k: int, m: int)
    requires -m < k * m < m
    ensures k == 0
  {
    if k >= 1 {
      MulStrict(0, k, m);
    } else if k <= -1 {
      assert (-k) * m == -(k * m);
      MulStrict(0, -k, m);
    }
  }

  lemma ModAddMultiple(x: int, k: int, m: int)
    requires m > 0
    ensures (x + k * m) % m == x % m
  {
    ModUnique(x + k * m, m, x / m + k, x % m);
  }

  /** A shift beyond the width leaves nothing. */
  lemma OrGroupBeyond(sum: nat, y: nat, shift: nat, width: nat)
    requires shift >= width
    ensures Shl(y, shift, width) == 0
    ensures (sum + y * Pow2(shift)) % Pow2(width) == sum % Pow2(width)
  {
    var m, k := Pow2(width), y * Pow2(shift - width);
    Pow2Add(shift - width, width);
    assert y * Pow2(shift) == k * m by { MulAssoc(y, Pow2(shift - width), m); }
    ModAddMultiple(sum, k, m);
    ModAddMultiple(0, k, m);
  }

  lemma MulSwap(a: int, b: int, c: int)
    ensures a * (b * c) == b * (a * c)
  {
  }

  lemma MulAssoc(a: int, b: int, c: int)
    ensures a * (b * c) == (a * b) * c
  {
  }

  /** A shift within the width adds the bits that fit. */
  lemma OrGroupWithin(sum: nat, y: nat, shift: nat, width: nat)
    requires sum < Pow2(shift) && shift < width
    ensures sum < Pow2(width)
    ensures (sum + y * Pow2(shift)) % Pow2(width) == sum + (y % Pow2(width - shift)) * Pow2(shift)
  {
    var p, q, m := Pow2(shift), Pow2(width - shift), Pow2(width);
    Pow2Add(width - shift, shift);
    var h, r := y / q, y % q;
    MulStrict(r, q, p);
    MulStrict(0, q, p);
    SplitProduct(y, q, p);
    ModUnique(sum + y * p, m, h, sum + r * p);
  }

  /** One iteration of the varint loop: or-ing in the next group at `shift` adds it, modulo the width. */
  lemma OrGroup(sum: nat, y: nat, shift: nat, width: nat)
    requires sum < Pow2(shift)
    ensures Or(sum % Pow2(width), Shl(y, shift, width)) == (sum + y * Pow2(shift)) % Pow2(width)
  {
    if shift >= width {
      OrGroupBeyond(sum, y, shift, width);
    } else {
      OrGroupWithin(sum, y, shift, width);
      ShlTruncates(y, shift, width);
      ModUnique(sum, Pow2(width), 0, sum);
      OrIsAddition(sum, y % Pow2(width - shift), shift);
    }
  }

  // ---- Varints -------------------------------------------------------------------------------

  /** The value of a little-endian sequence of 7-bit groups. */
  function GroupSum(s: Bytes): nat
  {
    if s == [] then 0 else s[0] % 128 + 128 * GroupSum(s[1..])
  }

  lemma {:induction false} GroupSumAppend(s: Bytes, b: Byte)
    ensures GroupSum(s + [b]) == GroupSum(s) + (b % 128) * Pow2(7 * |s|)
  {
    if s == [] {
      assert s + [b] == [b];
    } else {
      assert (s + [b])[1..] == s[1..] + [b];
      GroupSumAppend(s[1..], b);
      var p := Pow2(7 * |s[1..]|);
      assert Pow2(7 * |s|) == 128 * p by {
        Pow2Add(7, 7 * |s[1..]|);
        Pow2Values();
      }
      MulSwap(128, b % 128, p);
    }
  }

  lemma {:induction false} GroupSumBound(s: Bytes)
    ensures GroupSum(s) < Pow2(7 * |s|)
  {
    if s == [] {
    } else {
      GroupSumBound(s[1..]);
      Pow2Add(7, 7 * |s[1..]|);
      Pow2Values();
    }
  }

  /** Where the varint that starts at `i` ends, `k` bytes of it having been read already. */
  function VarintEnd(d: Bytes, i: nat, k: nat): (r: Result<nat>)
    ensures r.Ok? ==> i < r.value <= |d| && r.value - i + k <= 10
    decreases 10 - k
  {
    if k >= 10 then Err(IntOverflow)
    else if i >= |d| then Err(UnexpectedEOF)
    else if d[i] < 128 then Ok(i + 1)
    else VarintEnd(d, i + 1, k + 1)
  }

  /** The varint at `i`: its value as an unsigned integer of `width` bits, and the index after it. */
  function Uvarint(d: Bytes, i: nat, width: nat): (r: Result<(nat, nat)>)
    ensures r.Ok? ==> i < r.value.1 <= |d| && r.value.0 < Modulus(width)
  {
    match VarintEnd(d, i, 0)
    case Err(e) => Err(e)
    case Ok(j) => Ok((GroupSum(d[i..j]) % Modulus(width), j))
  }

  /** The loop that the generated code repeats for every tag, length and scalar. */
  method ReadVarint(dAtA: Bytes, start: nat, width: nat) returns (r: Result<(nat, nat)>)
    requires start <= |dAtA|
    ensures r == Uvarint(dAtA, start, width)
  {
    var iNdEx, shift, acc := start, 0, 0;
    ModUnique(0, Pow2(width), 0, 0);
    ModulusIsPow2(width);
    assert dAtA[start..iNdEx] == [];
    assert GroupSum([]) == 0;
    hide Modulus, Pow2, GroupSum, Or, Shl;
    while true
      invariant start <= iNdEx <= |dAtA| && iNdEx - start <= 10
      invariant shift == 7 * (iNdEx - start)
      invariant VarintEnd(dAtA, start, 0) == VarintEnd(dAtA, iNdEx, iNdEx - start)
      invariant acc == GroupSum(dAtA[start..iNdEx]) % Pow2(width)
      decreases |dAtA| - iNdEx
    {
      if shift >= 64 {
        return Err(IntOverflow);
      }
      if iNdEx >= |dAtA| {
        return Err(UnexpectedEOF);
      }
      var b := dAtA[iNdEx];
      ghost var before := dAtA[start..iNdEx];
      GroupSumBound(before);
      GroupSumAppend(before, b);
      OrGroup(GroupSum(before), b % 128, shift, width);
      assert dAtA[start..iNdEx + 1] == before + [b];
      iNdEx := iNdEx + 1;
      acc := Or(acc, Shl(b % 128, shift, width));
      if b < 0x80 {
        return Ok((acc, iNdEx));
      }
      shift := shift + 7;
    }
  }

  /** The shortest varint of `v`. */
  function EncVarint(v: nat): (s: Bytes)
    ensures |s| > 0
  {
    if v < 128 then [v] else [v % 128 + 128] + EncVarint(v / 128)
  }

  function VarintSize(v: nat): (n: nat)
    ensures n > 0
  {
    if v < 128 then 1 else 1 + VarintSize(v / 128)
  }

  lemma EncVarintSize(v: nat)
    ensures |EncVarint(v)| == VarintSize(v)
  {
  }

  /** A shorter varint cannot exist: `n` groups hold no value of more than `n` groups. */
  lemma {:induction false} VarintSizeMinimal(v: nat, n: nat)
    requires v < Pow2(7 * n) && n > 0
    ensures VarintSize(v) <= n
  {
    if v >= 128 {
      Pow2Values();
      if n == 1 {
        assert false;
      }
      Pow2Add(7, 7 * (n - 1));
      VarintSizeMinimal(v / 128, n - 1);
    }
  }

  lemma {:induction false} VarintReadBack(d: Bytes, i: nat, v: nat, k: nat)
    requires i + |EncVarint(v)| <= |d| && d[i..i + |EncVarint(v)|] == EncVarint(v)
    requires k + |EncVarint(v)| <= 10
    ensures VarintEnd(d, i, k) == Ok(i + |EncVarint(v)|)
    ensures GroupSum(EncVarint(v)) == v
    decreases v
  {
    var e := EncVarint(v);
    assert d[i] == d[i..i + |e|][0];
    if v < 128 {
      assert e[1..] == [];
    } else {
      var t := EncVarint(v / 128);
      assert e[1..] == t;
      assert d[i + 1..i + 1 + |t|] == d[i..i + |e|][1..];
      VarintReadBack(d, i + 1, v / 128, k + 1);
    }
  }

  /** Ten bytes hold any value of up to 64 bits. */
  lemma VarintFits(v: nat, width: nat)
    requires v < Modulus(width) && width <= 64
    ensures |EncVarint(v)| == VarintSize(v) <= 10
  {
    ModulusIsPow2(width);
    hide Modulus;
    EncVarintSize(v);
    Pow2Monotone(width, 70);
    VarintSizeMinimal(v, 10);
  }

  /** Reading a written varint gives the value back and stops right after it. */
  lemma VarintRoundTrip(d: Bytes, i: nat, v: nat, width: nat)
    requires i + |EncVarint(v)| <= |d| && d[i..i + |EncVarint(v)|] == EncVarint(v)
    requires v < Modulus(width) && width <= 64
    ensures Uvarint(d, i, width) == Ok((v, i + |EncVarint(v)|))
  {
    assert |EncVarint(v)| <= 10 by { VarintFits(v, width); }
    VarintReadBack(d, i, v, 0);
    ModUnique(v, Modulus(width), 0, v);
  }

  /** `d` and `e` hold the same `n` bytes at `i` and at `j`. */
  predicate SameBytes(d: Bytes, i: nat, e: Bytes, j: nat, n: nat)
  {
    i + n <= |d| && j + n <= |e| && d[i..i + n] == e[j..j + n]
  }

  lemma SameBytesAt(d: Bytes, i: nat, e: Bytes, j: nat, n: nat, k: nat)
    requires SameBytes(d, i, e, j, n) && k < n
    ensures d[i + k] == e[j + k]
  {
    assert d[i..i + n][k] == e[j..j + n][k];
  }

  lemma SameBytesPart(d: Bytes, i: nat, e: Bytes, j: nat, n: nat, from: nat, len: nat)
    requires SameBytes(d, i, e, j, n) && from + len <= n
    ensures SameBytes(d, i + from, e, j + from, len)
  {
    var x, y := d[i + from..i + from + len], e[j + from..j + from + len];
    forall k | 0 <= k < len
      ensures x[k] == y[k]
    {
      SameBytesAt(d, i, e, j, n, from + k);
    }
  }

  lemma SamePrefixPart(s: Bytes, t: Bytes, n: nat, i: nat, j: nat)
    requires i <= j <= n <= |s| && n <= |t| && t[..n] == s[..n]
    ensures SameBytes(s, i, t, i, j - i)
  {
    assert s[i..j] == s[..n][i..j];
    assert t[i..j] == t[..n][i..j];
  }

  lemma {:induction false} VarintEndLocal(d: Bytes, i: nat, e: Bytes, j: nat, k: nat)
    requires VarintEnd(d, i, k).Ok?
    requires SameBytes(d, i, e, j, VarintEnd(d, i, k).value - i)
    ensures VarintEnd(e, j, k) == Ok(VarintEnd(d, i, k).value - i + j)
    decreases 10 - k
  {
    var n := VarintEnd(d, i, k).value - i;
    SameBytesAt(d, i, e, j, n, 0);
    if d[i] >= 128 {
      SameBytesPart(d, i, e, j, n, 1, n - 1);
      VarintEndLocal(d, i + 1, e, j + 1, k + 1);
    }
  }

  /** A varint is determined by the bytes it consumes. */
  lemma UvarintLocal(d: Bytes, i: nat, e: Bytes, j: nat, width: nat)
    requires Uvarint(d, i, width).Ok?
    requires SameBytes(d, i, e, j, Uvarint(d, i, width).value.1 - i)
    ensures Uvarint(e, j, width) == Ok((Uvarint(d, i, width).value.0, Uvarint(d, i, width).value.1 - i + j))
  {
    VarintEndLocal(d, i, e, j, 0);
  }

  /** One group of a varint and what is left of it. */
  lemma EncVarintStep(v: nat)
    ensures VarintSize(v) == |EncVarint(v)|
    ensures v < 128 ==> EncVarint(v) == [v]
    ensures v >= 128 ==> EncVarint(v) == [v % 128 + 128] + EncVarint(v / 128)
  {
    EncVarintSize(v);
  }

  /** The backward writer's varint: fills the bytes just before `offset`. */
  method EncodeVarint(a: array<Byte>, offset: nat, v: nat) returns (base: nat)
    requires VarintSize(v) <= offset <= a.Length
    modifies a
    ensures base == offset - VarintSize(v) == offset - |EncVarint(v)|
    ensures a[base..offset] == EncVarint(v)
    ensures a[..base] == old(a[..base]) && a[offset..] == old(a[offset..])
  {
    hide EncVarint, VarintSize;
    EncVarintStep(v);
    base := offset - VarintSize(v);
    var o, x := base, v;
    while x >= 128
      invariant base <= o && o + |EncVarint(x)| == offset
      invariant a[base..o] + EncVarint(x) == EncVarint(v)
      invariant forall k :: 0 <= k < a.Length && !(base <= k < offset) ==> a[k] == old(a[k])
    {
      EncVarintStep(x);
      ghost var done := a[base..o];
      var group: Byte := x % 128 + 128;
      a[o] := group;
      assert a[base..o + 1] == done + [group];
      assert done + ([group] + EncVarint(x / 128)) == (done + [group]) + EncVarint(x / 128);
      x := x / 128;
      o := o + 1;
    }
    EncVarintStep(x);
    ghost var done := a[base..o];
    a[o] := x;
    assert a[base..offset] == done + [x];
  }

  // ---- Skipping one record -------------------------------------------------------------------

  /** `iNdEx += n` on 64-bit integers; a wrapped index is caught as negative. */
  function Advance(i: nat, n: nat): (r: Result<nat>)
    requires i < TWO63 && n < TWO63
    ensures r == if i + n < TWO63 then Ok(i + n) else Err(InvalidLength)
  {
    var index := Int64(i + n);
    if index < 0 then Err(InvalidLength) else Ok(index)
  }

  /** The index after the payload of a record of wire type `wireType` whose tag ends at `i`; it may lie
      beyond the end of the slice, which the callers check. Group markers have no payload. */
  function SkipPayload(s: Bytes, wireType: nat, i: nat): (r: Result<nat>)
    requires i <= |s| < TWO63
    ensures r.Ok? ==> r.value >= i
  {
    if wireType == 0 then VarintEnd(s, i, 0)
    else if wireType == 1 then Advance(i, 8)
    else if wireType == 2 then
      match Uvarint(s, i, 64)
      case Err(e) => Err(e)
      case Ok((u, j)) => if Int64(u) < 0 then Err(InvalidLength) else Advance(j, Int64(u))
    else if wireType == 3 || wireType == 4 then Ok(i)
    else if wireType == 5 then Advance(i, 4)
    else Err(IllegalWireType)
  }

  /** The length of the first record of `s`, with the groups it opens; `i` is the index reached and
      `depth` the number of groups still open. */
  function SkipFrom(s: Bytes, i: nat, depth: nat): (r: Result<nat>)
    requires |s| < TWO63
    ensures r.Ok? ==> i < r.value
    decreases |s| - i
  {
    if i >= |s| then Err(UnexpectedEOF)
    else
      match Uvarint(s, i, 64)
      case Err(e) => Err(e)
      case Ok((wire, j)) =>
        var wireType := wire % 8;
        match SkipPayload(s, wireType, j)
        case Err(e) => Err(e)
        case Ok(k) =>
          if wireType == 4 && depth == 0 then Err(UnexpectedEndOfGroup)
          else
            var open := if wireType == 3 then depth + 1 else if wireType == 4 then depth - 1 else depth;
            if open == 0 then Ok(k) else SkipFrom(s, k, open)
  }

  lemma SkipPayloadLocal(s: Bytes, t: Bytes, wireType: nat, i: nat)
    requires i <= |s| < TWO63 && |t| < TWO63
    requires SkipPayload(s, wireType, i).Ok? && SkipPayload(s, wireType, i).value <= |s|
    requires SkipPayload(s, wireType, i).value <= |t|
    requires t[..SkipPayload(s, wireType, i).value] == s[..SkipPayload(s, wireType, i).value]
    ensures SkipPayload(t, wireType, i) == SkipPayload(s, wireType, i)
  {
    var n := SkipPayload(s, wireType, i).value;
    hide VarintEnd, Uvarint, SameBytes, Int64;
    if wireType == 0 {
      SamePrefixPart(s, t, n, i, n);
      VarintEndLocal(s, i, t, i, 0);
    } else if wireType == 2 {
      var j := Uvarint(s, i, 64).value.1;
      SamePrefixPart(s, t, n, i, j);
      UvarintLocal(s, i, t, i, 64);
    }
  }

  /** A skipped record is determined by the bytes it consumes: whatever follows does not matter. */
  lemma {:induction false} SkipLocal(s: Bytes, t: Bytes, i: nat, depth: nat)
    requires |s| < TWO63 && |t| < TWO63
    requires SkipFrom(s, i, depth).Ok? && SkipFrom(s, i, depth).value <= |s|
    requires SkipFrom(s, i, depth).value <= |t|
    requires t[..SkipFrom(s, i, depth).value] == s[..SkipFrom(s, i, depth).value]
    ensures SkipFrom(t, i, depth) == SkipFrom(s, i, depth)
    decreases |s| - i
  {
    hide Uvarint, SkipPayload, SameBytes;
    var n := SkipFrom(s, i, depth).value;
    var (wire, j) := Uvarint(s, i, 64).value;
    var k := SkipPayload(s, wire % 8, j).value;
    SamePrefixPart(s, t, n, i, j);
    UvarintLocal(s, i, t, i, 64);
    assert t[..k] == s[..k] by {
      assert s[..k] == s[..n][..k];
      assert t[..k] == t[..n][..k];
    }
    SkipPayloadLocal(s, t, wire % 8, j);
    var open := if wire % 8 == 3 then depth + 1 else if wire % 8 == 4 then depth - 1 else depth;
    if open != 0 {
      SkipLocal(s, t, k, open);
    }
  }
}
