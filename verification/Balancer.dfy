/** The stream balancer: a 32-bit counter that wraps over copy-on-write snapshots of the stream list. */
module Balancer {
  import opened Wire

  type StreamId = nat

  /** The index picked by the `i`-th value of the counter over `n` streams. */
  function Pick(i: nat, n: nat): (j: nat)
    requires n > 0
    ensures j < n
  {
    (i % TWO32) % n
  }

  /** The counter may be taken modulo 2^32 at any time. */
  lemma CounterWraps(x: nat, n: nat)
    requires n > 0
    ensures Pick(x % TWO32, n) == Pick(x, n)
    ensures (x % TWO32 + 1) % TWO32 == (x + 1) % TWO32
  {
    ModUnique(x % TWO32, TWO32, 0, x % TWO32);
  }

  class BalancerImpl {
    var snapshot: array<StreamId>
    var counter: nat

    ghost predicate Valid()
      reads this
    {
      counter < TWO32 && snapshot.Length < TWO32
    }

    function Streams(): seq<StreamId>
      reads this, snapshot
    {
      snapshot[..]
    }

    constructor ()
      ensures Valid() && Streams() == [] && counter == 0 && fresh(snapshot)
    {
      snapshot := new StreamId[0];
      counter := 0;
    }

    method GetStream() returns (r: Option<StreamId>)
      requires Valid()
      modifies this`counter
      ensures Valid()
      ensures Streams() == [] ==> r == None && counter == old(counter)
      ensures Streams() != [] ==>
                r == Some(Streams()[Pick(old(counter), |Streams()|)]) && counter == (old(counter) + 1) % TWO32
    {
      if snapshot.Length == 0 { return None; }
      counter := (counter + 1) % TWO32;
      var idx := (counter - 1) % TWO32;
      r := Some(snapshot[idx % snapshot.Length]);
    }

    /** The new list is built aside; whoever still reads the old snapshot sees it unchanged. */
    method AddStream(stream: StreamId)
      requires Valid() && snapshot.Length + 1 < TWO32
      modifies this`snapshot
      ensures Valid() && fresh(snapshot)
      ensures Streams() == old(Streams()) + [stream]
      ensures old(snapshot)[..] == old(snapshot[..])
    {
      var current := snapshot;
      var n := current.Length;
      var newStreams := new StreamId[n + 1];
      for i := 0 to n
        invariant snapshot == current && fresh(newStreams)
        invariant newStreams[..i] == current[..i]
      {
        newStreams[i] := current[i];
      }
      newStreams[n] := stream;
      snapshot := newStreams;
    }

    method Reset() returns (closed: seq<StreamId>)
      modifies this
      ensures Valid() && fresh(snapshot) && Streams() == [] && counter == 0
      ensures closed == old(Streams())
    {
      counter := 0;
      var before := snapshot;
      snapshot := new StreamId[0];
      closed := [];
      for i := 0 to before.Length
        invariant closed == before[..i]
      {
        closed := closed + [before[i]];
      }
    }

    /** Any number of picks in a row over a fixed list. */
    method PickMany(count: nat) returns (picks: seq<StreamId>)
      requires Valid() && Streams() != []
      modifies this`counter
      ensures Valid() && |picks| == count && counter == (old(counter) + count) % TWO32
      ensures forall k :: 0 <= k < count ==> picks[k] == Streams()[Pick(old(counter) + k, |Streams()|)]
      ensures Distinct(Streams()) ==>
                forall j :: 0 <= j < |Streams()| ==>
                  multiset(picks)[Streams()[j]]
                  == Count(old(counter) + count, |Streams()|, j) - Count(old(counter), |Streams()|, j)
    {
      hide Pick;
      picks := [];
      ghost var c0 := counter;
      for k := 0 to count
        invariant Valid() && |picks| == k && counter == (c0 + k) % TWO32
        invariant forall i :: 0 <= i < k ==> picks[i] == Streams()[Pick(c0 + i, |Streams()|)]
      {
        CounterWraps(c0 + k, |Streams()|);
        var r := GetStream();
        picks := picks + [r.value];
      }
      if Distinct(Streams()) {
        forall j | 0 <= j < |Streams()|
          ensures multiset(picks)[Streams()[j]] == Count(c0 + count, |Streams()|, j) - Count(c0, |Streams()|, j)
        {
          PicksAreCounted(Streams(), picks, c0, j);
        }
      }
    }
  }

  // ---- Fairness ------------------------------------------------------------------------------

  /** How many of the counter values in `[0, m)` pick stream `j` of `n`. */
  function Count(m: nat, n: nat, j: nat): nat
    requires n > 0
  {
    if m == 0 then 0 else Count(m - 1, n, j) + (if Pick(m - 1, n) == j then 1 else 0)
  }

  ghost predicate Distinct(streams: seq<StreamId>) {
    forall i, j :: 0 <= i < j < |streams| ==> streams[i] != streams[j]
  }

  /** How often a stream occurs among consecutive picks is the difference of two counts. */
  lemma {:induction false} PicksAreCounted(streams: seq<StreamId>, picks: seq<StreamId>, c: nat, j: nat)
    requires Distinct(streams) && j < |streams|
    requires forall k :: 0 <= k < |picks| ==> picks[k] == streams[Pick(c + k, |streams|)]
    ensures multiset(picks)[streams[j]] == Count(c + |picks|, |streams|, j) - Count(c, |streams|, j)
  {
    hide Pick;
    if picks != [] {
      var n := |picks| - 1;
      assert picks == picks[..n] + [picks[n]];
      PicksAreCounted(streams, picks[..n], c, j);
      assert picks[n] == streams[Pick(c + n, |streams|)];
    }
  }

  lemma DivStep(m: nat, n: nat)
    requires m > 0 && n > 0
    ensures m % n == 0 ==> m / n == (m - 1) / n + 1 && (m - 1) % n == n - 1
    ensures m % n != 0 ==> m / n == (m - 1) / n && (m - 1) % n == m % n - 1
  {
    var q, r := m / n, m % n;
    assert m == q * n + r;
    if r == 0 {
      assert m - 1 == (q - 1) * n + (n - 1);
      ModUnique(m - 1, n, q - 1, n - 1);
    } else {
      ModUnique(m - 1, n, q, r - 1);
    }
  }

  /** Below one wrap, every stream has been picked `m / n` times, the first `m % n` once more. */
  lemma {:induction false} CountBelowWrap(m: nat, n: nat, j: nat)
    requires n > 0 && j < n && m <= TWO32
    ensures Count(m, n, j) == m / n + (if j < m % n then 1 else 0)
  {
    if m == 0 {
      ModUnique(0, n, 0, 0);
    } else {
      CountBelowWrap(m - 1, n, j);
      DivStep(m, n);
      ModUnique(m - 1, TWO32, 0, m - 1);
    }
  }

  /** Whole wraps repeat the first one. */
  lemma {:induction false} CountWraps(q: nat, m: nat, n: nat, j: nat)
    requires n > 0
    ensures Count(q * TWO32 + m, n, j) == Count(q * TWO32, n, j) + Count(m, n, j)
  {
    if m > 0 {
      CountWraps(q, m - 1, n, j);
      ModAddMultiple(m - 1, q, TWO32);
    }
  }

  lemma {:induction false} CountWholeWraps(q: nat, n: nat, j: nat)
    requires n > 0
    ensures Count(q * TWO32, n, j) == q * Count(TWO32, n, j)
  {
    if q > 0 {
      CountWholeWraps(q - 1, n, j);
      CountWraps(q - 1, TWO32, n, j);
      assert q * TWO32 == (q - 1) * TWO32 + TWO32;
      Distribute(q - 1, 1, Count(TWO32, n, j));
    }
  }

  /** Any number of picks from counter 0, in closed form. */
  lemma CountClosedForm(m: nat, n: nat, j: nat)
    requires n > 0 && j < n
    ensures var q, r := m / TWO32, m % TWO32;
            Count(m, n, j) == q * (TWO32 / n + (if j < TWO32 % n then 1 else 0)) + r / n + (if j < r % n then 1 else 0)
  {
    var q, r := m / TWO32, m % TWO32;
    CountWraps(q, r, n, j);
    CountWholeWraps(q, n, j);
    CountBelowWrap(TWO32, n, j);
    CountBelowWrap(r, n, j);
    assert m == q * TWO32 + r;
  }

  /** Any `n` consecutive picks that do not cross a wrap hit each stream exactly once. */
  lemma WindowHitsEachOnce(c: nat, n: nat, j: nat)
    requires n > 0 && j < n && c + n <= TWO32
    ensures Count(c + n, n, j) == Count(c, n, j) + 1
  {
    hide Count;
    CountBelowWrap(c, n, j);
    CountBelowWrap(c + n, n, j);
    var q, r := c / n, c % n;
    Distribute(q, 1, n);
    assert c + n == (q + 1) * n + r;
    ModUnique(c + n, n, q + 1, r);
  }

  /** `m` picks from counter 0 leave any two streams at most one apart per wrap, and one more. */
  lemma FairUpToWraps(m: nat, n: nat, j: nat, k: nat)
    requires n > 0 && j < n && k < n
    ensures Count(m, n, j) <= Count(m, n, k) + 1 + m / TWO32
  {
    hide Count;
    CountClosedForm(m, n, j);
    CountClosedForm(m, n, k);
    var q, a := m / TWO32, TWO32 / n;
    Distribute(a, 1, q);
    assert q * (a + 1) == q * a + q;
  }

  ghost predicate Even(n: nat)
    requires n > 0
  {
    forall m: nat, j: nat, k: nat :: j < n && k < n ==> Count(m, n, j) <= Count(m, n, k) + 1
  }

  /** Picks stay even over every wrap exactly when the number of streams divides 2^32. */
  lemma EvenIffDivides(n: nat)
    requires n > 0
    ensures Even(n) <==> TWO32 % n == 0
  {
    if TWO32 % n == 0 {
      forall m: nat, j: nat, k: nat | j < n && k < n
        ensures Count(m, n, j) <= Count(m, n, k) + 1
      {
        CountClosedForm(m, n, j);
        CountClosedForm(m, n, k);
      }
    } else {
      var m := 2 * TWO32;
      CountClosedForm(m, n, 0);
      CountClosedForm(m, n, n - 1);
      assert m / TWO32 == 2 && m % TWO32 == 0;
      ModUnique(0, n, 0, 0);
      assert Count(m, n, 0) == Count(m, n, n - 1) + 2;
    }
  }

  /** The 32 streams of a connection are picked evenly for ever. */
  lemma ThirtyTwoStreamsAreEven()
    ensures Even(32)
  {
    EvenIffDivides(32);
  }
}
