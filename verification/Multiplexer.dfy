/** The client multiplexer: opening streams under failures, and the batchers in front of them. */
module Multiplexer {
  import opened Wire
  import opened Balancer

  // ---- Opening streams -----------------------------------------------------------------------

  /** The streams among the outcomes of `OpenStream`; `None` is a failure. */
  function Opened(outcomes: seq<Option<StreamId>>): seq<StreamId>
  {
    if outcomes == [] then []
    else
      var n := |outcomes| - 1;
      Opened(outcomes[..n]) + (match outcomes[n] case Some(s) => [s] case None => [])
  }

  lemma {:induction false} OpenedPrefix(outcomes: seq<Option<StreamId>>, n: nat)
    requires n <= |outcomes|
    ensures Opened(outcomes[..n]) <= Opened(outcomes)
    decreases |outcomes|
  {
    if n < |outcomes| {
      var m := |outcomes| - 1;
      OpenedPrefix(outcomes[..m], n);
      assert outcomes[..m][..n] == outcomes[..n];
    } else {
      assert outcomes[..n] == outcomes;
    }
  }

  /** The loop of `start` on the outcomes seen so far. A failure decrements the `uint16` index, at 0 to
      65535, and the loop's increment brings it back. `done` is false while the loop still tries. */
  method Start(c: nat, outcomes: seq<Option<StreamId>>, balancer: BalancerImpl) returns (done: bool)
    requires c < 0x1_0000 && balancer.Valid() && |balancer.Streams()| + c < TWO32
    modifies balancer`snapshot
    ensures balancer.Valid()
    ensures done <==> |Opened(outcomes)| >= c
    ensures done ==> balancer.Streams() == old(balancer.Streams()) + Opened(outcomes)[..c]
    ensures !done ==> balancer.Streams() == old(balancer.Streams()) + Opened(outcomes)
  {
    var i, k := 0, 0;
    ghost var before := balancer.Streams();
    assert outcomes[..0] == [] && before + [] == before;
    while i < c
      invariant k <= |outcomes| && i == |Opened(outcomes[..k])| <= c
      invariant balancer.Valid() && balancer.Streams() == before + Opened(outcomes[..k])
      decreases |outcomes| - k
    {
      if k == |outcomes| {
        assert outcomes[..k] == outcomes;
        return false;
      }
      assert outcomes[..k + 1][..k] == outcomes[..k];
      var s := outcomes[k];
      k := k + 1;
      if s.None? {
        i := (i - 1) % 0x1_0000;
      } else {
        balancer.AddStream(s.value);
      }
      i := (i + 1) % 0x1_0000;
    }
    OpenedPrefix(outcomes, k);
    done := true;
  }

  // ---- Batchers ------------------------------------------------------------------------------

  type Frame = (StreamId, Bytes)

  /** Batchers under any interleaving. The critical section and the stream write are separate steps, and the
      write may fail. Losing the race in `GetBatcher` makes another batcher for a stream, so any number may
      serve one stream and any of them may be used at any time. */
  datatype State = State(
    batchers: map<nat, Frame>,     // every batcher ever made: its stream and its buffer
    pending: multiset<Frame>,      // data taken out of a critical section, not yet written
    submitted: multiset<Frame>,
    written: seq<Frame>,
    failed: multiset<Frame>)       // data whose write reported an error

  datatype Action =
    | Make(b: nat, st: StreamId)
    | LockWrite(b: nat, data: Bytes)
    | LockFlush(b: nat)
    | WriteOut(st: StreamId, data: Bytes, ok: bool)

  predicate Enabled(s: State, a: Action) {
    match a
    case Make(b, _) => b !in s.batchers
    case LockWrite(b, _) => b in s.batchers
    case LockFlush(b) => b in s.batchers
    case WriteOut(st, data, _) => (st, data) in s.pending
  }

  function Step(s: State, a: Action): State
    requires Enabled(s, a)
  {
    match a
    case Make(b, st) => s.(batchers := s.batchers[b := (st, [])])
    case LockWrite(b, data) =>
      var (st, buf) := s.batchers[b];
      var t := s.(submitted := s.submitted + multiset{(st, data)});
      if buf == [] then t.(pending := t.pending + multiset{(st, data)})
      else t.(batchers := t.batchers[b := (st, buf + data)])
    case LockFlush(b) =>
      var (st, buf) := s.batchers[b];
      if buf == [] then s
      else s.(batchers := s.batchers[b := (st, [])], pending := s.pending + multiset{(st, buf)})
    case WriteOut(st, data, ok) =>
      var t := s.(pending := s.pending - multiset{(st, data)});
      if ok then t.(written := s.written + [(st, data)]) else t.(failed := s.failed + multiset{(st, data)})
  }

  function Concat(datas: seq<Bytes>): Bytes {
    if datas == [] then [] else Concat(datas[..|datas| - 1]) + datas[|datas| - 1]
  }

  /** `datas` handed to batcher `b` one after the other. */
  function Writes(s: State, b: nat, datas: seq<Bytes>): (t: State)
    requires b in s.batchers
    ensures b in t.batchers
  {
    if datas == [] then s else Step(Writes(s, b, datas[..|datas| - 1]), LockWrite(b, datas[|datas| - 1]))
  }

  /** A buffer that is not empty takes data in order, and a flush hands it all over in one piece. */
  lemma {:induction false} BufferedInOrder(s: State, b: nat, datas: seq<Bytes>)
    requires b in s.batchers && s.batchers[b].1 != []
    ensures var (st, buf) := s.batchers[b];
            var t := Writes(s, b, datas);
            && t.batchers[b] == (st, buf + Concat(datas)) && t.pending == s.pending && t.written == s.written
            && Step(t, LockFlush(b)).batchers[b] == (st, [])
            && Step(t, LockFlush(b)).pending == s.pending + multiset{(st, buf + Concat(datas))}
  {
    if datas != [] {
      var n := |datas| - 1;
      BufferedInOrder(s, b, datas[..n]);
      var buf := s.batchers[b].1;
      assert buf + (Concat(datas[..n]) + datas[n]) == (buf + Concat(datas[..n])) + datas[n];
    } else {
      assert s.batchers[b].1 + [] == s.batchers[b].1;
    }
  }

  /** What the streams have taken, one element a `Write` call; the rest is history. */
  class Wires {
    var written: seq<Frame>
    ghost var submitted: multiset<Frame>
    ghost var failed: multiset<Frame>

    /** One `Write` call on a stream, which takes the data or reports an error. */
    method Put(st: StreamId, data: Bytes, accepts: bool)
      modifies this
      ensures submitted == old(submitted)
      ensures written == old(written) + if accepts then [(st, data)] else []
      ensures failed == old(failed) + if accepts then multiset{} else multiset{(st, data)}
    {
      if accepts {
        written := written + [(st, data)];
      } else {
        failed := failed + multiset{(st, data)};
      }
    }
  }

  class Batcher {
    const stream: StreamId
    var buf: Bytes

    constructor (stream: StreamId)
      ensures this.stream == stream && buf == []
    {
      this.stream := stream;
      buf := [];
    }

    /** This batcher, under the name `b`, and the streams, as a state of the interleaving model. */
    ghost function View(b: nat, wires: Wires): State
      reads this, wires
    {
      var own: Frame := (stream, buf);
      var batchers: map<nat, Frame> := map[b := own];
      State(batchers, multiset{}, wires.submitted, wires.written, wires.failed)
    }

    /** The critical section, then the stream write if the buffer was empty. */
    method Write(data: Bytes, wires: Wires, accepts: bool, ghost b: nat) returns (ok: bool)
      modifies this, wires
      ensures ok == (old(buf) != [] || accepts)
      ensures old(buf) == [] ==>
                View(b, wires) == Step(Step(old(View(b, wires)), LockWrite(b, data)), WriteOut(stream, data, accepts))
      ensures old(buf) != [] ==> View(b, wires) == Step(old(View(b, wires)), LockWrite(b, data))
    {
      wires.submitted := wires.submitted + multiset{(stream, data)};
      if |buf| == 0 {
        wires.Put(stream, data, accepts);
        return accepts;
      }
      buf := buf + data;
      return true;
    }

    method Flush(wires: Wires, accepts: bool, ghost b: nat) returns (ok: bool)
      modifies this, wires
      ensures ok == (old(buf) == [] || accepts)
      ensures old(buf) == [] ==> View(b, wires) == Step(old(View(b, wires)), LockFlush(b))
      ensures old(buf) != [] ==>
                View(b, wires) == Step(Step(old(View(b, wires)), LockFlush(b)), WriteOut(stream, old(buf), accepts))
    {
      if |buf| == 0 { return true; }
      var data := buf;
      buf := [];
      wires.Put(stream, data, accepts);
      return accepts;
    }
  }

  ghost predicate Runs(s: State, actions: seq<Action>, t: State)
    decreases |actions|
  {
    if actions == [] then s == t
    else Enabled(s, actions[0]) && Runs(Step(s, actions[0]), actions[1..], t)
  }

  const IDLE: State := State(map[], multiset{}, multiset{}, [], multiset{})

  ghost predicate PassThrough(s: State) {
    && (forall b :: b in s.batchers ==> s.batchers[b].1 == [])
    && s.submitted == multiset(s.written) + s.pending + s.failed
  }

  lemma PassThroughStep(s: State, a: Action)
    requires PassThrough(s) && Enabled(s, a)
    ensures PassThrough(Step(s, a))
  {
    if a.WriteOut? {
      assert multiset(s.written + [(a.st, a.data)]) == multiset(s.written) + multiset{(a.st, a.data)};
    }
  }

  lemma {:induction false} PassThroughKept(s: State, actions: seq<Action>, t: State)
    requires PassThrough(s) && Runs(s, actions, t)
    ensures PassThrough(t)
    decreases |actions|
  {
    hide PassThrough, Step, Enabled;
    if actions != [] {
      PassThroughStep(s, actions[0]);
      PassThroughKept(Step(s, actions[0]), actions[1..], t);
    }
  }

  /** In every interleaving all buffers stay empty, and each frame handed to any batcher, duplicates included,
      has been written to its stream exactly once, has been refused by it once, or is about to be written. */
  lemma BatchersPassThrough(actions: seq<Action>, t: State)
    requires Runs(IDLE, actions, t)
    ensures forall b :: b in t.batchers ==> t.batchers[b].1 == []
    ensures t.submitted == multiset(t.written) + t.pending + t.failed
  {
    PassThroughKept(IDLE, actions, t);
  }
}
