/** Two calls and one channel: the scenes of the runs in which call 0 gives its channel up and call 1 gets the
    response meant for it. */
module Scenario {
  import opened Wire
  import opened Codec
  import opened Client
  import opened Correlation

  /** The requests of the two calls, and the response to the first. */
  datatype Cast = Cast(first: Message, second: Message, response: Message)
  {
    predicate Valid() {
      && first.requestId != 0 && second.requestId != 0 && first.requestId != second.requestId
      && response.requestId == first.requestId
    }

    function Call0(p: Phase, got: seq<Chan>, put: seq<Chan>, sent: bool): Call {
      Call(first, first.requestId, p, got, put, sent, PastStore(p))
    }

    function Call1(p: Phase, got: seq<Chan>, sent: bool): Call {
      Call(second, second.requestId, p, got, [], sent, false)
    }

    /** The table with call 0's entry, with both, and with call 1's. */
    function Own(): map<nat, Entry> { map[first.requestId := Entry(0, 0)] }

    function Both(): map<nat, Entry> { map[first.requestId := Entry(0, 0), second.requestId := Entry(0, 1)] }

    function Other(): map<nat, Entry> { map[second.requestId := Entry(0, 1)] }

    function Reply(): Packet { Packet(0, response) }

    // ---- The scenes --------------------------------------------------------------------------

    function Starts(p: Phase): State { INIT.(calls := map[0 := Call0(p, [], [], false)]) }

    function BothStart(p: Phase, q: Phase, closed: bool): State {
      INIT.(calls := map[0 := Call0(p, [], [], false), 1 := Call1(q, [], false)], closed := closed)
    }

    /** Call 0 owns the channel. */
    function Alone(closed: bool, p: Phase, sent: bool): State {
      State(map[0 := Call0(p, [0], [], sent), 1 := Call1(Open, [], false)],
            if p.HasChannel? then map[] else Own(), multiset{}, map[0 := None], map[], closed, 0)
    }

    /** Call 0 has put the channel back while its entry is still in the table. */
    function Left(closed: bool, over: Phase, sent: bool): State {
      State(map[0 := Call0(over, [0], [0], sent), 1 := Call1(Open, [], false)],
            Own(), multiset{0}, map[0 := None], map[], closed, 0)
    }

    /** Call 1 has taken the channel from the pool. */
    function After(closed: bool, over: Phase, sent: bool, q: Phase): State {
      State(map[0 := Call0(over, [0], [0], sent), 1 := Call1(q, [0], q.Waiting?)],
            if q.HasChannel? then Own() else Both(), multiset{}, map[0 := None], map[], closed, 0)
    }

    /** The response to call 0 is on its way to the channel that call 1 waits on. */
    function Crossing(closed: bool, over: Phase, sent: bool, reader: Reader, slot: Option<Slot>): State {
      After(closed, over, sent, Waiting(0))
      .(table := if reader.Decoded? then Both() else Other(), readers := map[0 := reader],
        buffers := map[0 := slot], decoded := 1)
    }
  }

  ghost predicate Leads(s: State, a: Action, t: State) {
    Enabled(s, a) && Step(s, a) == t
  }

  // ---- Both calls start, and call 0 sends ----------------------------------------------------

  lemma Begin0(k: Cast)
    requires k.Valid()
    ensures Leads(INIT, Begin(0, k.first, 0, 0), k.Starts(Begun))
  {
  }

  lemma Begin1(k: Cast)
    requires k.Valid()
    ensures Leads(k.Starts(Begun), Begin(1, k.second, 0, 0), k.BothStart(Begun, Begun, false))
  {
    assert Step(k.Starts(Begun), Begin(1, k.second, 0, 0)).calls == k.BothStart(Begun, Begun, false).calls;
  }

  lemma Check0(k: Cast)
    ensures Leads(k.BothStart(Begun, Begun, false), CheckClosed(0), k.BothStart(Open, Begun, false))
  {
    assert Step(k.BothStart(Begun, Begun, false), CheckClosed(0)).calls == k.BothStart(Open, Begun, false).calls;
  }

  lemma Check1(k: Cast)
    ensures Leads(k.BothStart(Open, Begun, false), CheckClosed(1), k.BothStart(Open, Open, false))
  {
    assert Step(k.BothStart(Open, Begun, false), CheckClosed(1)).calls == k.BothStart(Open, Open, false).calls;
  }

  lemma Closes(k: Cast)
    ensures Leads(k.BothStart(Open, Open, false), Close, k.BothStart(Open, Open, true))
  {
  }

  lemma Gets0(k: Cast, closed: bool)
    ensures Leads(k.BothStart(Open, Open, closed), GetNew(0, 0), k.Alone(closed, HasChannel(0), false))
  {
    assert [] + [0] == [0];
    assert Step(k.BothStart(Open, Open, closed), GetNew(0, 0)).calls == k.Alone(closed, HasChannel(0), false).calls;
  }

  lemma Stores0(k: Cast, closed: bool)
    ensures Leads(k.Alone(closed, HasChannel(0), false), Store(0), k.Alone(closed, Stored(0), false))
  {
    var s := k.Alone(closed, HasChannel(0), false);
    assert Unreferenced(s, 0);
    assert Step(s, Store(0)).calls == k.Alone(closed, Stored(0), false).calls;
  }

  lemma Encodes0(k: Cast, closed: bool)
    ensures Leads(k.Alone(closed, Stored(0), false), EncodeAndRelease(0), k.Alone(closed, Encoded(0), false))
  {
    assert Step(k.Alone(closed, Stored(0), false), EncodeAndRelease(0)).calls == k.Alone(closed, Encoded(0), false).calls;
  }

  lemma Writes0(k: Cast, closed: bool)
    ensures Leads(k.Alone(closed, Encoded(0), false), Write(0), k.Alone(closed, Waiting(0), true))
  {
    assert Step(k.Alone(closed, Encoded(0), false), Write(0)).calls == k.Alone(closed, Waiting(0), true).calls;
  }

  // ---- Call 0 gives the channel up -----------------------------------------------------------

  /** Giving up while waiting puts the channel back before its entry is deleted. */
  lemma Abandons0(k: Cast, byClose: bool)
    ensures Leads(k.Alone(byClose, Waiting(0), true), Abandon(0, byClose), k.Left(byClose, Detached, true))
  {
    assert [] + [0] == [0];
    var t := Step(k.Alone(byClose, Waiting(0), true), Abandon(0, byClose));
    assert t.calls == k.Left(byClose, Detached, true).calls && t.pool == multiset{0};
  }

  lemma WriteFails0(k: Cast)
    ensures Leads(k.Alone(false, Encoded(0), false), WriteError(0), k.Alone(false, Failing(0), true))
  {
    assert Step(k.Alone(false, Encoded(0), false), WriteError(0)).calls == k.Alone(false, Failing(0), true).calls;
  }

  /** A send error deletes id 0, which the released request object has by then: the entry stays. */
  lemma Deletes0(k: Cast, late: bool)
    requires k.Valid()
    ensures Leads(k.Alone(false, if late then Failing(0) else Encoded(0), late), FailDelete(0, 0, late),
                  k.Alone(false, Undoing(0), late))
  {
    var s := k.Alone(false, if late then Failing(0) else Encoded(0), late);
    var t := Step(s, FailDelete(0, 0, late));
    assert t.calls == k.Alone(false, Undoing(0), late).calls && t.table == k.Own();
  }

  lemma Puts0(k: Cast, sent: bool)
    ensures Leads(k.Alone(false, Undoing(0), sent), FailPut(0), k.Left(false, Returned(SendFailed), sent))
  {
    assert [] + [0] == [0];
    var t := Step(k.Alone(false, Undoing(0), sent), FailPut(0));
    assert t.calls == k.Left(false, Returned(SendFailed), sent).calls && t.pool == multiset{0};
  }

  // ---- Call 1 takes it over ------------------------------------------------------------------

  lemma Gets1(k: Cast, closed: bool, over: Phase, sent: bool)
    ensures Leads(k.Left(closed, over, sent), GetPooled(1, 0), k.After(closed, over, sent, HasChannel(0)))
  {
    assert [] + [0] == [0];
    var t := Step(k.Left(closed, over, sent), GetPooled(1, 0));
    assert t.calls == k.After(closed, over, sent, HasChannel(0)).calls && t.pool == multiset{};
  }

  lemma Stores1(k: Cast, closed: bool, over: Phase, sent: bool)
    requires k.Valid()
    ensures Leads(k.After(closed, over, sent, HasChannel(0)), Store(1), k.After(closed, over, sent, Stored(0)))
  {
    var s := k.After(closed, over, sent, HasChannel(0));
    assert RefAt(s, InTable(k.first.requestId)) == Some(Ref(0, 0, k.first.requestId));
    assert !Unreferenced(s, 0);
    hide Unreferenced, RefAt;
    var t := Step(s, Store(1));
    assert t.calls == k.After(closed, over, sent, Stored(0)).calls && t.table == k.Both();
  }

  lemma Encodes1(k: Cast, closed: bool, over: Phase, sent: bool)
    ensures Leads(k.After(closed, over, sent, Stored(0)), EncodeAndRelease(1), k.After(closed, over, sent, Encoded(0)))
  {
    var t := Step(k.After(closed, over, sent, Stored(0)), EncodeAndRelease(1));
    assert t.calls == k.After(closed, over, sent, Encoded(0)).calls;
  }

  lemma Writes1(k: Cast, closed: bool, over: Phase, sent: bool)
    ensures Leads(k.After(closed, over, sent, Encoded(0)), Write(1), k.After(closed, over, sent, Waiting(0)))
  {
    var t := Step(k.After(closed, over, sent, Encoded(0)), Write(1));
    assert t.calls == k.After(closed, over, sent, Waiting(0)).calls;
  }

  // ---- The response to call 0 reaches call 1 -------------------------------------------------

  lemma Decodes(k: Cast, closed: bool, over: Phase, sent: bool)
    ensures Leads(k.After(closed, over, sent, Waiting(0)), Decode(0, k.response),
                  k.Crossing(closed, over, sent, Decoded(k.Reply()), None))
  {
  }

  /** The response finds call 0's entry, and through it the channel that call 1 waits on. */
  lemma LooksUp(k: Cast, closed: bool, over: Phase, sent: bool)
    requires k.Valid()
    ensures Leads(k.Crossing(closed, over, sent, Decoded(k.Reply()), None), Lookup(0),
                  k.Crossing(closed, over, sent, Holding(k.Reply(), Entry(0, 0)), None))
  {
    var s, x := k.Crossing(closed, over, sent, Decoded(k.Reply()), None), Holding(k.Reply(), Entry(0, 0));
    assert k.Both() - {k.first.requestId} == k.Other();
    assert s.readers[0 := x] == map[0 := x];
  }

  lemma Delivers(k: Cast, closed: bool, over: Phase, sent: bool)
    ensures Leads(k.Crossing(closed, over, sent, Holding(k.Reply(), Entry(0, 0)), None), Deliver(0),
                  k.Crossing(closed, over, sent, Idle, Some(Slot(k.Reply(), 0))))
  {
    var s := k.Crossing(closed, over, sent, Holding(k.Reply(), Entry(0, 0)), None);
    assert s.readers[0 := Idle] == map[0 := Idle];
    assert s.buffers[0 := Some(Slot(k.Reply(), 0))] == map[0 := Some(Slot(k.Reply(), 0))];
  }

  /** Call 1 receives the response to call 0. */
  lemma Receives1(k: Cast, closed: bool, over: Phase, sent: bool)
    ensures var s := k.Crossing(closed, over, sent, Idle, Some(Slot(k.Reply(), 0)));
            && Enabled(s, Receive(1))
            && 1 in Step(s, Receive(1)).calls
            && Step(s, Receive(1)).calls[1].req == k.second
            && Got(Step(s, Receive(1)).calls[1].phase) == Some(k.Reply())
            && 0 in Step(s, Receive(1)).calls
            && Step(s, Receive(1)).calls[0].req == k.first
            && (forall c :: c in Step(s, Receive(1)).calls ==> c == 0 || c == 1)
  {
  }
}
