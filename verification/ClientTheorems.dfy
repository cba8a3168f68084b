/** What holds in every run of the client: who gets which response. */
module ClientTheorems {
  import opened Codec
  import opened Client
  import opened Correlation
  import opened Orderliness

  // ---- Each decoded response is in one place -------------------------------------------------

  ghost predicate Unique(s: State) {
    && (forall x :: PacketAt(s, x).Some? ==> PacketAt(s, x).value.serial < s.decoded)
    && (forall x, y :: x != y && PacketAt(s, x).Some? && PacketAt(s, y).Some? ==>
          PacketAt(s, x).value.serial != PacketAt(s, y).value.serial)
  }

  /** Nothing moves, or things only disappear. */
  lemma UniqueShrinks(s: State, t: State)
    requires Unique(s) && t.decoded == s.decoded
    requires forall x :: PacketAt(t, x).None? || PacketAt(t, x) == PacketAt(s, x)
    ensures Unique(t)
  {
  }

  /** One response moves from `x` to the free place `y`. */
  lemma UniqueMoves(s: State, t: State, x: Place, y: Place)
    requires Unique(s) && t.decoded == s.decoded && x != y
    requires PacketAt(t, x).None? && PacketAt(t, y) == PacketAt(s, x)
    requires forall z :: z != x && z != y ==> PacketAt(t, z) == PacketAt(s, z)
    ensures Unique(t)
  {
  }

  lemma UniqueReceive(s: State, c: CallId)
    requires Unique(s) && Enabled(s, Receive(c))
    ensures Unique(Step(s, Receive(c)))
  {
    UniqueMoves(s, Step(s, Receive(c)), InChannel(s.calls[c].phase.ch), AtCall(c));
  }

  lemma UniqueDecode(s: State, r: ReaderId, msg: Message)
    requires Unique(s) && Enabled(s, Decode(r, msg))
    ensures Unique(Step(s, Decode(r, msg)))
  {
    var t := Step(s, Decode(r, msg));
    assert forall x :: x != AtReader(r) ==> PacketAt(t, x) == PacketAt(s, x);
  }

  lemma UniqueDeliver(s: State, r: ReaderId)
    requires Unique(s) && Enabled(s, Deliver(r))
    ensures Unique(Step(s, Deliver(r)))
  {
    var e := ReaderOf(s.readers, r).entry;
    if s.buffers[e.ch].None? {
      UniqueMoves(s, Step(s, Deliver(r)), AtReader(r), InChannel(e.ch));
    } else {
      UniqueShrinks(s, Step(s, Deliver(r)));
    }
  }

  lemma QuietStarting(s: State, a: Action, x: Place)
    requires Enabled(s, a) && Starting(a)
    ensures PacketAt(Step(s, a), x).None? || PacketAt(Step(s, a), x) == PacketAt(s, x)
  {
  }

  lemma QuietSending(s: State, a: Action, x: Place)
    requires Enabled(s, a) && Sending(a)
    ensures PacketAt(Step(s, a), x).None? || PacketAt(Step(s, a), x) == PacketAt(s, x)
  {
  }

  predicate Moves(a: Action) {
    a.Receive? || a.Decode? || a.Deliver?
  }

  lemma QuietFinishing(s: State, a: Action, x: Place)
    requires Enabled(s, a) && Finishing(a) && !a.Receive?
    ensures PacketAt(Step(s, a), x).None? || PacketAt(Step(s, a), x) == PacketAt(s, x)
  {
    match a
    case PutBack(c) =>
    case Abandon(c, _) =>
    case AbandonDelete(c) =>
  }

  lemma QuietLookup(s: State, r: ReaderId, x: Place)
    requires Enabled(s, Lookup(r))
    ensures PacketAt(Step(s, Lookup(r)), x).None? || PacketAt(Step(s, Lookup(r)), x) == PacketAt(s, x)
  {
  }

  lemma QuietFlags(s: State, a: Action, x: Place)
    requires Enabled(s, a) && (a.Close? || a.DropPooled?)
    ensures PacketAt(Step(s, a), x) == PacketAt(s, x)
  {
  }

  /** Steps other than decoding, delivering and receiving move no response. */
  lemma Quiet(s: State, a: Action, x: Place)
    requires Enabled(s, a) && !Moves(a)
    ensures PacketAt(Step(s, a), x).None? || PacketAt(Step(s, a), x) == PacketAt(s, x)
  {
    hide Step, PacketAt, Enabled;
    if Starting(a) {
      QuietStarting(s, a, x);
    } else if Sending(a) {
      QuietSending(s, a, x);
    } else if Finishing(a) {
      QuietFinishing(s, a, x);
    } else if a.Lookup? {
      QuietLookup(s, a.r, x);
    } else {
      QuietFlags(s, a, x);
    }
  }

  lemma UniqueQuiet(s: State, a: Action)
    requires Unique(s) && Enabled(s, a) && !Moves(a)
    ensures Unique(Step(s, a))
  {
    var t := Step(s, a);
    assert t.decoded == s.decoded;
    hide Step, PacketAt, Enabled;
    forall x
      ensures PacketAt(t, x).None? || PacketAt(t, x) == PacketAt(s, x)
    {
      Quiet(s, a, x);
    }
    UniqueShrinks(s, t);
  }

  lemma UniqueStep(s: State, a: Action)
    requires Unique(s) && Enabled(s, a)
    ensures Unique(Step(s, a))
  {
    hide Unique, Step;
    match a
    case Receive(c) => UniqueReceive(s, c);
    case Decode(r, msg) => UniqueDecode(s, r, msg);
    case Deliver(r) => UniqueDeliver(s, r);
    case _ => UniqueQuiet(s, a);
  }

  // ---- Whole runs ----------------------------------------------------------------------------

  ghost predicate Good(s: State) {
    Linear(s) && Unique(s) && Correlated(s)
  }

  lemma GoodStep(s: State, a: Action)
    requires Good(s) && Enabled(s, a)
    ensures Good(Step(s, a))
  {
    hide Linear, Unique, Correlated, Step, Enabled;
    LinearStep(s, a);
    UniqueStep(s, a);
    CorrelatedStep(s, a);
  }

  lemma {:induction false} RunKeepsGood(s: State, actions: seq<Action>, t: State)
    requires Good(s) && Runs(s, actions, t)
    ensures Good(t)
    decreases |actions|
  {
    hide Good, Step, Enabled;
    if actions != [] {
      GoodStep(s, actions[0]);
      RunKeepsGood(Step(s, actions[0]), actions[1..], t);
    }
  }

  lemma RunIsGood(actions: seq<Action>, t: State)
    requires Runs(INIT, actions, t)
    ensures Good(t)
  {
    assert Good(INIT);
    RunKeepsGood(INIT, actions, t);
  }

  /** Channel linearity, in every run: a call that has returned put back exactly what it got, at most one
      channel; no two calls own the same channel and none is in the pool twice or while owned; and no
      decoded response reaches two calls. */
  lemma ChannelLinearity(actions: seq<Action>, t: State)
    requires Runs(INIT, actions, t)
    ensures forall c :: c in t.calls && t.calls[c].phase.Returned? ==>
              t.calls[c].put == t.calls[c].got && |t.calls[c].got| == if t.calls[c].phase.outcome.Rejected? then 0 else 1
    ensures forall c, d :: c != d && Channel(t.calls, c).Some? ==> Channel(t.calls, c) != Channel(t.calls, d)
    ensures forall c :: Channel(t.calls, c).Some? ==> Channel(t.calls, c).value !in t.pool
    ensures forall ch :: t.pool[ch] <= 1
    ensures forall c, d :: c != d && PacketAt(t, AtCall(c)).Some? && PacketAt(t, AtCall(d)).Some? ==>
              PacketAt(t, AtCall(c)).value.serial != PacketAt(t, AtCall(d)).value.serial
  {
    RunIsGood(actions, t);
    forall c | c in t.calls && t.calls[c].phase.Returned?
      ensures t.calls[c].put == t.calls[c].got
              && |t.calls[c].got| == if t.calls[c].phase.outcome.Rejected? then 0 else 1
    {
      assert Accounted(t.calls[c]);
    }
  }

  /** In every run, whatever the peer sends and whatever is cancelled or fails: a call that stored a channel
      nothing referred to gets a response that bears the id of its request. */
  lemma CleanReplyHasOwnId(actions: seq<Action>, t: State, c: CallId)
    requires Runs(INIT, actions, t) && c in t.calls && t.calls[c].clean && Got(t.calls[c].phase).Some?
    ensures Got(t.calls[c].phase).value.msg.requestId == t.calls[c].req.requestId
  {
    RunIsGood(actions, t);
    assert Answered(t.calls[c]);
  }

  /** In every run such a call's response is not dropped at the channel: when a reader comes to deliver it,
      the channel is empty. */
  lemma CleanResponseIsDelivered(actions: seq<Action>, t: State, r: ReaderId)
    requires Runs(INIT, actions, t) && Enabled(t, Deliver(r))
    requires var e := ReaderOf(t.readers, r).entry;
             e.origin in t.calls && t.calls[e.origin].clean && Keeper(t.calls, e.origin, e.ch)
    ensures t.buffers[ReaderOf(t.readers, r).entry.ch].None?
  {
    RunIsGood(actions, t);
    CleanChannelIsEmpty(t, r);
  }

  lemma {:induction false} RunKeepsOrder(s: State, actions: seq<Action>, t: State)
    requires Good(s) && Orderly(s, false) && Runs(s, actions, t) && forall a :: a in actions ==> !GivesUp(a, false)
    ensures Good(t) && Orderly(t, false)
    decreases |actions|
  {
    hide Linear, Unique, Correlated, Orderly, Step, Enabled;
    if actions != [] {
      assert actions[0] in actions;
      GoodStep(s, actions[0]);
      OrderlyStep(s, actions[0], false);
      RunKeepsOrder(Step(s, actions[0]), actions[1..], t);
    }
  }

  /** Correlation safety: in every run without cancellation, close during a wait, or send errors, even with
      colliding ids and an arbitrary peer, every channel in the table or in a reader's hands is empty and
      kept by the call that stored it under that id, so the branch of the channel send that drops a response
      is never taken, and every response received bears its request's id. */
  lemma CorrelationSafety(actions: seq<Action>, t: State)
    requires Runs(INIT, actions, t) && forall a :: a in actions ==> !GivesUp(a, false)
    ensures forall x :: RefAt(t, x).Some? ==>
              var r := RefAt(t, x).value;
              Keeper(t.calls, r.origin, r.ch) && t.calls[r.origin].req.requestId == r.id
              && (x.InChannel? || RefAt(t, InChannel(r.ch)).None?)
    ensures OwnIds(t)
  {
    assert Good(INIT) && Orderly(INIT, false);
    RunKeepsOrder(INIT, actions, t);
    forall x | RefAt(t, x).Some?
      ensures var r := RefAt(t, x).value;
              Keeper(t.calls, r.origin, r.ch) && t.calls[r.origin].req.requestId == r.id
              && (x.InChannel? || RefAt(t, InChannel(r.ch)).None?)
    {
      assert OrderlyAt(t, x, false) && Known(t.calls, RefAt(t, x).value);
      if !x.InChannel? {
        OrderlyChannelIsEmpty(t, x);
      }
    }
  }

  // ---- Closing, cancelling and full channels -------------------------------------------------

  /** A call that has got no further than the closed check. */
  predicate Shut(k: Call) {
    (k.phase.Begun? || k.phase == Returned(Rejected)) && !k.sent && k.got == []
  }

  lemma ShutStarting(s: State, a: Action, c: CallId)
    requires Enabled(s, a) && Starting(a) && s.closed && (c in s.calls ==> Shut(s.calls[c]))
    ensures Step(s, a).closed && (c in Step(s, a).calls ==> Shut(Step(s, a).calls[c]))
  {
    hide Unreferenced;
  }

  lemma ShutSending(s: State, a: Action, c: CallId)
    requires Enabled(s, a) && Sending(a) && s.closed && (c in s.calls ==> Shut(s.calls[c]))
    ensures Step(s, a).closed && (c in Step(s, a).calls ==> Shut(Step(s, a).calls[c]))
  {
  }

  lemma ShutFinishing(s: State, a: Action, c: CallId)
    requires Enabled(s, a) && Finishing(a) && s.closed && (c in s.calls ==> Shut(s.calls[c]))
    ensures Step(s, a).closed && (c in Step(s, a).calls ==> Shut(Step(s, a).calls[c]))
  {
  }

  lemma ShutStep(s: State, a: Action, c: CallId)
    requires Enabled(s, a) && s.closed && (c in s.calls ==> Shut(s.calls[c]))
    ensures Step(s, a).closed && (c in Step(s, a).calls ==> Shut(Step(s, a).calls[c]))
  {
    if Starting(a) {
      hide Step, Enabled;
      ShutStarting(s, a, c);
    } else if Sending(a) {
      hide Step, Enabled;
      ShutSending(s, a, c);
    } else if Finishing(a) {
      hide Step, Enabled;
      ShutFinishing(s, a, c);
    } else {
      assert Step(s, a).calls == s.calls && Step(s, a).closed;
    }
  }

  /** A call that begins after the client was closed is never sent and takes no channel: the closed check rejects
      it. */
  lemma {:induction false} ClosedClientRejects(s: State, actions: seq<Action>, t: State, c: CallId)
    requires Runs(s, actions, t) && s.closed && (c in s.calls ==> Shut(s.calls[c]))
    ensures t.closed && (c in t.calls ==> Shut(t.calls[c]))
    ensures Enabled(t, CheckClosed(c)) ==> Step(t, CheckClosed(c)).calls[c].phase == Returned(Rejected)
    decreases |actions|
  {
    if actions != [] {
      hide Step, Enabled;
      ShutStep(s, actions[0], c);
      ClosedClientRejects(Step(s, actions[0]), actions[1..], t, c);
    }
  }

  /** An open client lets it pass. */
  lemma OpenClientAccepts(s: State, c: CallId)
    requires Enabled(s, CheckClosed(c)) && !s.closed
    ensures Step(s, CheckClosed(c)).calls[c].phase.Open?
  {
  }

  /** A response in a channel stays there, whatever else is sent to the channel, until its call receives it. */
  lemma SlotStays(s: State, a: Action, ch: Chan)
    requires Enabled(s, a) && ch in s.buffers && s.buffers[ch].Some?
    requires !(a.Receive? && s.calls[a.c].phase.ch == ch)
    ensures ch in Step(s, a).buffers && Step(s, a).buffers[ch] == s.buffers[ch]
  {
    hide Unreferenced;
  }

  /** The entries of calls that gave up waiting, and were to delete their own id, are gone. */
  ghost predicate Cleared(s: State) {
    forall c :: c in s.calls && s.calls[c].phase == Returned(Abandoned) && s.calls[c].waitId == s.calls[c].req.requestId ==>
      NoEntryOf(s, c)
  }

  predicate NoEntryOf(s: State, c: CallId)
    requires c in s.calls
  {
    var id := s.calls[c].req.requestId;
    id in s.table ==> s.table[id].origin != c
  }

  /** Only `AbandonDelete` returns a call as abandoned. */
  predicate AbandonedBefore(s: State, t: State, c: CallId) {
    c in t.calls && t.calls[c].phase == Returned(Abandoned) ==>
      c in s.calls && s.calls[c].phase == Returned(Abandoned)
      && s.calls[c].waitId == t.calls[c].waitId && s.calls[c].req == t.calls[c].req
  }

  lemma AbandonedStarting(s: State, a: Action, c: CallId)
    requires Enabled(s, a) && Starting(a)
    ensures AbandonedBefore(s, Step(s, a), c)
  {
    hide Unreferenced;
  }

  lemma AbandonedSending(s: State, a: Action, c: CallId)
    requires Enabled(s, a) && Sending(a)
    ensures AbandonedBefore(s, Step(s, a), c)
  {
  }

  lemma AbandonedFinishing(s: State, a: Action, c: CallId)
    requires Enabled(s, a) && Finishing(a) && a != AbandonDelete(c)
    ensures AbandonedBefore(s, Step(s, a), c)
  {
  }

  lemma WasAbandoned(s: State, a: Action, c: CallId)
    requires Enabled(s, a) && a != AbandonDelete(c)
    ensures AbandonedBefore(s, Step(s, a), c)
  {
    if Starting(a) {
      hide Step, Enabled;
      AbandonedStarting(s, a, c);
    } else if Sending(a) {
      hide Step, Enabled;
      AbandonedSending(s, a, c);
    } else if Finishing(a) {
      hide Step, Enabled;
      AbandonedFinishing(s, a, c);
    } else {
      assert Step(s, a).calls == s.calls;
    }
  }

  /** Only `Store` adds an entry. */
  lemma TableFades(s: State, a: Action, id: nat)
    requires Enabled(s, a) && id in Step(s, a).table
    ensures (id in s.table && Step(s, a).table[id] == s.table[id]) || (a.Store? && Step(s, a).table[id].origin == a.c)
  {
    hide Unreferenced;
  }

  lemma ClearedStep(s: State, a: Action)
    requires Cleared(s) && Enabled(s, a)
    ensures Cleared(Step(s, a))
  {
    var t := Step(s, a);
    forall c | c in t.calls && t.calls[c].phase == Returned(Abandoned) && t.calls[c].waitId == t.calls[c].req.requestId
      ensures NoEntryOf(t, c)
    {
      if a == AbandonDelete(c) {
        assert t.table == s.table - {t.calls[c].waitId};
      } else {
        hide Step;
        WasAbandoned(s, a, c);
        var id := t.calls[c].req.requestId;
        if id in t.table {
          TableFades(s, a, id);
        }
      }
    }
  }

  lemma {:induction false} RunKeepsCleared(s: State, actions: seq<Action>, t: State)
    requires Cleared(s) && Runs(s, actions, t)
    ensures Cleared(t)
    decreases |actions|
  {
    hide Cleared, Step, Enabled;
    if actions != [] {
      ClearedStep(s, actions[0]);
      RunKeepsCleared(Step(s, actions[0]), actions[1..], t);
    }
  }

  /** In every run a call that gave up waiting has deleted its entry by the time it returns, if the id it deletes
      is the one it sent and no other call has that id. */
  lemma AbandonedLeavesNoEntry(actions: seq<Action>, t: State, c: CallId)
    requires Runs(INIT, actions, t) && c in t.calls && t.calls[c].phase == Returned(Abandoned)
    requires t.calls[c].waitId == t.calls[c].req.requestId
    requires forall d :: d in t.calls && d != c ==> t.calls[d].req.requestId != t.calls[c].req.requestId
    ensures t.calls[c].req.requestId !in t.table
  {
    hide Runs;
    assert Cleared(INIT);
    RunKeepsCleared(INIT, actions, t);
    RunIsGood(actions, t);
    var id := t.calls[c].req.requestId;
    assert NoEntryOf(t, c);
    assert RefAt(t, InTable(id)).Some? ==> Known(t.calls, RefAt(t, InTable(id)).value);
  }

  /** A send error deletes the entry under the id that the released request object has at that moment, and no
      other. */
  lemma SendErrorDeletes(s: State, c: CallId, key: nat, late: bool)
    requires Enabled(s, FailDelete(c, key, late))
    ensures key !in Step(s, FailDelete(c, key, late)).table
    ensures forall id :: id in s.table && id != key ==>
              id in Step(s, FailDelete(c, key, late)).table && Step(s, FailDelete(c, key, late)).table[id] == s.table[id]
  {
  }
}
