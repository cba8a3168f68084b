/** Runs in which no call gives its channel up once its request may have gone out: every reference to a channel
    then belongs to the call that keeps it, clean or not. */
module Orderliness {
  import opened Wire
  import opened Client
  import opened Correlation

  /** The reference at `x` belongs to the call that keeps the channel. With `early`, a table entry may also
      belong to a call whose request never went out. */
  ghost predicate OrderlyAt(s: State, x: Place, early: bool) {
    RefAt(s, x).Some? ==>
      var r := RefAt(s, x).value;
      || Keeper(s.calls, r.origin, r.ch)
      || (early && x.InTable? && r.origin in s.calls && !s.calls[r.origin].sent)
  }

  /** Every call that has received a response has received one with its own id. */
  ghost predicate OwnIds(s: State) {
    forall c :: c in s.calls && Got(s.calls[c].phase).Some? ==>
      Got(s.calls[c].phase).value.msg.requestId == s.calls[c].req.requestId
  }

  /** References are in order, and so are the responses received. */
  ghost predicate Orderly(s: State, early: bool) {
    (forall x :: OrderlyAt(s, x, early)) && OwnIds(s)
  }

  /** No response bears the id of a request that was not sent. */
  ghost predicate OnlySentAnswered(s: State) {
    forall x, c :: PacketAt(s, x).Some? && c in s.calls
                   && s.calls[c].req.requestId == PacketAt(s, x).value.msg.requestId ==>
      s.calls[c].sent
  }

  ghost predicate DistinctIds(calls: map<CallId, Call>) {
    forall c, d :: c in calls && d in calls && c != d ==> calls[c].req.requestId != calls[d].req.requestId
  }

  /** The steps that give a channel up. With `early`, failing before anything was sent is not one of them. */
  predicate GivesUp(a: Action, early: bool) {
    a.Abandon? || a.WriteError? || (a.FailDelete? && (a.late || !early))
  }

  /** The ways of giving up a channel that an application and its network allow: cancelling, closing while a
      call waits, an error before the request is written, and a write that reports an error after its frame
      went out. */
  datatype Faults = Faults(cancel: bool, close: bool, early: bool, late: bool)
  {
    predicate Allows(a: Action) {
      match a
      case Abandon(_, byClose) => if byClose then close else cancel
      case WriteError(_) => late
      case FailDelete(_, _, isLate) => if isLate then late else early
      case _ => true
    }
  }

  // ---- Steps that leave references where they are --------------------------------------------

  predicate Settling(a: Action) {
    a.Receive? || a.FailDelete? || a.Write?
  }

  /** The call keeps its channel, and is sent or not as before. */
  predicate Stays(k: Call, l: Call) {
    (Kept(k.phase).Some? ==> Kept(l.phase) == Kept(k.phase)) && l.sent == k.sent
  }

  lemma StaysStarting(s: State, a: Action, c: CallId)
    requires Enabled(s, a) && Starting(a) && !a.Store? && c in s.calls
    ensures c in Step(s, a).calls && Stays(s.calls[c], Step(s, a).calls[c])
  {
  }

  lemma StaysSending(s: State, a: Action, c: CallId)
    requires Enabled(s, a) && (a.EncodeAndRelease? || a.FailPut?) && c in s.calls
    ensures c in Step(s, a).calls && Stays(s.calls[c], Step(s, a).calls[c])
  {
  }

  lemma StaysFinishing(s: State, a: Action, c: CallId)
    requires Enabled(s, a) && (a.PutBack? || a.AbandonDelete?) && c in s.calls
    ensures c in Step(s, a).calls && Stays(s.calls[c], Step(s, a).calls[c])
  {
  }

  lemma CallStays(s: State, a: Action, c: CallId, early: bool)
    requires Enabled(s, a) && !a.Store? && !Settling(a) && !GivesUp(a, early) && c in s.calls
    ensures c in Step(s, a).calls && Stays(s.calls[c], Step(s, a).calls[c])
  {
    if Starting(a) {
      hide Step, Enabled;
      StaysStarting(s, a, c);
    } else if Sending(a) {
      hide Step, Enabled;
      StaysSending(s, a, c);
    } else if Finishing(a) {
      hide Step, Enabled;
      StaysFinishing(s, a, c);
    } else {
      assert Step(s, a).calls == s.calls;
      hide Step, Enabled;
    }
  }

  lemma OrderlyQuiet(s: State, a: Action, x: Place, early: bool)
    requires Correlated(s) && OrderlyAt(s, x, early) && Enabled(s, a)
    requires !MovesRefs(a) && !Settling(a) && !GivesUp(a, early)
    ensures OrderlyAt(Step(s, a), x, early)
  {
    hide Step, Enabled, RefAt;
    var t := Step(s, a);
    RefsFade(s, a, x);
    if RefAt(t, x).Some? {
      assert Known(s.calls, RefAt(s, x).value);
      CallStays(s, a, RefAt(s, x).value.origin, early);
    }
  }

  /** An encoded request's own references lead to its channel. */
  lemma OwnRef(s: State, c: CallId, x: Place)
    requires Linear(s) && Correlated(s) && c in s.calls && Held(s.calls[c].phase).Some?
    requires RefAt(s, x).Some? && RefAt(s, x).value.origin == c
    ensures RefAt(s, x).value.ch == Held(s.calls[c].phase).value && RefAt(s, x).value.id == s.calls[c].req.requestId
  {
    hide RefAt;
    assert Known(s.calls, RefAt(s, x).value);
    LinearAccounts(s, c);
  }

  lemma OrderlyWrite(s: State, c: CallId, x: Place, early: bool)
    requires Linear(s) && Correlated(s) && OrderlyAt(s, x, early) && Enabled(s, Write(c))
    ensures OrderlyAt(Step(s, Write(c)), x, early)
  {
    var t := Step(s, Write(c));
    RefsFade(s, Write(c), x);
    hide RefAt, Linear, Correlated;
    if RefAt(t, x).Some? && RefAt(s, x).value.origin == c {
      OwnRef(s, c, x);
    }
  }

  /** Outside the table a reference goes with a response that bears its id. */
  lemma RefHasPacket(s: State, x: Place)
    requires RefAt(s, x).Some? && !x.InTable?
    ensures PacketAt(s, x).Some? && PacketAt(s, x).value.msg.requestId == RefAt(s, x).value.id
  {
  }

  lemma UnsentRefIsInTable(s: State, c: CallId, x: Place)
    requires Correlated(s) && OnlySentAnswered(s) && RefAt(s, x).Some? && RefAt(s, x).value.origin == c
    requires c in s.calls && !s.calls[c].sent
    ensures x.InTable?
  {
    hide RefAt, PacketAt;
    assert Known(s.calls, RefAt(s, x).value);
    if !x.InTable? {
      RefHasPacket(s, x);
    }
  }

  /** Before its request goes out, a call's reference is still in the table. */
  lemma OrderlyFailDelete(s: State, a: Action, x: Place)
    requires Linear(s) && Correlated(s) && OrderlyAt(s, x, true) && OnlySentAnswered(s)
    requires a.FailDelete? && !a.late && Enabled(s, a)
    ensures OrderlyAt(Step(s, a), x, true)
  {
    var t := Step(s, a);
    RefsFade(s, a, x);
    if RefAt(t, x).Some? && RefAt(s, x).value.origin == a.c {
      LinearAccounts(s, a.c);
      UnsentRefIsInTable(s, a.c, x);
    }
    hide RefAt, PacketAt, Linear, Correlated, OnlySentAnswered;
  }

  /** Two calls that hold one channel are the same call. */
  lemma OneHolder(s: State, c: CallId, d: CallId, ch: Chan)
    requires Linear(s) && Keeper(s.calls, c, ch) && Channel(s.calls, d) == Some(ch)
    ensures c == d
  {
    assert Channel(s.calls, c) == Some(ch);
  }

  /** What a waiting call finds in its channel is its own. */
  lemma OrderlySlot(s: State, c: CallId, early: bool)
    requires Linear(s) && Correlated(s) && Orderly(s, early) && Enabled(s, Receive(c))
    ensures RefAt(s, InChannel(s.calls[c].phase.ch)).Some?
    ensures RefAt(s, InChannel(s.calls[c].phase.ch)).value.origin == c
    ensures s.buffers[s.calls[c].phase.ch].value.packet.msg.requestId == s.calls[c].req.requestId
  {
    var ch := s.calls[c].phase.ch;
    var x := InChannel(ch);
    assert OrderlyAt(s, x, early) && Known(s.calls, RefAt(s, x).value);
    OneHolder(s, RefAt(s, x).value.origin, c, ch);
  }

  lemma OrderlyReceive(s: State, c: CallId, x: Place, early: bool)
    requires Linear(s) && Correlated(s) && Orderly(s, early) && Enabled(s, Receive(c))
    ensures OrderlyAt(Step(s, Receive(c)), x, early)
  {
    var t, y := Step(s, Receive(c)), InChannel(s.calls[c].phase.ch);
    OrderlySlot(s, c, early);
    RefsFade(s, Receive(c), x);
    assert RefAt(t, y).None?;
    assert OrderlyAt(s, x, early);
    assert RefAt(t, x).Some? ==> RefAt(s, x).value.origin != c;
    hide RefAt, Linear, Correlated, Orderly;
  }

  // ---- Steps that move references ------------------------------------------------------------

  lemma OrderlyStore(s: State, c: CallId, x: Place, early: bool)
    requires Linear(s) && Correlated(s) && OrderlyAt(s, x, early) && Enabled(s, Store(c))
    ensures OrderlyAt(Step(s, Store(c)), x, early)
  {
    StoredRefs(s, c, x);
    StoredCalls(s, c);
    if RefAt(s, x).Some? {
      NoRefBeforeStore(s, c, x);
    }
    hide Step, RefAt, Linear, Correlated;
  }

  /** A lookup finds the entry of a call whose request went out. */
  lemma OrderlyLookup(s: State, r: ReaderId, x: Place, early: bool)
    requires Correlated(s) && Orderly(s, early) && Enabled(s, Lookup(r)) && (early ==> OnlySentAnswered(s))
    ensures OrderlyAt(Step(s, Lookup(r)), x, early)
  {
    var id := ReaderOf(s.readers, r).packet.msg.requestId;
    assert OrderlyAt(s, x, early);
    if id in s.table && x == AtReader(r) {
      assert OrderlyAt(s, InTable(id), early);
      assert Known(s.calls, RefAt(s, InTable(id)).value);
      assert PacketAt(s, x).Some? && PacketAt(s, x).value.msg.requestId == id;
    }
    hide Correlated, Orderly, OnlySentAnswered;
  }

  lemma OrderlyDeliver(s: State, r: ReaderId, x: Place, early: bool)
    requires Orderly(s, early) && Enabled(s, Deliver(r))
    ensures OrderlyAt(Step(s, Deliver(r)), x, early)
  {
    assert OrderlyAt(s, AtReader(r), early) && OrderlyAt(s, x, early);
    hide Orderly;
  }

  // ---- All steps -----------------------------------------------------------------------------

  lemma OrderlyAtStep(s: State, a: Action, x: Place, early: bool)
    requires Linear(s) && Correlated(s) && Orderly(s, early) && Enabled(s, a) && !GivesUp(a, early)
    requires early ==> OnlySentAnswered(s)
    ensures OrderlyAt(Step(s, a), x, early)
  {
    assert OrderlyAt(s, x, early);
    hide Linear, Correlated, Orderly, OrderlyAt, Step, Enabled, OnlySentAnswered;
    match a
    case Store(c) => OrderlyStore(s, c, x, early);
    case Lookup(r) => OrderlyLookup(s, r, x, early);
    case Deliver(r) => OrderlyDeliver(s, r, x, early);
    case Write(c) => OrderlyWrite(s, c, x, early);
    case Receive(c) => OrderlyReceive(s, c, x, early);
    case FailDelete(_, _, _) => OrderlyFailDelete(s, a, x);
    case _ => OrderlyQuiet(s, a, x, early);
  }

  lemma ReceivedOwn(s: State, a: Action, c: CallId, early: bool)
    requires Linear(s) && Correlated(s) && Orderly(s, early) && Enabled(s, a)
    requires c in Step(s, a).calls && Got(Step(s, a).calls[c].phase).Some?
    ensures Got(Step(s, a).calls[c].phase).value.msg.requestId == Step(s, a).calls[c].req.requestId
  {
    if a == Receive(c) {
      OrderlySlot(s, c, early);
      hide Linear, Correlated, Orderly;
    } else if a.Begin? || a.Store? {
      assert c in s.calls && c != a.c && Step(s, a).calls[c] == s.calls[c];
    } else {
      CallEvolves(s, a, c);
      hide Step, Enabled, Linear, Correlated;
    }
  }

  lemma OrderlyStep(s: State, a: Action, early: bool)
    requires Linear(s) && Correlated(s) && Orderly(s, early) && Enabled(s, a) && !GivesUp(a, early)
    requires early ==> OnlySentAnswered(s)
    ensures Orderly(Step(s, a), early)
  {
    hide Linear, Correlated, Step, Enabled, OrderlyAt, Got, OnlySentAnswered, GivesUp;
    var t := Step(s, a);
    forall x
      ensures OrderlyAt(t, x, early)
    {
      hide Orderly;
      OrderlyAtStep(s, a, x, early);
    }
    forall c | c in t.calls && Got(t.calls[c].phase).Some?
      ensures Got(t.calls[c].phase).value.msg.requestId == t.calls[c].req.requestId
    {
      hide Orderly;
      ReceivedOwn(s, a, c, early);
    }
  }

  /** In an orderly state a kept channel with a reference elsewhere is empty. */
  lemma OrderlyChannelIsEmpty(s: State, x: Place)
    requires Linear(s) && Correlated(s) && Orderly(s, false) && RefAt(s, x).Some? && !x.InChannel?
    ensures RefAt(s, InChannel(RefAt(s, x).value.ch)).None?
  {
    var r := RefAt(s, x).value;
    var y := InChannel(r.ch);
    assert OrderlyAt(s, x, false) && OrderlyAt(s, y, false);
    if RefAt(s, y).Some? {
      OneHolder(s, RefAt(s, y).value.origin, r.origin, r.ch);
      assert false;
    }
  }
}
