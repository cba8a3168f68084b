/** Runs of the client in which no call gives its channel up and ids are distinct: no reference is ever lost, so a
    waiting call can always be reached. */
module Supply {
  import opened Client
  import opened Correlation
  import opened Orderliness

  /** Something still refers to the channel that call `c` stored. */
  ghost predicate Referenced(s: State, c: CallId) {
    exists x :: RefersTo(s, x, c)
  }

  predicate RefersTo(s: State, x: Place, c: CallId) {
    RefAt(s, x).Some? && RefAt(s, x).value.origin == c
  }

  /** Every call between `Store` and the end of its wait is referred to, and none has given up waiting. */
  ghost predicate Supplied(s: State) {
    forall c :: c in s.calls ==> !s.calls[c].phase.Detached? && (Kept(s.calls[c].phase).Some? ==> Referenced(s, c))
  }

  // ---- Steps that leave references where they are --------------------------------------------

  /** The reference at `x`, if any, stays. */
  predicate RefStays(s: State, t: State, x: Place) {
    RefAt(s, x).Some? ==> RefAt(t, x) == RefAt(s, x)
  }

  lemma StartingKeepsRef(s: State, a: Action, x: Place)
    requires Enabled(s, a) && Starting(a) && !a.Store?
    ensures RefStays(s, Step(s, a), x)
  {
  }

  lemma SendingKeepsRef(s: State, a: Action, x: Place)
    requires Enabled(s, a) && Sending(a) && !a.FailDelete?
    ensures RefStays(s, Step(s, a), x)
  {
  }

  lemma OtherKeepsRef(s: State, a: Action, x: Place)
    requires Enabled(s, a) && (a.PutBack? || a.Close? || a.Decode? || a.DropPooled?)
    ensures RefStays(s, Step(s, a), x)
  {
  }

  lemma KeepsRef(s: State, a: Action, x: Place)
    requires Enabled(s, a) && !GivesUp(a, false) && !MovesRefs(a) && !a.Receive? && !a.AbandonDelete?
    ensures RefStays(s, Step(s, a), x)
  {
    hide Step, Enabled, RefStays;
    if Starting(a) {
      StartingKeepsRef(s, a, x);
    } else if Sending(a) {
      SendingKeepsRef(s, a, x);
    } else {
      OtherKeepsRef(s, a, x);
    }
  }

  // ---- Steps that move them ------------------------------------------------------------------

  /** Storing overwrites no other call's entry. */
  lemma StoreKeepsRef(s: State, d: CallId, c: CallId, x: Place)
    requires Linear(s) && Correlated(s) && DistinctIds(s.calls) && Enabled(s, Store(d)) && c in s.calls && RefersTo(s, x, c)
    ensures RefersTo(Step(s, Store(d)), x, c)
  {
    hide Linear, Step;
    StoredRefs(s, d, x);
    NoRefBeforeStore(s, d, x);
    assert Known(s.calls, RefAt(s, x).value);
  }

  lemma LookupKeepsRef(s: State, r: ReaderId, c: CallId, x: Place)
    requires Enabled(s, Lookup(r)) && RefersTo(s, x, c)
    ensures var id := ReaderOf(s.readers, r).packet.msg.requestId;
            RefersTo(Step(s, Lookup(r)), if x == InTable(id) then AtReader(r) else x, c)
  {
  }

  lemma DeliverKeepsRef(s: State, r: ReaderId, c: CallId, x: Place)
    requires Linear(s) && Correlated(s) && Orderly(s, false) && Enabled(s, Deliver(r)) && RefersTo(s, x, c)
    ensures RefersTo(Step(s, Deliver(r)), if x == AtReader(r) then InChannel(ReaderOf(s.readers, r).entry.ch) else x, c)
  {
    OrderlyChannelIsEmpty(s, AtReader(r));
    hide Linear, Correlated, Orderly;
  }

  lemma ReceiveKeepsRef(s: State, d: CallId, c: CallId, x: Place)
    requires Linear(s) && Correlated(s) && Orderly(s, false) && Enabled(s, Receive(d)) && c != d && RefersTo(s, x, c)
    ensures RefersTo(Step(s, Receive(d)), x, c)
  {
    OrderlySlot(s, d, false);
    hide Linear, Correlated, Orderly;
  }

  /** Where a step leaves call `c`'s reference. */
  function Moved(s: State, a: Action, x: Place): Place
    requires Enabled(s, a)
  {
    match a
    case Lookup(r) => if x == InTable(ReaderOf(s.readers, r).packet.msg.requestId) then AtReader(r) else x
    case Deliver(r) => if x == AtReader(r) then InChannel(ReaderOf(s.readers, r).entry.ch) else x
    case _ => x
  }

  lemma StepKeepsRef(s: State, a: Action, c: CallId, x: Place)
    requires Linear(s) && Correlated(s) && Orderly(s, false) && DistinctIds(s.calls)
    requires Enabled(s, a) && !GivesUp(a, false) && !a.AbandonDelete? && a != Receive(c)
    requires c in s.calls && RefersTo(s, x, c)
    ensures RefersTo(Step(s, a), Moved(s, a, x), c)
  {
    hide Linear, Correlated, Orderly, DistinctIds, Step, GivesUp, RefAt;
    match a
    case Store(d) => StoreKeepsRef(s, d, c, x);
    case Lookup(r) => LookupKeepsRef(s, r, c, x);
    case Deliver(r) => DeliverKeepsRef(s, r, c, x);
    case Receive(d) => ReceiveKeepsRef(s, d, c, x);
    case _ => KeepsRef(s, a, x);
  }

  // ---- All steps -----------------------------------------------------------------------------

  /** Only `Abandon` detaches a call, and only `Store` makes it keep a channel. */
  predicate StaysAttached(k: Call, l: Call) {
    (l.phase.Detached? ==> k.phase.Detached?) && (Kept(l.phase).Some? ==> Kept(k.phase).Some?)
  }

  lemma AttachedStarting(s: State, a: Action, c: CallId)
    requires Enabled(s, a) && Starting(a) && !a.Store? && c in Step(s, a).calls
    ensures if c in s.calls then StaysAttached(s.calls[c], Step(s, a).calls[c])
            else Step(s, a).calls[c].phase.Begun?
  {
  }

  lemma AttachedSending(s: State, a: Action, c: CallId)
    requires Enabled(s, a) && Sending(a) && c in Step(s, a).calls
    ensures c in s.calls && StaysAttached(s.calls[c], Step(s, a).calls[c])
  {
  }

  lemma AttachedFinishing(s: State, a: Action, c: CallId)
    requires Enabled(s, a) && Finishing(a) && !a.Abandon? && c in Step(s, a).calls
    ensures c in s.calls && StaysAttached(s.calls[c], Step(s, a).calls[c])
    ensures a == Receive(c) ==> Kept(Step(s, a).calls[c].phase).None?
  {
  }

  lemma CallAttached(s: State, a: Action, c: CallId)
    requires Enabled(s, a) && !a.Abandon? && a != Store(c) && c in Step(s, a).calls
    ensures if c in s.calls then StaysAttached(s.calls[c], Step(s, a).calls[c])
            else Step(s, a).calls[c].phase.Begun?
    ensures a == Receive(c) ==> Kept(Step(s, a).calls[c].phase).None?
  {
    if a.Store? {
      hide Unreferenced;
    } else if Starting(a) {
      hide Step, Enabled;
      AttachedStarting(s, a, c);
    } else if Sending(a) {
      hide Step, Enabled;
      AttachedSending(s, a, c);
    } else if Finishing(a) {
      hide Step, Enabled;
      AttachedFinishing(s, a, c);
    } else {
      assert Step(s, a).calls == s.calls;
      hide Step, Enabled;
    }
  }

  lemma SuppliedCall(s: State, a: Action, c: CallId)
    requires Linear(s) && Correlated(s) && Orderly(s, false) && DistinctIds(s.calls) && Supplied(s)
    requires Enabled(s, a) && !GivesUp(a, false) && c in Step(s, a).calls
    ensures !Step(s, a).calls[c].phase.Detached?
    ensures Kept(Step(s, a).calls[c].phase).Some? ==> Referenced(Step(s, a), c)
  {
    if a == Store(c) {
      StoredRefs(s, c, InTable(s.calls[c].req.requestId));
      StoredCalls(s, c);
      hide Step, Linear, Correlated, Orderly;
      assert RefersTo(Step(s, a), InTable(s.calls[c].req.requestId), c);
    } else {
      assert !a.AbandonDelete?;
      hide Step, Linear, Correlated, Orderly, DistinctIds, Enabled, RefersTo;
      CallAttached(s, a, c);
      if c in s.calls && Kept(Step(s, a).calls[c].phase).Some? {
        var x :| RefersTo(s, x, c);
        StepKeepsRef(s, a, c, x);
      }
    }
  }

  lemma SuppliedStep(s: State, a: Action)
    requires Linear(s) && Correlated(s) && Orderly(s, false) && DistinctIds(s.calls) && Supplied(s)
    requires Enabled(s, a) && !GivesUp(a, false)
    ensures Supplied(Step(s, a))
  {
    hide Step, Linear, Correlated, Orderly, DistinctIds, Enabled, Referenced, Kept, GivesUp;
    var t := Step(s, a);
    forall c | c in t.calls
      ensures !t.calls[c].phase.Detached? && (Kept(t.calls[c].phase).Some? ==> Referenced(t, c))
    {
      hide Supplied;
      SuppliedCall(s, a, c);
    }
  }
}
