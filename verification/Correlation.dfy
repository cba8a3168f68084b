/** The correlation invariant. A call's `Store` makes one reference to its channel; steps move or drop it but
    never copy it. So if nothing referred to the channel when the call stored it, whatever refers to it while
    the call keeps it is that one reference, and it leads to responses with the call's id. */
module Correlation {
  import opened Wire
  import opened Client

  /** The channel of a call between `Store` and the end of its wait. */
  function Kept(p: Phase): Option<Chan> {
    match p
    case Stored(ch) => Some(ch)
    case Encoded(ch) => Some(ch)
    case Waiting(ch) => Some(ch)
    case Failing(ch) => Some(ch)
    case _ => None
  }

  predicate PastStore(p: Phase) {
    !p.Begun? && !p.Open? && !p.HasChannel? && p != Returned(Rejected)
  }

  predicate Keeper(calls: map<CallId, Call>, c: CallId, ch: Chan) {
    c in calls && Kept(calls[c].phase) == Some(ch)
  }

  /** A reference comes from a call that stored that channel under that id. */
  predicate Known(calls: map<CallId, Call>, r: Ref) {
    && r.origin in calls
    && PastStore(calls[r.origin].phase)
    && calls[r.origin].got == [r.ch]
    && calls[r.origin].req.requestId == r.id
  }

  /** What a call with a clean channel has received bears its id. */
  predicate Answered(k: Call) {
    Got(k.phase).Some? && k.clean ==> Got(k.phase).value.msg.requestId == k.req.requestId
  }

  ghost predicate Correlated(s: State) {
    && (forall x :: RefAt(s, x).Some? ==> Known(s.calls, RefAt(s, x).value))
    && (forall x, y :: x != y && RefAt(s, x).Some? && RefAt(s, y).Some? ==>
          RefAt(s, x).value.origin != RefAt(s, y).value.origin)
    && (forall c, x :: c in s.calls && s.calls[c].clean && RefAt(s, x).Some?
                       && Kept(s.calls[c].phase) == Some(RefAt(s, x).value.ch) ==>
          RefAt(s, x).value.origin == c)
    && (forall c :: c in s.calls ==> Answered(s.calls[c]))
  }

  // ---- How calls and references change -------------------------------------------------------

  /** What a step other than `Begin` and `Store` may do to a call. */
  predicate Evolves(k: Call, l: Call) {
    && l.req == k.req && l.clean == k.clean && (k.sent ==> l.sent)
    && (PastStore(k.phase) ==> PastStore(l.phase) && l.got == k.got)
    && (Kept(l.phase).Some? ==> Kept(l.phase) == Kept(k.phase))
  }

  /** One call across a step; only `Receive` brings a response. */
  ghost predicate EvolvesAt(s: State, a: Action, c: CallId)
    requires Enabled(s, a)
  {
    var later := Step(s, a).calls;
    && (c in s.calls <==> c in later)
    && (c in s.calls ==> Evolves(s.calls[c], later[c]))
    && (c in s.calls && a != Receive(c) && Got(later[c].phase).Some? ==> Got(later[c].phase) == Got(s.calls[c].phase))
  }

  lemma EvolveStarting(s: State, a: Action, c: CallId)
    requires Enabled(s, a) && Starting(a) && !a.Begin? && !a.Store?
    ensures EvolvesAt(s, a, c)
  {
    hide Unreferenced;
  }

  lemma EvolveSending(s: State, a: Action, c: CallId)
    requires Enabled(s, a) && Sending(a)
    ensures EvolvesAt(s, a, c)
  {
    hide Unreferenced;
  }

  lemma EvolveFinishing(s: State, a: Action, c: CallId)
    requires Enabled(s, a) && Finishing(a)
    ensures EvolvesAt(s, a, c)
  {
    hide Unreferenced;
  }

  lemma CallEvolves(s: State, a: Action, c: CallId)
    requires Enabled(s, a) && !a.Begin? && !a.Store?
    ensures EvolvesAt(s, a, c)
  {
    if Starting(a) {
      hide Step, Enabled, EvolvesAt;
      EvolveStarting(s, a, c);
    } else if Sending(a) {
      hide Step, Enabled, EvolvesAt;
      EvolveSending(s, a, c);
    } else if Finishing(a) {
      hide Step, Enabled, EvolvesAt;
      EvolveFinishing(s, a, c);
    } else {
      assert Step(s, a).calls == s.calls;
      hide Step, Enabled;
    }
  }

  ghost predicate AllEvolve(calls: map<CallId, Call>, later: map<CallId, Call>) {
    && (forall c :: c in calls <==> c in later)
    && (forall c :: c in calls ==> Evolves(calls[c], later[c]))
  }

  lemma CallsEvolve(s: State, a: Action)
    requires Enabled(s, a) && !a.Begin? && !a.Store?
    ensures AllEvolve(s.calls, Step(s, a).calls)
  {
    hide Step, Enabled, Evolves;
    forall c
      ensures EvolvesAt(s, a, c)
    {
      hide EvolvesAt;
      CallEvolves(s, a, c);
    }
    var later := Step(s, a).calls;
    forall c
      ensures c in s.calls <==> c in later
      ensures c in s.calls ==> Evolves(s.calls[c], later[c])
    {
      assert EvolvesAt(s, a, c);
    }
  }

  predicate MovesRefs(a: Action) {
    a.Store? || a.Lookup? || a.Deliver?
  }

  /** Nothing new at `x`. */
  predicate Fades(s: State, t: State, x: Place) {
    RefAt(t, x).None? || RefAt(t, x) == RefAt(s, x)
  }

  lemma FadesStarting(s: State, a: Action, x: Place)
    requires Enabled(s, a) && Starting(a) && !a.Store?
    ensures Fades(s, Step(s, a), x)
  {
  }

  lemma FadesSending(s: State, a: Action, x: Place)
    requires Enabled(s, a) && Sending(a)
    ensures Fades(s, Step(s, a), x)
  {
  }

  lemma FadesFinishing(s: State, a: Action, x: Place)
    requires Enabled(s, a) && Finishing(a)
    ensures Fades(s, Step(s, a), x)
  {
  }

  lemma FadesOther(s: State, a: Action, x: Place)
    requires Enabled(s, a) && (a.Close? || a.Decode? || a.DropPooled?)
    ensures Fades(s, Step(s, a), x)
  {
  }

  /** Only `Store`, `Lookup` and a delivery make a reference appear anywhere. */
  lemma RefsFade(s: State, a: Action, x: Place)
    requires Enabled(s, a) && !MovesRefs(a)
    ensures Fades(s, Step(s, a), x)
  {
    hide Step, Enabled, Fades;
    if Starting(a) {
      FadesStarting(s, a, x);
    } else if Sending(a) {
      FadesSending(s, a, x);
    } else if Finishing(a) {
      FadesFinishing(s, a, x);
    } else {
      FadesOther(s, a, x);
    }
  }

  lemma KnownEvolves(calls: map<CallId, Call>, later: map<CallId, Call>, r: Ref)
    requires AllEvolve(calls, later) && Known(calls, r)
    ensures Known(later, r)
  {
  }

  // ---- Preservation --------------------------------------------------------------------------

  /** References only disappear and calls evolve. */
  lemma CorrelatedFades(s: State, t: State)
    requires Correlated(s) && AllEvolve(s.calls, t.calls) && (forall x :: Fades(s, t, x))
    requires forall c :: c in t.calls ==> Answered(t.calls[c])
    ensures Correlated(t)
  {
    hide RefAt;
    forall x | RefAt(t, x).Some?
      ensures Known(t.calls, RefAt(t, x).value) && RefAt(t, x) == RefAt(s, x)
    {
      assert Fades(s, t, x);
      KnownEvolves(s.calls, t.calls, RefAt(t, x).value);
    }
    hide Known, PastStore, Answered;
    forall c, x | c in t.calls && t.calls[c].clean && RefAt(t, x).Some?
                  && Kept(t.calls[c].phase) == Some(RefAt(t, x).value.ch)
      ensures RefAt(t, x).value.origin == c
    {
      assert Evolves(s.calls[c], t.calls[c]);
    }
  }

  /** One reference moves from `x` to the place `y`, which had none. */
  lemma CorrelatedMoves(s: State, t: State, x: Place, y: Place)
    requires Correlated(s) && t.calls == s.calls && x != y
    requires RefAt(t, x).None? && RefAt(t, y) == RefAt(s, x)
    requires forall z :: z != x && z != y ==> RefAt(t, z) == RefAt(s, z)
    ensures Correlated(t)
  {
    hide RefAt, Known, Kept, Answered;
  }

  lemma CorrelatedBegin(s: State, a: Action)
    requires Correlated(s) && Enabled(s, a) && a.Begin?
    ensures Correlated(Step(s, a))
  {
    var t := Step(s, a);
    forall x
      ensures RefAt(t, x) == RefAt(s, x)
    {
    }
    assert forall c :: c in s.calls ==> t.calls[c] == s.calls[c];
    hide Step, RefAt;
  }

  /** Whoever has just got a channel has stored nothing yet, so no reference is its own. */
  lemma NoRefBeforeStore(s: State, c: CallId, x: Place)
    requires Correlated(s) && c in s.calls && !PastStore(s.calls[c].phase) && RefAt(s, x).Some?
    ensures RefAt(s, x).value.origin != c
  {
    hide RefAt;
  }

  lemma StoredRefs(s: State, c: CallId, x: Place)
    requires Enabled(s, Store(c))
    ensures RefAt(Step(s, Store(c)), x)
         == if x == InTable(s.calls[c].req.requestId) then
              Some(Ref(c, s.calls[c].phase.ch, s.calls[c].req.requestId))
            else RefAt(s, x)
  {
    hide Unreferenced;
  }

  lemma StoredKnown(s: State, c: CallId, r: Ref)
    requires Enabled(s, Store(c)) && Known(s.calls, r)
    ensures Known(Step(s, Store(c)).calls, r)
  {
    hide Unreferenced;
  }

  lemma StoredCalls(s: State, c: CallId)
    requires Linear(s) && Enabled(s, Store(c))
    ensures var t, ch, id := Step(s, Store(c)), s.calls[c].phase.ch, s.calls[c].req.requestId;
            && c in t.calls && Kept(t.calls[c].phase) == Some(ch) && Answered(t.calls[c])
            && t.calls[c].clean == Unreferenced(s, ch)
            && Known(t.calls, Ref(c, ch, id))
            && (forall d :: d in t.calls <==> d in s.calls)
            && (forall d :: d in s.calls && d != c ==> t.calls[d] == s.calls[d] && Kept(s.calls[d].phase) != Some(ch))
  {
    hide Unreferenced;
    var ch := s.calls[c].phase.ch;
    LinearAccounts(s, c);
    assert Channel(s.calls, c) == Some(ch);
    forall d | d in s.calls && d != c
      ensures Kept(s.calls[d].phase) != Some(ch)
    {
      assert Channel(s.calls, d) != Some(ch);
    }
  }

  lemma CorrelatedStore(s: State, c: CallId)
    requires Linear(s) && Correlated(s) && Enabled(s, Store(c))
    ensures Correlated(Step(s, Store(c)))
  {
    var t, ch, id := Step(s, Store(c)), s.calls[c].phase.ch, s.calls[c].req.requestId;
    StoredCalls(s, c);
    forall x
      ensures RefAt(t, x) == if x == InTable(id) then Some(Ref(c, ch, id)) else RefAt(s, x)
      ensures RefAt(s, x).Some? ==> RefAt(s, x).value.origin != c && Known(t.calls, RefAt(s, x).value)
    {
      StoredRefs(s, c, x);
      if RefAt(s, x).Some? {
        NoRefBeforeStore(s, c, x);
        StoredKnown(s, c, RefAt(s, x).value);
      }
    }
    hide Step, RefAt, Linear, Known, Kept, Answered, Enabled;
  }

  lemma CorrelatedLookup(s: State, r: ReaderId)
    requires Correlated(s) && Enabled(s, Lookup(r))
    ensures Correlated(Step(s, Lookup(r)))
  {
    var t, id := Step(s, Lookup(r)), ReaderOf(s.readers, r).packet.msg.requestId;
    if id in s.table {
      hide Correlated;
      CorrelatedMoves(s, t, InTable(id), AtReader(r));
    } else {
      assert forall x :: Fades(s, t, x);
      assert AllEvolve(s.calls, t.calls);
      CorrelatedFades(s, t);
    }
  }

  lemma CorrelatedDeliver(s: State, r: ReaderId)
    requires Correlated(s) && Enabled(s, Deliver(r))
    ensures Correlated(Step(s, Deliver(r)))
  {
    var t, e := Step(s, Deliver(r)), ReaderOf(s.readers, r).entry;
    if s.buffers[e.ch].None? {
      hide Correlated;
      CorrelatedMoves(s, t, AtReader(r), InChannel(e.ch));
    } else {
      assert forall x :: Fades(s, t, x);
      assert AllEvolve(s.calls, t.calls);
      CorrelatedFades(s, t);
    }
  }

  /** A call with a clean channel receives what its own reference brought. */
  lemma ReceivesOwnId(s: State, c: CallId)
    requires Correlated(s) && Enabled(s, Receive(c)) && s.calls[c].clean
    ensures s.buffers[s.calls[c].phase.ch].value.packet.msg.requestId == s.calls[c].req.requestId
  {
    var x := InChannel(s.calls[c].phase.ch);
    assert RefAt(s, x).Some? && Kept(s.calls[c].phase) == Some(RefAt(s, x).value.ch);
    assert RefAt(s, x).value.origin == c;
    assert Known(s.calls, RefAt(s, x).value);
  }

  lemma StaysAnswered(s: State, a: Action, c: CallId)
    requires Correlated(s) && Enabled(s, a) && !a.Begin? && !a.Store? && c in s.calls
    ensures c in Step(s, a).calls && Answered(Step(s, a).calls[c])
  {
    assert Answered(s.calls[c]);
    if a == Receive(c) {
      if s.calls[c].clean {
        ReceivesOwnId(s, c);
      }
      hide Correlated, RefAt;
    } else {
      CallEvolves(s, a, c);
      hide Correlated, RefAt, Step, Enabled;
    }
  }

  /** Every step keeps the correlation invariant, cancellation, closing and send errors included. */
  lemma CorrelatedStep(s: State, a: Action)
    requires Linear(s) && Correlated(s) && Enabled(s, a)
    ensures Correlated(Step(s, a))
  {
    hide Linear, Correlated, Step, Enabled, Answered, Fades, AllEvolve;
    match a
    case Begin(_, _, _, _) => CorrelatedBegin(s, a);
    case Store(c) => CorrelatedStore(s, c);
    case Lookup(r) => CorrelatedLookup(s, r);
    case Deliver(r) => CorrelatedDeliver(s, r);
    case _ => CorrelatedQuiet(s, a);
  }

  lemma CorrelatedQuiet(s: State, a: Action)
    requires Correlated(s) && Enabled(s, a) && !a.Begin? && !MovesRefs(a)
    ensures Correlated(Step(s, a))
  {
    var t := Step(s, a);
    CallsEvolve(s, a);
    assert forall c :: c in t.calls ==> c in s.calls;
    hide Correlated, Step, Enabled, Answered, Fades, AllEvolve;
    forall c | c in t.calls
      ensures Answered(t.calls[c])
    {
      StaysAnswered(s, a, c);
    }
    forall x
      ensures Fades(s, t, x)
    {
      RefsFade(s, a, x);
    }
    CorrelatedFades(s, t);
  }

  /** A response that a clean call's own reference leads to is not dropped at the channel: it is empty. */
  lemma CleanChannelIsEmpty(s: State, r: ReaderId)
    requires Correlated(s) && ReaderOf(s.readers, r).Holding?
    requires var e := ReaderOf(s.readers, r).entry;
             e.origin in s.calls && s.calls[e.origin].clean && Keeper(s.calls, e.origin, e.ch)
    ensures RefAt(s, InChannel(ReaderOf(s.readers, r).entry.ch)).None?
  {
    var e := ReaderOf(s.readers, r).entry;
    var x, y := InChannel(e.ch), AtReader(r);
    assert RefAt(s, y) == Some(Ref(e.origin, e.ch, ReaderOf(s.readers, r).packet.msg.requestId));
    assert x != y;
  }
}
