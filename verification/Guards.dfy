/** When every response bears its request's id whatever the peer sends: exactly when no call ever gives its
    channel up. Each way of giving up has a run that mixes responses up. */
module Guards {
  import opened Wire
  import opened Codec
  import opened Framing
  import opened Client
  import opened Orderliness
  import opened ClientTheorems
  import opened Scenario
  import opened System
  import opened NetRuns
  import opened Exactness

  ghost predicate RunsWithin(f: Faults, actions: seq<Action>, t: State) {
    Runs(INIT, actions, t) && forall a :: a in actions ==> f.Allows(a)
  }

  ghost predicate Reachable(f: Faults, t: State) {
    exists actions :: RunsWithin(f, actions, t)
  }

  // ---- Extending runs ------------------------------------------------------------------------

  lemma {:induction false} RunsThen(s: State, actions: seq<Action>, t: State, a: Action)
    requires Runs(s, actions, t) && Enabled(t, a)
    ensures Runs(s, actions + [a], Step(t, a))
    decreases |actions|
  {
    hide Step, Enabled;
    if actions == [] {
      assert [] + [a] == [a] && [a][1..] == [];
    } else {
      assert (actions + [a])[0] == actions[0] && (actions + [a])[1..] == actions[1..] + [a];
      RunsThen(Step(s, actions[0]), actions[1..], t, a);
    }
  }

  lemma Reach(f: Faults, s: State, a: Action, t: State)
    requires Reachable(f, s) && Leads(s, a, t) && f.Allows(a)
    ensures Reachable(f, t)
  {
    hide Runs, Step, Enabled, Faults.Allows;
    var actions :| RunsWithin(f, actions, s);
    RunsThen(INIT, actions, s, a);
    assert RunsWithin(f, actions + [a], t);
  }

  lemma ReachInit(f: Faults)
    ensures Reachable(f, INIT)
  {
    assert RunsWithin(f, [], INIT);
  }

  // ---- Runs of the composed system are runs of the client -------------------------------------

  lemma {:induction false} ClientRuns(cfg: Server.Config, f: Faults, n: Net, events: seq<Event>, t: Net)
    requires Executes(cfg, n, events, t) && (forall e :: e in events ==> AllowsEvent(f, e)) && Reachable(f, n.client)
    ensures Reachable(f, t.client)
    decreases |events|
  {
    hide Can, Do, AllowsEvent, Reachable;
    if events != [] {
      assert events[0] in events;
      EventReaches(cfg, f, n, events[0]);
      ClientRuns(cfg, f, Do(cfg, n, events[0]), events[1..], t);
    }
  }

  lemma EventReaches(cfg: Server.Config, f: Faults, n: Net, e: Event)
    requires Can(cfg, n, e) && AllowsEvent(f, e) && Reachable(f, n.client)
    ensures Reachable(f, Do(cfg, n, e).client)
  {
    hide Can, Do, Reachable, ClientAction, Step, Enabled;
    ClientMoves(cfg, n, e);
    ActionAllowed(cfg, f, n, e);
    match ClientAction(cfg, n, e)
    case Some(a) => Reach(f, n.client, a, Do(cfg, n, e).client);
    case None =>
  }

  lemma ActionAllowed(cfg: Server.Config, f: Faults, n: Net, e: Event)
    requires AllowsEvent(f, e)
    ensures ClientAction(cfg, n, e).Some? ==> f.Allows(ClientAction(cfg, n, e).value)
  {
    hide ReadFrame, DecodePayload;
  }

  lemma NetReachesClient(cfg: Server.Config, f: Faults, t: Net)
    requires NetReachable(cfg, f, t)
    ensures Reachable(f, t.client)
  {
    hide Executes, AllowsEvent, Reachable;
    var events :| ExecutesWithin(cfg, f, events, t);
    ReachInit(f);
    ClientRuns(cfg, f, START, events, t);
  }

  // ---- The runs ------------------------------------------------------------------------------

  const PLAIN: Zstd := Zstd(x => x, x => Some(x))

  const ECHO: Server.Config := Echo(PLAIN, [])

  /** Two requests with empty fields, and the echo of the first. */
  const CAST: Cast := Cast(EMPTY.(requestId := 1), EMPTY.(requestId := 2), EMPTY.(requestId := 1))

  lemma CastIsCued()
    ensures Cue(ECHO, CAST) && Framable(PLAIN, Request, CAST.second)
  {
    SmallRequest(PLAIN, 1);
    SmallRequest(PLAIN, 2);
    EchoFits(PLAIN, 1, []);
    hide Framable;
  }

  /** An error before sending leaves the entry behind; call 1 takes the channel over. */
  lemma ReachTakenOver(f: Faults)
    requires f.early
    ensures Reachable(f, CAST.After(false, Returned(SendFailed), false, Waiting(0)))
  {
    hide At, Leads, Cue, Framable, Reachable, NetReachable;
    var k := CAST;
    CastIsCued();
    AtEncoded(ECHO, f, k, false);
    Deletes0(k, false);
    AtLocal(ECHO, f, k.Alone(false, Encoded(0), false), [], [], FailDelete(0, 0, false), k.Alone(false, Undoing(0), false));
    Puts0(k, false);
    AtLocal(ECHO, f, k.Alone(false, Undoing(0), false), [], [], FailPut(0), k.Left(false, Returned(SendFailed), false));
    AtTakenOver(ECHO, f, k, false, Returned(SendFailed), false, []);
    AtReaches(ECHO, f, k.After(false, Returned(SendFailed), false, Waiting(0)));
  }

  lemma AtReaches(cfg: Server.Config, f: Faults, s: State)
    requires At(cfg, f, s, [], [])
    ensures Reachable(f, s)
  {
    hide NetReachable, Reachable;
    var n :| NetReachable(cfg, f, n) && Shows(n, s, [], []);
    NetReachesClient(cfg, f, n);
  }

  /** A peer that answers a request it never got. */
  lemma ReachMixedUp(f: Faults)
    requires f.early
    ensures exists t :: Reachable(f, t) && !OwnIds(t)
  {
    hide Reachable, Step;
    var k, over := CAST, Returned(SendFailed);
    ReachTakenOver(f);
    var s1 := k.Crossing(false, over, false, Decoded(k.Reply()), None);
    var s2 := k.Crossing(false, over, false, Holding(k.Reply(), Entry(0, 0)), None);
    var s3 := k.Crossing(false, over, false, Idle, Some(Slot(k.Reply(), 0)));
    Decodes(k, false, over, false);
    Reach(f, k.After(false, over, false, Waiting(0)), Decode(0, k.response), s1);
    LooksUp(k, false, over, false);
    Reach(f, s1, Lookup(0), s2);
    Delivers(k, false, over, false);
    Reach(f, s2, Deliver(0), s3);
    Receives1(k, false, over, false);
    var t := Step(s3, Receive(1));
    Reach(f, s3, Receive(1), t);
    assert !OwnIds(t);
  }

  /** Any of the four faults, alone, lets some run give a call another request's response. */
  lemma FaultMixesResponses(f: Faults)
    requires f.cancel || f.close || f.early || f.late
    ensures exists t :: Reachable(f, t) && !OwnIds(t)
  {
    hide Reachable, OwnIds, Cue, Framable, NetReachable, DistinctIds, OwnReplies;
    if f.early {
      ReachMixedUp(f);
    } else {
      CastIsCued();
      HarmfulFaultMixesReplies(ECHO, f, CAST);
      var t :| NetReachable(ECHO, f, t) && DistinctIds(t.client.calls) && !OwnIds(t.client) && !OwnReplies(ECHO, t);
      NetReachesClient(ECHO, f, t);
    }
  }

  /** The exact condition: against an arbitrary peer all runs keep responses with their requests if and only
      if no call can give its channel up. */
  lemma OwnIdsExactlyWithoutFaults(f: Faults)
    ensures (forall t :: Reachable(f, t) ==> OwnIds(t)) <==> !f.cancel && !f.close && !f.early && !f.late
  {
    if f.cancel || f.close || f.early || f.late {
      hide Reachable, OwnIds;
      FaultMixesResponses(f);
    } else {
      forall t | Reachable(f, t)
        ensures OwnIds(t)
      {
        var actions :| RunsWithin(f, actions, t);
        assert forall a :: a in actions ==> f.Allows(a) && !GivesUp(a, false);
        hide Runs, Faults.Allows;
        CorrelationSafety(actions, t);
      }
    }
  }
}
