/** From the requests as the application submits them: which id each call bears, and when ids are distinct. */
module Submission {
  import opened Codec
  import opened Client
  import opened Correlation
  import opened Orderliness
  import opened System
  import opened NetRuns
  import opened Exactness

  /** The id a request goes out with: its own, or the first draw that is not zero. */
  function IdDrawn(req: Message, first: nat, second: nat): nat {
    if req.requestId != 0 then req.requestId else if first != 0 then first else second
  }

  /** `m` is the request submitted, with only its id changed. */
  predicate Draws(req: Message, first: nat, second: nat, m: Message) {
    && m.requestId == IdDrawn(req, first, second)
    && m.headers == req.headers && m.path == req.path && m.body == req.body
    && m.code == req.code && m.unknown == req.unknown
  }

  /** Call `c` begins with `m`, and deletes the same id if it gives up, unless the first draw was zero. */
  lemma BeginDraws(s: State, c: CallId, req: Message, first: nat, second: nat)
    requires Enabled(s, Begin(c, req, first, second))
    ensures var t := Step(s, Begin(c, req, first, second));
            && c in t.calls && Draws(req, first, second, t.calls[c].req) && t.calls[c].phase.Begun?
            && (req.requestId != 0 || first != 0 ==> t.calls[c].waitId == t.calls[c].req.requestId)
            && (forall d :: d in s.calls ==> d in t.calls && t.calls[d] == s.calls[d])
            && (forall d :: d in t.calls ==> d == c || d in s.calls)
  {
  }

  /** No other step makes a call, or changes its request or the id it deletes. */
  lemma StepSubmits(s: State, a: Action, c: CallId)
    requires Enabled(s, a) && c in Step(s, a).calls
    ensures (c in s.calls && Step(s, a).calls[c].req == s.calls[c].req)
         || (a.Begin? && a.c == c && c !in s.calls && Draws(a.req, a.first, a.second, Step(s, a).calls[c].req))
  {
    if a.Begin? {
      hide Step;
      BeginDraws(s, a.c, a.req, a.first, a.second);
    } else if a.Store? {
      hide Unreferenced;
    } else {
      hide Step, Enabled;
      CallEvolves(s, a, c);
    }
  }

  /** Event number `i` submits the request that call `c` bears as `m`. */
  predicate SubmittedAt(events: seq<Event>, i: nat, c: CallId, m: Message) {
    && i < |events| && events[i].Local? && events[i].a.Begin? && events[i].a.c == c
    && Draws(events[i].a.req, events[i].a.first, events[i].a.second, m)
  }

  lemma EventSubmits(cfg: Server.Config, n: Net, e: Event, c: CallId)
    requires Can(cfg, n, e) && c in Do(cfg, n, e).client.calls
    ensures (c in n.client.calls && Do(cfg, n, e).client.calls[c].req == n.client.calls[c].req)
         || SubmittedAt([e], 0, c, Do(cfg, n, e).client.calls[c].req)
  {
    hide Can, Do, Step, Enabled, Draws;
    ClientMoves(cfg, n, e);
    match ClientAction(cfg, n, e)
    case Some(a) =>
      StepSubmits(n.client, a, c);
      if a.Begin? {
        BeginIsLocal(cfg, n, e);
      }
    case None =>
  }

  lemma BeginIsLocal(cfg: Server.Config, n: Net, e: Event)
    requires ClientAction(cfg, n, e).Some? && ClientAction(cfg, n, e).value.Begin?
    ensures e == Local(ClientAction(cfg, n, e).value)
  {
  }

  /** In every run the request of a call is one that was submitted, with only the id changed: kept if it was not
      zero, else the first draw, else the second. */
  lemma {:induction false} ExecutionSubmits(cfg: Server.Config, n: Net, events: seq<Event>, t: Net, c: CallId)
    requires Executes(cfg, n, events, t) && c in t.client.calls
    ensures (c in n.client.calls && t.client.calls[c].req == n.client.calls[c].req)
         || exists i: nat :: SubmittedAt(events, i, c, t.client.calls[c].req)
    decreases |events|
  {
    hide Can, Do, Draws;
    if events != [] {
      var e, u := events[0], Do(cfg, n, events[0]);
      ExecutionSubmits(cfg, u, events[1..], t, c);
      if i: nat :| SubmittedAt(events[1..], i, c, t.client.calls[c].req) {
        assert SubmittedAt(events, i + 1, c, t.client.calls[c].req);
      } else {
        EventSubmits(cfg, n, e, c);
        if SubmittedAt([e], 0, c, u.client.calls[c].req) {
          assert SubmittedAt(events, 0, c, t.client.calls[c].req);
        }
      }
    }
  }

  // ---- Distinct ids --------------------------------------------------------------------------

  predicate Submits(e: Event) {
    e.Local? && e.a.Begin?
  }

  /** The ids that the submitted requests go out with are pairwise different. */
  ghost predicate DistinctDraws(events: seq<Event>) {
    forall i, j :: 0 <= i < j < |events| && Submits(events[i]) && Submits(events[j]) ==>
      IdDrawn(events[i].a.req, events[i].a.first, events[i].a.second)
      != IdDrawn(events[j].a.req, events[j].a.first, events[j].a.second)
  }

  lemma DrawnIdsAreDistinct(cfg: Server.Config, events: seq<Event>, t: Net)
    requires Executes(cfg, START, events, t) && DistinctDraws(events)
    ensures DistinctIds(t.client.calls)
  {
    hide Executes;
    forall c, d | c in t.client.calls && d in t.client.calls && c != d
      ensures t.client.calls[c].req.requestId != t.client.calls[d].req.requestId
    {
      ExecutionSubmits(cfg, START, events, t, c);
      ExecutionSubmits(cfg, START, events, t, d);
      var i: nat :| SubmittedAt(events, i, c, t.client.calls[c].req);
      var j: nat :| SubmittedAt(events, j, d, t.client.calls[d].req);
      assert i < j || j < i;
    }
  }

  /** Requests submitted without ids: the ids are distinct if the first draws are, and none of them is zero. */
  lemma RandomIdsAreDistinct(cfg: Server.Config, events: seq<Event>, t: Net)
    requires Executes(cfg, START, events, t)
    requires forall i :: 0 <= i < |events| && Submits(events[i]) ==> events[i].a.req.requestId == 0 && events[i].a.first != 0
    requires forall i, j :: 0 <= i < j < |events| && Submits(events[i]) && Submits(events[j]) ==>
               events[i].a.first != events[j].a.first
    ensures DistinctIds(t.client.calls)
  {
    hide Executes;
    DrawnIdsAreDistinct(cfg, events, t);
  }

  // ---- End to end ----------------------------------------------------------------------------

  /** Call `c` has got what the handler of its method replies to the request submitted, under the id drawn. */
  ghost predicate RepliesTo(cfg: Server.Config, events: seq<Event>, i: nat, k: Call) {
    i < |events| && Submits(events[i]) && Got(k.phase).Some? &&
    var Begin(c, req, first, second) := events[i].a;
    var sent, resp := req.(requestId := IdDrawn(req, first, second)), Got(k.phase).value.msg;
    && req.path in cfg.handlers
    && resp.requestId == sent.requestId
    && resp.code == cfg.handlers[req.path](sent).code
    && resp.headers == cfg.handlers[req.path](sent).headers
    && resp.body == cfg.handlers[req.path](sent).body
  }

  lemma ReplyToSubmitted(cfg: Server.Config, events: seq<Event>, i: nat, c: CallId, k: Call)
    requires SubmittedAt(events, i, c, k.req) && OwnReply(cfg, k) && Got(k.phase).Some?
    ensures RepliesTo(cfg, events, i, k)
  {
    var Begin(_, req, first, second) := events[i].a;
    assert k.req == req.(requestId := IdDrawn(req, first, second));
  }

  /** From submission to reply: in every run in which the ids drawn are distinct and no call gives up a request
      that may have gone out, each response is the handler's reply to the request submitted for that call. */
  lemma SubmittedEndToEnd(cfg: Server.Config, f: Faults, events: seq<Event>, t: Net, c: CallId)
    requires cfg.z.Lawful() && ExecutesWithin(cfg, f, events, t) && !f.cancel && !f.close && !f.late
    requires DistinctDraws(events) && c in t.client.calls && Got(t.client.calls[c].phase).Some?
    ensures exists i: nat :: SubmittedAt(events, i, c, t.client.calls[c].req) && RepliesTo(cfg, events, i, t.client.calls[c])
  {
    hide Executes, AllowsEvent, OwnReply, DistinctDraws, RepliesTo;
    DrawnIdsAreDistinct(cfg, events, t);
    HarmlessFaultsKeepReplies(cfg, f, t);
    ExecutionSubmits(cfg, START, events, t, c);
    var i: nat :| SubmittedAt(events, i, c, t.client.calls[c].req);
    ReplyToSubmitted(cfg, events, i, c, t.client.calls[c]);
  }

  /** The same for a call with a clean channel in any run. */
  lemma CleanSubmittedEndToEnd(cfg: Server.Config, events: seq<Event>, t: Net, c: CallId)
    requires cfg.z.Lawful() && Executes(cfg, START, events, t) && DistinctDraws(events)
    requires c in t.client.calls && t.client.calls[c].clean && Got(t.client.calls[c].phase).Some?
    ensures exists i: nat :: SubmittedAt(events, i, c, t.client.calls[c].req) && RepliesTo(cfg, events, i, t.client.calls[c])
  {
    hide Executes, OwnReply, DistinctDraws, RepliesTo;
    DrawnIdsAreDistinct(cfg, events, t);
    EndToEnd(cfg, events, t, c);
    ExecutionSubmits(cfg, START, events, t, c);
    var i: nat :| SubmittedAt(events, i, c, t.client.calls[c].req);
    ReplyToSubmitted(cfg, events, i, c, t.client.calls[c]);
  }
}
