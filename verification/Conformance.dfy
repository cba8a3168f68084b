/** The server of the composed system is the server's loop: in every run, what it has written to a stream is what
    the loop writes on the bytes it has read there. */
module Conformance {
  import opened Wire
  import opened Codec
  import opened Framing
  import opened System

  /** Complete frames, none of which stops the loop by itself. */
  predicate Whole(cfg: Server.Config, s: Bytes)
    decreases |s|
  {
    s == [] ||
    match ReadFrame(s)
    case Frame(flag, payload, next) => !Server.React(cfg, flag, payload).Stop? && Whole(cfg, s[next..])
    case _ => false
  }

  /** How many writes the loop needs for them. */
  function Writes(cfg: Server.Config, s: Bytes): nat
    requires Whole(cfg, s)
    decreases |s|
  {
    if s == [] then 0
    else
      var r := ReadFrame(s);
      (if Server.React(cfg, r.flag, r.payload).Answer? then 1 else 0) + Writes(cfg, s[r.next..])
  }

  lemma ReadFrameExtends(a: Bytes, b: Bytes)
    requires ReadFrame(a).Frame?
    ensures ReadFrame(a + b) == ReadFrame(a)
    ensures (a + b)[ReadFrame(a).next..] == a[ReadFrame(a).next..] + b
  {
    assert (a + b)[..4] == a[..4];
    hide FromBigEndian32;
    var n := FromBigEndian32(a[..4]);
    assert (a + b)[5..4 + n] == a[5..4 + n];
  }

  lemma ReadFramePrefix(s: Bytes)
    requires ReadFrame(s).Frame?
    ensures ReadFrame(s[..ReadFrame(s).next]) == ReadFrame(s)
  {
    var n := ReadFrame(s).next;
    var f := s[..n];
    assert f[..4] == s[..4];
    hide FromBigEndian32;
    assert f[5..n] == s[5..n];
  }

  lemma WholeUnfold(cfg: Server.Config, s: Bytes)
    requires s != [] && Whole(cfg, s)
    ensures ReadFrame(s).Frame?
    ensures var r := ReadFrame(s);
            var reaction := Server.React(cfg, r.flag, r.payload);
            && !reaction.Stop? && Whole(cfg, s[r.next..])
            && Writes(cfg, s) == (if reaction.Answer? then 1 else 0) + Writes(cfg, s[r.next..])
  {
    hide ReadFrame, Server.React;
  }

  /** The first of several whole frames, with any number of writes to spare. */
  lemma ServeFirst(cfg: Server.Config, a: Bytes, b: Bytes, w: nat)
    requires a != [] && Whole(cfg, a)
    ensures ReadFrame(a).Frame?
    ensures var r := ReadFrame(a);
            var rest, reaction := a[r.next..], Server.React(cfg, r.flag, r.payload);
            && Whole(cfg, rest)
            && Server.Serve(cfg, a + b, Writes(cfg, a) + w)
               == Server.Prepend(Server.Answers(cfg, reaction), Server.Events(reaction),
                                 Server.Serve(cfg, rest + b, Writes(cfg, rest) + w))
  {
    hide ReadFrame, Server.React, Server.Serve, Server.Prepend, Whole, Writes, Server.Answers, Server.Events;
    WholeUnfold(cfg, a);
    ReadFrameExtends(a, b);
    var r := ReadFrame(a);
    Server.ServeUnfold(cfg, a + b, Writes(cfg, a) + w, Server.React(cfg, r.flag, r.payload));
  }

  /** What the loop does on whole frames, and then on what follows them. */
  lemma {:induction false} ServeAppend(cfg: Server.Config, a: Bytes, b: Bytes, w: nat)
    requires Whole(cfg, a)
    ensures var first := Server.Serve(cfg, a, Writes(cfg, a));
            Server.Serve(cfg, a + b, Writes(cfg, a) + w)
            == Server.Prepend(first.responses, first.events, Server.Serve(cfg, b, w))
    decreases |a|
  {
    hide ReadFrame, Server.React, Server.Serve, Server.Prepend, Server.Answers, Server.Events, Whole, Writes;
    if a == [] {
      ServeNothing(cfg, b, w);
    } else {
      ServeFirst(cfg, a, b, w);
      ServeFirst(cfg, a, [], 0);
      var r := ReadFrame(a);
      var rest, reaction := a[r.next..], Server.React(cfg, r.flag, r.payload);
      assert a + [] == a && rest + [] == rest;
      ServeAppend(cfg, rest, b, w);
      var later := Server.Serve(cfg, rest, Writes(cfg, rest));
      PrependParts(Server.Answers(cfg, reaction), Server.Events(reaction), later);
      Server.PrependTwice(Server.Answers(cfg, reaction), Server.Events(reaction), later.responses, later.events,
                          Server.Serve(cfg, b, w));
    }
  }

  lemma ServeNothing(cfg: Server.Config, b: Bytes, w: nat)
    ensures Whole(cfg, []) && Writes(cfg, []) == 0 && Server.Serve(cfg, [], 0) == Server.Run([], [])
    ensures [] + b == b && Server.Prepend([], [], Server.Serve(cfg, b, w)) == Server.Serve(cfg, b, w)
  {
    Server.ServeStart(cfg, b, w, []);
  }

  lemma PrependParts(a: seq<Message>, b: seq<Message>, r: Server.Run)
    ensures Server.Prepend(a, b, r).responses == a + r.responses && Server.Prepend(a, b, r).events == b + r.events
  {
  }

  lemma {:induction false} WholeAppend(cfg: Server.Config, a: Bytes, f: Bytes)
    requires Whole(cfg, a) && ReadFrame(f).Frame? && ReadFrame(f).next == |f|
    requires !Server.React(cfg, ReadFrame(f).flag, ReadFrame(f).payload).Stop?
    ensures Whole(cfg, a + f)
    ensures Writes(cfg, a + f)
         == Writes(cfg, a) + if Server.React(cfg, ReadFrame(f).flag, ReadFrame(f).payload).Answer? then 1 else 0
    decreases |a|
  {
    if a == [] {
      assert a + f == f && f[|f|..] == [];
    } else {
      WholeUnfold(cfg, a);
      ReadFrameExtends(a, f);
      WholeAppend(cfg, a[ReadFrame(a).next..], f);
      hide ReadFrame, Server.React;
    }
  }

  /** `produced` is what the loop writes on `consumed`, on a stream that takes `w` writes. */
  ghost predicate TiedBy(cfg: Server.Config, consumed: Bytes, produced: Bytes, w: nat) {
    var rs := Server.Serve(cfg, consumed, w).responses;
    && (forall r :: r in rs ==> |Encode(r)| < TWO63)
    && produced == ResponseBytes(cfg.z, rs)
  }

  /** It is so for some number of writes; while the loop has not returned, for as many as it has needed. */
  ghost predicate Tied(cfg: Server.Config, consumed: Bytes, produced: Bytes, stopped: bool) {
    exists w ::
      && TiedBy(cfg, consumed, produced, w)
      && (!stopped ==> Whole(cfg, consumed) && w == Writes(cfg, consumed))
  }

  lemma ServeOne(cfg: Server.Config, f: Bytes, w: nat)
    requires ReadFrame(f).Frame? && ReadFrame(f).next == |f|
    ensures var reaction := Server.Effective(Server.React(cfg, ReadFrame(f).flag, ReadFrame(f).payload), w);
            Server.Serve(cfg, f, w).responses == Server.Answers(cfg, reaction)
  {
    var reaction := Server.Effective(Server.React(cfg, ReadFrame(f).flag, ReadFrame(f).payload), w);
    assert f[|f|..] == [];
    if reaction.Stop? {
      Server.ServeEnd(cfg, f, w);
    } else {
      Server.ServeUnfold(cfg, f, w, reaction);
      assert Server.Serve(cfg, [], Server.Remaining(reaction, w)) == Server.Run([], []);
      hide Server.Serve, ReadFrame, Server.React;
      assert Server.Answers(cfg, reaction) + [] == Server.Answers(cfg, reaction);
    }
  }

  /** One more frame. */
  lemma TiedFrame(cfg: Server.Config, c: Bytes, p: Bytes, f: Bytes, w: nat)
    requires Whole(cfg, c) && TiedBy(cfg, c, p, Writes(cfg, c)) && ReadFrame(f).Frame? && ReadFrame(f).next == |f|
    requires Server.AnswerFits(cfg, Server.React(cfg, ReadFrame(f).flag, ReadFrame(f).payload))
    ensures var reaction := Server.Effective(Server.React(cfg, ReadFrame(f).flag, ReadFrame(f).payload), w);
            Server.AnswerFits(cfg, reaction)
            && TiedBy(cfg, c + f, p + Server.AnswerBytes(cfg, reaction), Writes(cfg, c) + w)
  {
    hide ReadFrame, Server.React, Encode, EncodeFrame, Server.Serve, Whole, Writes, ResponseBytes;
    var reaction := Server.Effective(Server.React(cfg, ReadFrame(f).flag, ReadFrame(f).payload), w);
    ServeAppend(cfg, c, f, w);
    ServeOne(cfg, f, w);
    var rs := Server.Serve(cfg, c, Writes(cfg, c)).responses;
    Server.SentAnswer(cfg, rs, reaction);
  }

  lemma TiedStarts(cfg: Server.Config)
    ensures Tied(cfg, [], [], false)
  {
    assert Server.Serve(cfg, [], 0) == Server.Run([], []);
    assert TiedBy(cfg, [], [], 0);
  }

  ghost predicate AllTied(cfg: Server.Config, n: Net) {
    forall st :: Tied(cfg, On(n.consumed, st), On(n.produced, st), st in n.stopped)
  }

  lemma TurnTied(cfg: Server.Config, n: Net, st: StreamId, ok: bool, x: StreamId)
    requires AllTied(cfg, n) && Can(cfg, n, ServeTurn(st, ok)) && ReadFrame(On(n.up, st)).Frame?
    ensures var t := Do(cfg, n, ServeTurn(st, ok)); Tied(cfg, On(t.consumed, x), On(t.produced, x), x in t.stopped)
  {
    hide Do, Can, Tied, ReadFrame, Server.React, Served, Consume, On, Server.AnswerBytes, Server.Events, ReplyFits,
      Server.AnswerFits;
    ServeEffects(cfg, n, st, ok, x);
    ServeDoes(cfg, n, st, ok);
    NotStopped(cfg, n, st, ok);
    assert Tied(cfg, On(n.consumed, x), On(n.produced, x), x in n.stopped);
    if x == st {
      TiedOnStream(cfg, On(n.consumed, st), On(n.produced, st), On(n.up, st), ok);
    } else {
      assert On(n.consumed, x) + [] == On(n.consumed, x) && On(n.produced, x) + [] == On(n.produced, x);
    }
  }

  lemma NotStopped(cfg: Server.Config, n: Net, st: StreamId, ok: bool)
    requires Can(cfg, n, ServeTurn(st, ok))
    ensures st !in n.stopped
  {
  }

  lemma TiedOnStream(cfg: Server.Config, c: Bytes, p: Bytes, s: Bytes, ok: bool)
    requires Tied(cfg, c, p, false) && ReadFrame(s).Frame? && ReplyFits(cfg, ReadFrame(s).flag, ReadFrame(s).payload)
    ensures var r := ReadFrame(s);
            var reaction := Server.Effective(Server.React(cfg, r.flag, r.payload), if ok then 1 else 0);
            Server.AnswerFits(cfg, reaction)
            && Tied(cfg, c + s[..r.next], p + Server.AnswerBytes(cfg, reaction), reaction.Stop?)
  {
    var r := ReadFrame(s);
    var f := s[..r.next];
    ReadFramePrefix(s);
    ReplyFitsMemory(cfg, r.flag, r.payload);
    var plain := Server.React(cfg, r.flag, r.payload);
    var w := if plain.Answer? && ok then 1 else 0;
    var reaction := Server.Effective(plain, if ok then 1 else 0);
    assert Server.Effective(plain, w) == reaction;
    hide ReadFrame, Server.React, TiedBy, Encode, EncodeFrame, ReplyFits;
    TiedFrame(cfg, c, p, f, w);
    if !reaction.Stop? {
      WholeAppend(cfg, c, f);
    }
  }

  /** Every event keeps it. */
  lemma EventTied(cfg: Server.Config, n: Net, e: Event)
    requires AllTied(cfg, n) && Can(cfg, n, e)
    ensures AllTied(cfg, Do(cfg, n, e))
  {
    var t := Do(cfg, n, e);
    if e.ServeTurn? && ReadFrame(On(n.up, e.st)).Frame? {
      forall x
        ensures Tied(cfg, On(t.consumed, x), On(t.produced, x), x in t.stopped)
      {
        hide Do, Can, AllTied, Tied;
        TurnTied(cfg, n, e.st, e.ok, x);
      }
    } else {
      QuietServer(cfg, n, e);
      hide Do, Can, TiedBy, Whole, Writes;
      forall x
        ensures Tied(cfg, On(t.consumed, x), On(t.produced, x), x in t.stopped)
      {
        assert Tied(cfg, On(n.consumed, x), On(n.produced, x), x in n.stopped);
      }
    }
  }

  lemma QuietServer(cfg: Server.Config, n: Net, e: Event)
    requires Can(cfg, n, e) && !(e.ServeTurn? && ReadFrame(On(n.up, e.st)).Frame?)
    ensures var t := Do(cfg, n, e); t.consumed == n.consumed && t.produced == n.produced && n.stopped <= t.stopped
  {
    hide ReadFrame, Do, Can;
    match e
    case ServeTurn(st, ok) => EmptyTurn(cfg, n, st, ok);
    case ReadTurn(st) => ReadEffects(cfg, n, st, st);
    case _ => OtherEffects(cfg, n, e);
  }

  lemma {:induction false} ExecutionTied(cfg: Server.Config, n: Net, events: seq<Event>, t: Net)
    requires AllTied(cfg, n) && Executes(cfg, n, events, t)
    ensures AllTied(cfg, t)
    decreases |events|
  {
    hide Do, Can, AllTied;
    if events != [] {
      EventTied(cfg, n, events[0]);
      ExecutionTied(cfg, Do(cfg, n, events[0]), events[1..], t);
    }
  }

  /** In every run of the composed system the bytes written to a stream are the response frames that the loop
      writes on the bytes read from it. */
  lemma ServerConforms(cfg: Server.Config, events: seq<Event>, t: Net, st: StreamId)
    requires Executes(cfg, START, events, t)
    ensures Tied(cfg, On(t.consumed, st), On(t.produced, st), st in t.stopped)
  {
    TiedStarts(cfg);
    hide Executes;
    ExecutionTied(cfg, START, events, t);
  }
}
