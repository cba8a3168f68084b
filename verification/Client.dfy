/** Request/response correlation on the client, as interleaved atomic steps of any number of callers and
    reader goroutines over the shared channel table and the pool of capacity-1 channels. Responses arrive
    from an arbitrary peer. */
module Client {
  import opened Wire
  import opened Codec

  type Chan = nat
  type CallId = nat
  type ReaderId = nat

  /** A decoded response object; `serial` tells apart two decodings of the same bytes. */
  datatype Packet = Packet(serial: nat, msg: Message)

  /** A table entry. `origin` is history: the call whose `Store` made the entry. No step depends on it. */
  datatype Entry = Entry(ch: Chan, origin: CallId)

  /** The content of a channel's one-element buffer; `origin` is carried over from the entry. */
  datatype Slot = Slot(packet: Packet, origin: CallId)

  datatype Outcome =
    | Rejected                               // the client was closed
    | SendFailed
    | Abandoned                              // the context ended or the client was closed while waiting
    | Replied(packet: Packet)

  /** Where a `SendRequest` call stands. */
  datatype Phase =
    | Begun
    | Open                                   // past the closed check
    | HasChannel(ch: Chan)
    | Stored(ch: Chan)
    | Encoded(ch: Chan)                      // the request object is back in its pool
    | Waiting(ch: Chan)
    | Failing(ch: Chan)                      // the frame is out but `Write` reported an error
    | Undoing(ch: Chan)                      // send error: entry deleted, channel still to be put back
    | Received(ch: Chan, packet: Packet)
    | Detached                               // channel put back, entry still to be deleted
    | Returned(outcome: Outcome)

  /** `req` carries the id sent; `waitId` is the id `waitResponse` deletes. The rest is history: the channels
      got and put back, whether the frame went out, and whether nothing referred to the channel at `Store`. */
  datatype Call = Call(req: Message, waitId: nat, phase: Phase, got: seq<Chan>, put: seq<Chan>, sent: bool, clean: bool)

  datatype Reader =
    | Idle
    | Decoded(packet: Packet)
    | Holding(packet: Packet, entry: Entry)

  datatype State = State(
    calls: map<CallId, Call>,
    table: map<nat, Entry>,
    pool: multiset<Chan>,
    buffers: map<Chan, Option<Slot>>,
    readers: map<ReaderId, Reader>,
    closed: bool,
    decoded: nat)                            // history: how many responses have been decoded

  const INIT: State := State(map[], map[], multiset{}, map[], map[], false, 0)

  datatype Action =
    | Begin(c: CallId, req: Message, first: nat, second: nat)
    | CheckClosed(c: CallId)
    | GetPooled(c: CallId, ch: Chan)
    | GetNew(c: CallId, ch: Chan)
    | Store(c: CallId)
    | EncodeAndRelease(c: CallId)
    | Write(c: CallId)
    | WriteError(c: CallId)                  // the frame goes out, and an error is reported
    | FailDelete(c: CallId, key: nat, late: bool)
    | FailPut(c: CallId)
    | Receive(c: CallId)
    | PutBack(c: CallId)
    | Abandon(c: CallId, byClose: bool)
    | AbandonDelete(c: CallId)
    | Close
    | Decode(r: ReaderId, msg: Message)
    | Lookup(r: ReaderId)
    | Deliver(r: ReaderId)
    | DropPooled(ch: Chan)

  function ReaderOf(readers: map<ReaderId, Reader>, r: ReaderId): Reader {
    if r in readers then readers[r] else Idle
  }

  /** The channel a call owns: from `getChan` to `putChan`. */
  function Held(p: Phase): Option<Chan> {
    match p
    case HasChannel(ch) => Some(ch)
    case Stored(ch) => Some(ch)
    case Encoded(ch) => Some(ch)
    case Waiting(ch) => Some(ch)
    case Failing(ch) => Some(ch)
    case Undoing(ch) => Some(ch)
    case Received(ch, _) => Some(ch)
    case _ => None
  }

  /** The response a call has received. */
  function Got(p: Phase): Option<Packet> {
    match p
    case Received(_, packet) => Some(packet)
    case Returned(Replied(packet)) => Some(packet)
    case _ => None
  }

  function Channel(calls: map<CallId, Call>, c: CallId): Option<Chan> {
    if c in calls then Held(calls[c].phase) else None
  }

  // ---- What refers to a channel --------------------------------------------------------------

  datatype Place = InTable(id: nat) | AtReader(r: ReaderId) | InChannel(ch: Chan) | AtCall(c: CallId)

  /** A reference to a channel, under the id that leads to it: a table entry, an entry in a reader's hands,
      or a response lying in the channel. */
  datatype Ref = Ref(origin: CallId, ch: Chan, id: nat)

  function RefAt(s: State, x: Place): Option<Ref> {
    match x
    case InTable(id) => if id in s.table then Some(Ref(s.table[id].origin, s.table[id].ch, id)) else None
    case AtReader(r) =>
      (match ReaderOf(s.readers, r)
       case Holding(p, e) => Some(Ref(e.origin, e.ch, p.msg.requestId))
       case _ => None)
    case InChannel(ch) =>
      if ch in s.buffers && s.buffers[ch].Some? then
        Some(Ref(s.buffers[ch].value.origin, ch, s.buffers[ch].value.packet.msg.requestId))
      else None
    case AtCall(_) => None
  }

  /** The decoded response at a place: with a reader, in a channel, or received by a call. */
  function PacketAt(s: State, x: Place): Option<Packet> {
    match x
    case InTable(_) => None
    case AtReader(r) =>
      (match ReaderOf(s.readers, r) case Idle => None case Decoded(p) => Some(p) case Holding(p, _) => Some(p))
    case InChannel(ch) =>
      if ch in s.buffers && s.buffers[ch].Some? then Some(s.buffers[ch].value.packet) else None
    case AtCall(c) => if c in s.calls then Got(s.calls[c].phase) else None
  }

  ghost predicate Unreferenced(s: State, ch: Chan) {
    forall x :: RefAt(s, x).Some? ==> RefAt(s, x).value.ch != ch
  }

  // ---- Steps ---------------------------------------------------------------------------------

  predicate Enabled(s: State, a: Action) {
    match a
    case Begin(c, _, _, _) => c !in s.calls
    case CheckClosed(c) => c in s.calls && s.calls[c].phase.Begun?
    case GetPooled(c, ch) => c in s.calls && s.calls[c].phase.Open? && ch in s.pool
    case GetNew(c, ch) => c in s.calls && s.calls[c].phase.Open? && ch !in s.buffers
    case Store(c) => c in s.calls && s.calls[c].phase.HasChannel?
    case EncodeAndRelease(c) => c in s.calls && s.calls[c].phase.Stored?
    case Write(c) => c in s.calls && s.calls[c].phase.Encoded?
    case WriteError(c) => c in s.calls && s.calls[c].phase.Encoded?
    case FailDelete(c, _, late) => c in s.calls && (if late then s.calls[c].phase.Failing? else s.calls[c].phase.Encoded?)
    case FailPut(c) => c in s.calls && s.calls[c].phase.Undoing?
    case Receive(c) =>
      && c in s.calls && s.calls[c].phase.Waiting?
      && s.calls[c].phase.ch in s.buffers && s.buffers[s.calls[c].phase.ch].Some?
    case PutBack(c) => c in s.calls && s.calls[c].phase.Received?
    case Abandon(c, byClose) => c in s.calls && s.calls[c].phase.Waiting? && (byClose ==> s.closed)
    case AbandonDelete(c) => c in s.calls && s.calls[c].phase.Detached?
    case Close => true
    case Decode(r, _) => ReaderOf(s.readers, r).Idle?
    case Lookup(r) => ReaderOf(s.readers, r).Decoded?
    case Deliver(r) => ReaderOf(s.readers, r).Holding? && ReaderOf(s.readers, r).entry.ch in s.buffers
    case DropPooled(ch) => ch in s.pool
  }

  function Update(s: State, c: CallId, k: Call): State {
    s.(calls := s.calls[c := k])
  }

  function Move(s: State, c: CallId, p: Phase): State
    requires c in s.calls
  {
    Update(s, c, s.calls[c].(phase := p))
  }

  /** `getChan` handed `ch` to call `c`. */
  function Acquire(s: State, c: CallId, ch: Chan): State
    requires c in s.calls
  {
    Update(s, c, s.calls[c].(phase := HasChannel(ch), got := s.calls[c].got + [ch]))
  }

  /** `putChan` by call `c`, which goes on to phase `p`. */
  function GiveBack(s: State, c: CallId, ch: Chan, p: Phase): State
    requires c in s.calls
  {
    Update(s, c, s.calls[c].(phase := p, put := s.calls[c].put + [ch])).(pool := s.pool + multiset{ch})
  }

  ghost function Step(s: State, a: Action): State
    requires Enabled(s, a)
  {
    match a
    case Begin(c, req, first, second) =>
      // SendRequest draws an id if the request has none; sendRequestInternal draws again if that is zero
      var id := if req.requestId == 0 then first else req.requestId;
      var sentId := if id == 0 then second else id;
      Update(s, c, Call(req.(requestId := sentId), id, Begun, [], [], false, false))
    case CheckClosed(c) => Move(s, c, if s.closed then Returned(Rejected) else Open)
    case GetPooled(c, ch) => Acquire(s.(pool := s.pool - multiset{ch}), c, ch)
    case GetNew(c, ch) => Acquire(s.(buffers := s.buffers[ch := None]), c, ch)
    case Store(c) =>
      var ch := s.calls[c].phase.ch;
      Update(s, c, s.calls[c].(phase := Stored(ch), clean := Unreferenced(s, ch)))
      .(table := s.table[s.calls[c].req.requestId := Entry(ch, c)])
    case EncodeAndRelease(c) => Move(s, c, Encoded(s.calls[c].phase.ch))
    case Write(c) => Update(s, c, s.calls[c].(phase := Waiting(s.calls[c].phase.ch), sent := true))
    case WriteError(c) => Update(s, c, s.calls[c].(phase := Failing(s.calls[c].phase.ch), sent := true))
    case FailDelete(c, key, _) =>
      // Delete(req.RequestId) on the released object: 0, or the id of whoever reuses it
      Move(s.(table := s.table - {key}), c, Undoing(s.calls[c].phase.ch))
    case FailPut(c) => GiveBack(s, c, s.calls[c].phase.ch, Returned(SendFailed))
    case Receive(c) =>
      var ch := s.calls[c].phase.ch;
      Move(s.(buffers := s.buffers[ch := None]), c, Received(ch, s.buffers[ch].value.packet))
    case PutBack(c) =>
      var p := s.calls[c].phase;
      GiveBack(s, c, p.ch, Returned(Replied(p.packet)))
    case Abandon(c, _) => GiveBack(s, c, s.calls[c].phase.ch, Detached)
    case AbandonDelete(c) => Move(s.(table := s.table - {s.calls[c].waitId}), c, Returned(Abandoned))
    case Close => s.(closed := true)
    case Decode(r, msg) =>
      s.(readers := s.readers[r := Decoded(Packet(s.decoded, msg))], decoded := s.decoded + 1)
    case Lookup(r) =>
      var p := ReaderOf(s.readers, r).packet;
      var id := p.msg.requestId;
      if id in s.table then s.(readers := s.readers[r := Holding(p, s.table[id])], table := s.table - {id})
      else s.(readers := s.readers[r := Idle])
    case Deliver(r) =>
      var Holding(p, e) := ReaderOf(s.readers, r);
      if s.buffers[e.ch].None? then
        s.(readers := s.readers[r := Idle], buffers := s.buffers[e.ch := Some(Slot(p, e.origin))])
      else s.(readers := s.readers[r := Idle])
    case DropPooled(ch) => s.(pool := s.pool - multiset{ch})
  }

  /** `actions` leads from `s` to `t`. */
  ghost predicate Runs(s: State, actions: seq<Action>, t: State)
    decreases |actions|
  {
    if actions == [] then s == t
    else Enabled(s, actions[0]) && Runs(Step(s, actions[0]), actions[1..], t)
  }

  // ---- Channels are linear -------------------------------------------------------------------

  /** What a call has got, put back and sent so far, by phase. */
  predicate Accounted(k: Call) {
    match k.phase
    case Begun => k.got == [] && k.put == [] && !k.sent
    case Open => k.got == [] && k.put == [] && !k.sent
    case Detached => |k.got| == 1 && k.put == k.got && k.sent
    case Returned(Rejected) => k.got == [] && k.put == [] && !k.sent
    case Returned(SendFailed) => |k.got| == 1 && k.put == k.got
    case Returned(_) => |k.got| == 1 && k.put == k.got && k.sent
    case Undoing(ch) => k.got == [ch] && k.put == []
    case _ =>
      && k.got == [Held(k.phase).value] && k.put == []
      && (k.sent <==> !k.phase.HasChannel? && !k.phase.Stored? && !k.phase.Encoded?)
  }

  ghost predicate Linear(s: State) {
    && (forall c :: c in s.calls ==> Accounted(s.calls[c]))
    && (forall ch :: s.pool[ch] <= 1)
    && (forall c :: Channel(s.calls, c).Some? ==> Channel(s.calls, c).value in s.buffers && s.pool[Channel(s.calls, c).value] == 0)
    && (forall c, d :: c != d && Channel(s.calls, c).Some? ==> Channel(s.calls, c) != Channel(s.calls, d))
    && (forall ch :: ch in s.pool ==> ch in s.buffers)
    && (forall id :: id in s.table ==> s.table[id].ch in s.buffers)
    && (forall r :: ReaderOf(s.readers, r).Holding? ==> ReaderOf(s.readers, r).entry.ch in s.buffers)
  }

  lemma LinearUpdate(s: State, c: CallId, k: Call)
    requires Linear(s) && Held(k.phase) == Channel(s.calls, c) && Accounted(k)
    ensures Linear(Update(s, c, k))
  {
    var t := Update(s, c, k);
    assert forall d :: Channel(t.calls, d) == Channel(s.calls, d);
  }

  lemma LinearTable(s: State, table: map<nat, Entry>)
    requires Linear(s) && forall id :: id in table ==> table[id].ch in s.buffers
    ensures Linear(s.(table := table))
  {
  }

  lemma LinearReader(s: State, r: ReaderId, x: Reader)
    requires Linear(s) && (x.Holding? ==> x.entry.ch in s.buffers)
    ensures Linear(s.(readers := s.readers[r := x]))
  {
    var t := s.(readers := s.readers[r := x]);
    assert forall q :: ReaderOf(t.readers, q) == if q == r then x else ReaderOf(s.readers, q);
  }

  lemma LinearBuffer(s: State, ch: Chan, x: Option<Slot>)
    requires Linear(s)
    ensures Linear(s.(buffers := s.buffers[ch := x]))
  {
  }

  lemma LinearPool(s: State, ch: Chan)
    requires Linear(s)
    ensures Linear(s.(pool := s.pool - multiset{ch}))
  {
  }

  /** A channel nobody has is handed out. */
  lemma LinearAcquire(s: State, c: CallId, ch: Chan)
    requires Linear(s) && c in s.calls && s.calls[c].phase.Open?
    requires ch in s.buffers && s.pool[ch] == 0 && forall d :: Channel(s.calls, d) != Some(ch)
    ensures Linear(Acquire(s, c, ch))
  {
    var t := Acquire(s, c, ch);
    assert forall d :: Channel(t.calls, d) == if d == c then Some(ch) else Channel(s.calls, d);
  }

  lemma LinearGiveBack(s: State, c: CallId, ch: Chan, p: Phase)
    requires Linear(s) && Channel(s.calls, c) == Some(ch) && Held(p).None?
    requires Accounted(s.calls[c].(phase := p, put := s.calls[c].put + [ch]))
    ensures Linear(GiveBack(s, c, ch, p))
  {
    var t := GiveBack(s, c, ch, p);
    assert forall d :: Channel(t.calls, d) == if d == c then None else Channel(s.calls, d);
  }

  /** The closed flag and the decoding counter play no part. */
  lemma LinearFlags(s: State, closed: bool, decoded: nat)
    requires Linear(s)
    ensures Linear(s.(closed := closed, decoded := decoded))
  {
  }

  lemma LinearDelete(s: State, key: nat)
    requires Linear(s)
    ensures Linear(s.(table := s.table - {key}))
  {
    LinearTable(s, s.table - {key});
  }

  lemma LinearGetPooled(s: State, c: CallId, ch: Chan)
    requires Linear(s) && Enabled(s, GetPooled(c, ch))
    ensures Linear(Step(s, GetPooled(c, ch)))
  {
    LinearPool(s, ch);
    assert forall d :: Channel(s.calls, d) != Some(ch);
    LinearAcquire(s.(pool := s.pool - multiset{ch}), c, ch);
  }

  lemma LinearGetNew(s: State, c: CallId, ch: Chan)
    requires Linear(s) && Enabled(s, GetNew(c, ch))
    ensures Linear(Step(s, GetNew(c, ch)))
  {
    LinearBuffer(s, ch, None);
    assert forall d :: Channel(s.calls, d) != Some(ch);
    LinearAcquire(s.(buffers := s.buffers[ch := None]), c, ch);
  }

  lemma LinearStore(s: State, c: CallId)
    requires Linear(s) && Enabled(s, Store(c))
    ensures Linear(Step(s, Store(c)))
  {
    hide Unreferenced;
    var t := Step(s, Store(c));
    assert Channel(s.calls, c) == Some(s.calls[c].phase.ch);
    LinearTable(s, t.table);
    LinearUpdate(s.(table := t.table), c, t.calls[c]);
  }

  lemma LinearAccounts(s: State, c: CallId)
    requires Linear(s) && c in s.calls
    ensures Accounted(s.calls[c])
  {
  }

  predicate Starting(a: Action) {
    a.Begin? || a.CheckClosed? || a.GetPooled? || a.GetNew? || a.Store?
  }

  predicate Sending(a: Action) {
    a.EncodeAndRelease? || a.Write? || a.WriteError? || a.FailDelete? || a.FailPut?
  }

  predicate Finishing(a: Action) {
    a.Receive? || a.PutBack? || a.Abandon? || a.AbandonDelete?
  }

  lemma LinearStarting(s: State, a: Action)
    requires Linear(s) && Enabled(s, a) && Starting(a)
    ensures Linear(Step(s, a))
  {
    hide Unreferenced;
    match a
    case Begin(c, _, _, _) => LinearUpdate(s, c, Step(s, a).calls[c]);
    case CheckClosed(c) => LinearUpdate(s, c, Step(s, a).calls[c]);
    case GetPooled(c, ch) => LinearGetPooled(s, c, ch);
    case GetNew(c, ch) => LinearGetNew(s, c, ch);
    case Store(c) => LinearStore(s, c);
  }

  lemma LinearFailDelete(s: State, c: CallId, key: nat, late: bool)
    requires Linear(s) && Enabled(s, FailDelete(c, key, late))
    ensures Linear(Step(s, FailDelete(c, key, late)))
  {
    LinearAccounts(s, c);
    hide Linear;
    LinearDelete(s, key);
    LinearUpdate(s.(table := s.table - {key}), c, Step(s, FailDelete(c, key, late)).calls[c]);
  }

  lemma LinearAdvance(s: State, a: Action)
    requires Linear(s) && Enabled(s, a) && (a.EncodeAndRelease? || a.Write? || a.WriteError?)
    ensures Linear(Step(s, a))
  {
    LinearAccounts(s, a.c);
    hide Linear;
    LinearUpdate(s, a.c, Step(s, a).calls[a.c]);
  }

  lemma LinearFailPut(s: State, c: CallId)
    requires Linear(s) && Enabled(s, FailPut(c))
    ensures Linear(Step(s, FailPut(c)))
  {
    LinearAccounts(s, c);
    hide Linear;
    LinearGiveBack(s, c, s.calls[c].phase.ch, Returned(SendFailed));
  }

  lemma LinearSending(s: State, a: Action)
    requires Linear(s) && Enabled(s, a) && Sending(a)
    ensures Linear(Step(s, a))
  {
    hide Linear, Step, Enabled;
    match a
    case FailPut(c) => LinearFailPut(s, c);
    case FailDelete(c, key, late) => LinearFailDelete(s, c, key, late);
    case _ => LinearAdvance(s, a);
  }

  lemma LinearReceive(s: State, c: CallId)
    requires Linear(s) && Enabled(s, Receive(c))
    ensures Linear(Step(s, Receive(c)))
  {
    LinearAccounts(s, c);
    hide Linear;
    var ch := s.calls[c].phase.ch;
    LinearBuffer(s, ch, None);
    LinearUpdate(s.(buffers := s.buffers[ch := None]), c, Step(s, Receive(c)).calls[c]);
  }

  lemma LinearAbandon(s: State, c: CallId, byClose: bool)
    requires Linear(s) && Enabled(s, Abandon(c, byClose))
    ensures Linear(Step(s, Abandon(c, byClose)))
  {
    LinearAccounts(s, c);
    hide Linear;
    LinearGiveBack(s, c, s.calls[c].phase.ch, Detached);
  }

  lemma LinearAbandonDelete(s: State, c: CallId)
    requires Linear(s) && Enabled(s, AbandonDelete(c))
    ensures Linear(Step(s, AbandonDelete(c)))
  {
    LinearAccounts(s, c);
    hide Linear;
    LinearDelete(s, s.calls[c].waitId);
    LinearUpdate(s.(table := s.table - {s.calls[c].waitId}), c, Step(s, AbandonDelete(c)).calls[c]);
  }

  lemma LinearPutBack(s: State, c: CallId)
    requires Linear(s) && Enabled(s, PutBack(c))
    ensures Linear(Step(s, PutBack(c)))
  {
    LinearAccounts(s, c);
    hide Linear;
    LinearGiveBack(s, c, s.calls[c].phase.ch, Step(s, PutBack(c)).calls[c].phase);
  }

  lemma LinearFinishing(s: State, a: Action)
    requires Linear(s) && Enabled(s, a) && Finishing(a)
    ensures Linear(Step(s, a))
  {
    hide Linear, Step, Enabled;
    match a
    case Receive(c) => LinearReceive(s, c);
    case PutBack(c) => LinearPutBack(s, c);
    case Abandon(c, byClose) => LinearAbandon(s, c, byClose);
    case AbandonDelete(c) => LinearAbandonDelete(s, c);
  }

  lemma LinearDecode(s: State, r: ReaderId, msg: Message)
    requires Linear(s) && Enabled(s, Decode(r, msg))
    ensures Linear(Step(s, Decode(r, msg)))
  {
    hide Linear;
    var x := Decoded(Packet(s.decoded, msg));
    LinearReader(s, r, x);
    LinearFlags(s.(readers := s.readers[r := x]), s.closed, s.decoded + 1);
  }

  lemma LinearLookup(s: State, r: ReaderId)
    requires Linear(s) && Enabled(s, Lookup(r))
    ensures Linear(Step(s, Lookup(r)))
  {
    var t := Step(s, Lookup(r));
    LinearReader(s, r, ReaderOf(t.readers, r));
    LinearTable(s.(readers := t.readers), t.table);
  }

  lemma LinearDeliver(s: State, r: ReaderId)
    requires Linear(s) && Enabled(s, Deliver(r))
    ensures Linear(Step(s, Deliver(r)))
  {
    hide Linear;
    var e := ReaderOf(s.readers, r).entry;
    LinearReader(s, r, Idle);
    LinearBuffer(s.(readers := s.readers[r := Idle]), e.ch, Step(s, Deliver(r)).buffers[e.ch]);
    assert s.buffers[e.ch := s.buffers[e.ch]] == s.buffers;
  }

  lemma LinearReaderStep(s: State, a: Action)
    requires Linear(s) && Enabled(s, a) && !Starting(a) && !Sending(a) && !Finishing(a)
    ensures Linear(Step(s, a))
  {
    hide Linear;
    match a
    case Close => LinearFlags(s, true, s.decoded);
    case Decode(r, msg) => LinearDecode(s, r, msg);
    case Lookup(r) => LinearLookup(s, r);
    case Deliver(r) => LinearDeliver(s, r);
    case DropPooled(ch) => LinearPool(s, ch);
  }

  /** Every step keeps channels linear, whatever else it does. */
  lemma LinearStep(s: State, a: Action)
    requires Linear(s) && Enabled(s, a)
    ensures Linear(Step(s, a))
  {
    hide Linear, Step;
    if Starting(a) {
      LinearStarting(s, a);
    } else if Sending(a) {
      LinearSending(s, a);
    } else if Finishing(a) {
      LinearFinishing(s, a);
    } else {
      LinearReaderStep(s, a);
    }
  }
}
