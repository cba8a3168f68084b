/** A handler that answers with the request's own body, over an explicit heap of byte arrays shared by the server's
    goroutines through the pool of request objects. */
module Aliasing {
  import opened Wire

  type Addr = nat
  type ObjectId = nat
  type WorkerId = nat

  /** A slice `arrays[addr][..len]`. */
  datatype View = View(addr: Addr, len: nat)

  /** Where a goroutine of the server stands with one request; `data` is history: the body as it arrived. */
  datatype Worker =
    | Ready
    | Parsed(obj: ObjectId, data: Bytes)
    | Handled(obj: ObjectId, data: Bytes, body: View)
    | Released(data: Bytes, body: View)
    | Sent(data: Bytes, reply: Bytes)

  datatype Heap = Heap(
    arrays: map<Addr, Bytes>,          // the byte arrays, whole capacity
    bodies: map<ObjectId, Addr>,       // the array behind the body of each request object
    pool: set<ObjectId>,
    workers: map<WorkerId, Worker>)

  const EMPTY_HEAP: Heap := Heap(map[], map[], {}, map[])

  function WorkerOf(workers: map<WorkerId, Worker>, g: WorkerId): Worker {
    if g in workers then workers[g] else Ready
  }

  datatype Action =
    | Parse(g: WorkerId, obj: ObjectId, addr: Addr, data: Bytes)  // `addr` is used if an array must be allocated
    | Handle(g: WorkerId, addr: Addr)                             // likewise, if the handler copies
    | Release(g: WorkerId)
    | Encode(g: WorkerId)
    | Next(g: WorkerId)

  /** Whether handlers copy the body, and whether only one goroutine serves requests. */
  datatype Setting = Setting(copies: bool, single: bool)

  predicate Enabled(z: Setting, h: Heap, a: Action) {
    && (z.single ==> a.g == 0)
    && match a
       case Parse(g, obj, addr, _) => WorkerOf(h.workers, g).Ready? && (obj in h.pool || obj !in h.bodies) && addr !in h.arrays
       case Handle(g, addr) => WorkerOf(h.workers, g).Parsed? && WorkerOf(h.workers, g).obj in h.bodies && addr !in h.arrays
       case Release(g) => WorkerOf(h.workers, g).Handled?
       case Encode(g) =>
         && WorkerOf(h.workers, g).Released? && WorkerOf(h.workers, g).body.addr in h.arrays
         && WorkerOf(h.workers, g).body.len <= |h.arrays[WorkerOf(h.workers, g).body.addr]|
       case Next(g) => WorkerOf(h.workers, g).Sent?
  }

  function Become(h: Heap, g: WorkerId, w: Worker): Heap {
    h.(workers := h.workers[g := w])
  }

  /** `append(m.Body[:0], data...)`: in place if the array is large enough. */
  function FillBody(h: Heap, obj: ObjectId, addr: Addr, data: Bytes): Heap {
    if obj in h.bodies && h.bodies[obj] in h.arrays && |data| <= |h.arrays[h.bodies[obj]]| then
      h.(arrays := h.arrays[h.bodies[obj] := data + h.arrays[h.bodies[obj]][|data|..]])
    else h.(arrays := h.arrays[addr := data], bodies := h.bodies[obj := addr])
  }

  function Step(z: Setting, h: Heap, a: Action): Heap
    requires Enabled(z, h, a)
  {
    match a
    case Parse(g, obj, addr, data) => Become(FillBody(h.(pool := h.pool - {obj}), obj, addr, data), g, Parsed(obj, data))
    case Handle(g, addr) =>
      var Parsed(obj, data) := WorkerOf(h.workers, g);
      if z.copies then Become(h.(arrays := h.arrays[addr := data]), g, Handled(obj, data, View(addr, |data|)))
      else Become(h, g, Handled(obj, data, View(h.bodies[obj], |data|)))
    case Release(g) =>
      var Handled(obj, data, body) := WorkerOf(h.workers, g);
      Become(h.(pool := h.pool + {obj}), g, Released(data, body))
    case Encode(g) =>
      var Released(data, body) := WorkerOf(h.workers, g);
      Become(h, g, Sent(data, h.arrays[body.addr][..body.len]))
    case Next(g) => Become(h, g, Ready)
  }

  ghost predicate Runs(z: Setting, h: Heap, actions: seq<Action>, t: Heap)
    decreases |actions|
  {
    if actions == [] then h == t
    else Enabled(z, h, actions[0]) && Runs(z, Step(z, h, actions[0]), actions[1..], t)
  }

  /** Every reply sent is the body that arrived. */
  ghost predicate Faithful(h: Heap) {
    forall g :: WorkerOf(h.workers, g).Sent? ==> WorkerOf(h.workers, g).reply == WorkerOf(h.workers, g).data
  }

  // ---- The invariant -------------------------------------------------------------------------

  /** The slice still holds the data. */
  predicate Holds(h: Heap, v: View, data: Bytes) {
    && v.addr in h.arrays && v.len == |data| <= |h.arrays[v.addr]|
    && h.arrays[v.addr][..|data|] == data
  }

  predicate Has(w: Worker, o: ObjectId) {
    (w.Parsed? || w.Handled?) && w.obj == o
  }

  /** No request object's body is in array `addr`. */
  ghost predicate Private(h: Heap, addr: Addr) {
    forall o :: o in h.bodies ==> h.bodies[o] != addr
  }

  ghost predicate WorkerOk(z: Setting, h: Heap, w: Worker) {
    match w
    case Ready => true
    case Parsed(obj, data) => obj in h.bodies && obj !in h.pool && Holds(h, View(h.bodies[obj], |data|), data)
    case Handled(obj, data, body) =>
      && obj in h.bodies && obj !in h.pool && Holds(h, body, data)
      && (if z.copies then Private(h, body.addr) else body.addr == h.bodies[obj])
    case Released(data, body) => Holds(h, body, data) && (z.copies ==> Private(h, body.addr))
    case Sent(data, reply) => reply == data
  }

  /** Request objects have arrays of their own. */
  ghost predicate BodiesOk(h: Heap) {
    && (forall o :: o in h.bodies ==> h.bodies[o] in h.arrays)
    && (forall o, p :: o in h.bodies && p in h.bodies && o != p ==> h.bodies[o] != h.bodies[p])
    && (forall o :: o in h.pool ==> o in h.bodies)
  }

  /** No request object is in two workers' hands; a single worker is worker 0. */
  ghost predicate Apart(z: Setting, workers: map<WorkerId, Worker>) {
    && (forall g, k, o :: g != k && Has(WorkerOf(workers, g), o) ==> !Has(WorkerOf(workers, k), o))
    && (z.single ==> forall g :: g != 0 ==> WorkerOf(workers, g).Ready?)
  }

  ghost predicate Sound(z: Setting, h: Heap) {
    BodiesOk(h) && Apart(z, h.workers) && forall g :: WorkerOk(z, h, WorkerOf(h.workers, g))
  }

  lemma WorkerMoves(z: Setting, workers: map<WorkerId, Worker>, g: WorkerId, w: Worker)
    requires Apart(z, workers) && (z.single ==> g == 0)
    requires forall o, k :: Has(w, o) && k != g ==> !Has(WorkerOf(workers, k), o)
    ensures Apart(z, workers[g := w])
    ensures forall k :: WorkerOf(workers[g := w], k) == if k == g then w else WorkerOf(workers, k)
  {
    hide Has;
    var after := workers[g := w];
    forall k: WorkerId
      ensures WorkerOf(after, k) == if k == g then w else WorkerOf(workers, k)
    {
    }
  }

  /** Filling one object's body leaves other objects' bodies and private arrays alone. */
  lemma FillKeepsOther(z: Setting, h: Heap, obj: ObjectId, addr: Addr, data: Bytes, w: Worker)
    requires BodiesOk(h) && addr !in h.arrays && WorkerOk(z, h, w) && !Has(w, obj)
    requires obj in h.pool || obj !in h.bodies
    requires w.Released? ==> z.copies
    ensures WorkerOk(z, FillBody(h.(pool := h.pool - {obj}), obj, addr, data), w)
  {
    match w
    case Released(d, body) => assert body.addr != addr;
    case Handled(o, d, body) => assert body.addr != addr && o != obj;
    case Parsed(o, d) => assert o != obj;
    case _ =>
  }

  lemma FillHeap(h: Heap, obj: ObjectId, addr: Addr, data: Bytes)
    requires BodiesOk(h) && addr !in h.arrays && (obj in h.pool || obj !in h.bodies)
    ensures var t := FillBody(h.(pool := h.pool - {obj}), obj, addr, data);
            && t.workers == h.workers && t.pool == h.pool - {obj} && obj in t.bodies
            && Holds(t, View(t.bodies[obj], |data|), data) && BodiesOk(t)
  {
    var t := FillBody(h.(pool := h.pool - {obj}), obj, addr, data);
    assert t.arrays[t.bodies[obj]][..|data|] == data;
  }

  /** An object in the pool, or a new one, is in no worker's hands. */
  lemma FreeObject(z: Setting, h: Heap, obj: ObjectId, g: WorkerId)
    requires Sound(z, h) && (obj in h.pool || obj !in h.bodies)
    ensures !Has(WorkerOf(h.workers, g), obj)
  {
    assert WorkerOk(z, h, WorkerOf(h.workers, g));
  }

  /** A worker's state is judged by the arrays, bodies and pool alone. */
  lemma SameHeap(z: Setting, h: Heap, t: Heap, w: Worker)
    requires t.arrays == h.arrays && t.bodies == h.bodies && t.pool == h.pool && WorkerOk(z, h, w)
    ensures WorkerOk(z, t, w)
  {
  }

  lemma ParseSound(z: Setting, h: Heap, a: Action)
    requires Sound(z, h) && (z.copies || z.single) && Enabled(z, h, a) && a.Parse?
    ensures Sound(z, Step(z, h, a))
  {
    hide WorkerOk, FillBody, Has;
    var u, w := FillBody(h.(pool := h.pool - {a.obj}), a.obj, a.addr, a.data), Parsed(a.obj, a.data);
    var t := Step(z, h, a);
    FillHeap(h, a.obj, a.addr, a.data);
    forall k
      ensures !Has(WorkerOf(h.workers, k), a.obj)
    {
      FreeObject(z, h, a.obj, k);
    }
    ParsedHas(a.obj, a.data);
    WorkerMoves(z, h.workers, a.g, w);
    ParsedOk(z, u, w);
    forall k
      ensures WorkerOk(z, t, WorkerOf(t.workers, k))
    {
      if k != a.g {
        FillKeepsOther(z, h, a.obj, a.addr, a.data, WorkerOf(h.workers, k));
      }
      SameHeap(z, u, t, WorkerOf(t.workers, k));
    }
  }

  lemma ParsedHas(obj: ObjectId, data: Bytes)
    ensures forall o :: Has(Parsed(obj, data), o) ==> o == obj
  {
  }

  lemma ParsedOk(z: Setting, u: Heap, w: Worker)
    requires w.Parsed? && w.obj in u.bodies && w.obj !in u.pool && Holds(u, View(u.bodies[w.obj], |w.data|), w.data)
    ensures WorkerOk(z, u, w)
  {
  }

  /** A new array that no body uses leaves every worker as it was. */
  lemma NewArray(z: Setting, h: Heap, addr: Addr, data: Bytes, w: Worker)
    requires WorkerOk(z, h, w) && addr !in h.arrays
    ensures WorkerOk(z, h.(arrays := h.arrays[addr := data]), w)
  {
  }

  lemma HandleSound(z: Setting, h: Heap, a: Action)
    requires Sound(z, h) && Enabled(z, h, a) && a.Handle?
    ensures Sound(z, Step(z, h, a))
  {
    var t, before := Step(z, h, a), WorkerOf(h.workers, a.g);
    assert WorkerOk(z, h, before);
    var w := WorkerOf(t.workers, a.g);
    assert WorkerOk(z, t, w);
    WorkerMoves(z, h.workers, a.g, w);
    hide WorkerOk, Has;
    forall k
      ensures WorkerOk(z, t, WorkerOf(t.workers, k))
    {
      if k != a.g {
        NewArray(z, h, a.addr, before.data, WorkerOf(h.workers, k));
        SameHeap(z, if z.copies then h.(arrays := t.arrays) else h, t, WorkerOf(h.workers, k));
      }
    }
  }

  lemma ReleaseKeepsOther(z: Setting, h: Heap, obj: ObjectId, w: Worker)
    requires WorkerOk(z, h, w) && !Has(w, obj)
    ensures WorkerOk(z, h.(pool := h.pool + {obj}), w)
  {
  }

  lemma ReleaseSound(z: Setting, h: Heap, a: Action)
    requires Sound(z, h) && Enabled(z, h, a) && a.Release?
    ensures Sound(z, Step(z, h, a))
  {
    var t, before := Step(z, h, a), WorkerOf(h.workers, a.g);
    assert WorkerOk(z, h, before) && Has(before, before.obj);
    var w := WorkerOf(t.workers, a.g);
    assert WorkerOk(z, t, w);
    WorkerMoves(z, h.workers, a.g, w);
    hide WorkerOk, Has;
    forall k
      ensures WorkerOk(z, t, WorkerOf(t.workers, k))
    {
      if k != a.g {
        ReleaseKeepsOther(z, h, before.obj, WorkerOf(h.workers, k));
        SameHeap(z, h.(pool := t.pool), t, WorkerOf(h.workers, k));
      }
    }
  }

  lemma SendSound(z: Setting, h: Heap, a: Action)
    requires Sound(z, h) && Enabled(z, h, a) && (a.Encode? || a.Next?)
    ensures Sound(z, Step(z, h, a))
  {
    var t := Step(z, h, a);
    assert WorkerOk(z, h, WorkerOf(h.workers, a.g));
    var w := WorkerOf(t.workers, a.g);
    assert WorkerOk(z, t, w);
    WorkerMoves(z, h.workers, a.g, w);
    hide WorkerOk, Has;
    forall k
      ensures WorkerOk(z, t, WorkerOf(t.workers, k))
    {
      if k != a.g {
        SameHeap(z, h, t, WorkerOf(h.workers, k));
      }
    }
  }

  lemma SoundStep(z: Setting, h: Heap, a: Action)
    requires Sound(z, h) && (z.copies || z.single) && Enabled(z, h, a)
    ensures Sound(z, Step(z, h, a))
  {
    hide Sound, Step, Enabled;
    if a.Parse? {
      ParseSound(z, h, a);
    } else if a.Handle? {
      HandleSound(z, h, a);
    } else if a.Release? {
      ReleaseSound(z, h, a);
    } else {
      SendSound(z, h, a);
    }
  }

  lemma {:induction false} SoundRun(z: Setting, h: Heap, actions: seq<Action>, t: Heap)
    requires Sound(z, h) && (z.copies || z.single) && Runs(z, h, actions, t)
    ensures Sound(z, t)
    decreases |actions|
  {
    hide Sound, Step, Enabled;
    if actions != [] {
      SoundStep(z, h, actions[0]);
      SoundRun(z, Step(z, h, actions[0]), actions[1..], t);
    }
  }

  // ---- When the handler may answer with the request's own body -------------------------------

  ghost predicate Reachable(z: Setting, t: Heap) {
    exists actions :: Runs(z, EMPTY_HEAP, actions, t)
  }

  lemma SafeSettings(z: Setting, t: Heap)
    requires (z.copies || z.single) && Reachable(z, t)
    ensures Faithful(t)
  {
    var actions :| Runs(z, EMPTY_HEAP, actions, t);
    assert Sound(z, EMPTY_HEAP);
    hide Runs;
    SoundRun(z, EMPTY_HEAP, actions, t);
    assert forall g :: WorkerOk(z, t, WorkerOf(t.workers, g));
  }

  const X: Bytes := [1]
  const Y: Bytes := [2]

  function Overwritten(w0: Worker, w1: Worker): Heap {
    Heap(map[0 := Y], map[0 := 0], {}, map[0 := w0, 1 := w1])
  }

  const H1: Heap := Heap(map[0 := X], map[0 := 0], {}, map[0 := Parsed(0, X)])
  const H2: Heap := Heap(map[0 := X], map[0 := 0], {}, map[0 := Handled(0, X, View(0, 1))])
  const H3: Heap := Heap(map[0 := X], map[0 := 0], {0}, map[0 := Released(X, View(0, 1))])

  lemma FirstReleases(z: Setting)
    requires !z.copies && !z.single
    ensures Enabled(z, EMPTY_HEAP, Parse(0, 0, 0, X)) && Step(z, EMPTY_HEAP, Parse(0, 0, 0, X)) == H1
    ensures Enabled(z, H1, Handle(0, 1)) && Step(z, H1, Handle(0, 1)) == H2
    ensures Enabled(z, H2, Release(0)) && Step(z, H2, Release(0)) == H3
  {
    assert Become(H1, 0, Handled(0, X, View(0, 1))) == H2;
  }

  lemma SecondOverwrites(z: Setting)
    requires !z.copies && !z.single
    ensures var h4 := Overwritten(Released(X, View(0, 1)), Parsed(0, Y));
            && Enabled(z, H3, Parse(1, 0, 1, Y)) && Step(z, H3, Parse(1, 0, 1, Y)) == h4
            && Enabled(z, h4, Encode(0)) && Step(z, h4, Encode(0)) == Overwritten(Sent(X, Y), Parsed(0, Y))
  {
    assert Y + X[1..] == Y && Y[..1] == Y;
  }

  /** Worker 0 answers with the body it parsed and releases the request; worker 1 takes the object from the pool
      and parses its own request into the same array; only then does worker 0 encode. */
  lemma SharedArrayRun(z: Setting)
    requires !z.copies && !z.single
    ensures Runs(z, EMPTY_HEAP, [Parse(0, 0, 0, X), Handle(0, 1), Release(0), Parse(1, 0, 1, Y), Encode(0)],
                 Overwritten(Sent(X, Y), Parsed(0, Y)))
  {
    hide Step, Enabled, Runs;
    FirstReleases(z);
    SecondOverwrites(z);
    RunFive(z, [Parse(0, 0, 0, X), Handle(0, 1), Release(0), Parse(1, 0, 1, Y), Encode(0)], H1, H2, H3,
            Overwritten(Released(X, View(0, 1)), Parsed(0, Y)), Overwritten(Sent(X, Y), Parsed(0, Y)));
  }

  lemma RunFive(z: Setting, s: seq<Action>, h1: Heap, h2: Heap, h3: Heap, h4: Heap, h5: Heap)
    requires |s| == 5
    requires Enabled(z, EMPTY_HEAP, s[0]) && Step(z, EMPTY_HEAP, s[0]) == h1
    requires Enabled(z, h1, s[1]) && Step(z, h1, s[1]) == h2
    requires Enabled(z, h2, s[2]) && Step(z, h2, s[2]) == h3
    requires Enabled(z, h3, s[3]) && Step(z, h3, s[3]) == h4
    requires Enabled(z, h4, s[4]) && Step(z, h4, s[4]) == h5
    ensures Runs(z, EMPTY_HEAP, s, h5)
  {
    hide Step, Enabled;
    assert Runs(z, h5, s[5..], h5);
    assert s[4..][1..] == s[5..] && s[3..][1..] == s[4..] && s[2..][1..] == s[3..] && s[1..][1..] == s[2..];
    assert Runs(z, h4, s[4..], h5);
    assert Runs(z, h3, s[3..], h5);
    assert Runs(z, h2, s[2..], h5);
    assert Runs(z, h1, s[1..], h5);
  }

  /** A handler may answer with the request's own body, which is released before the response is encoded, if and
      only if it copies it or no second goroutine serves requests. */
  lemma EchoIsFaithfulExactly(z: Setting)
    ensures (forall t :: Reachable(z, t) ==> Faithful(t)) <==> z.copies || z.single
  {
    if z.copies || z.single {
      hide Reachable, Faithful;
      forall t | Reachable(z, t)
        ensures Faithful(t)
      {
        SafeSettings(z, t);
      }
    } else {
      SharedArrayRun(z);
      var t := Overwritten(Sent(X, Y), Parsed(0, Y));
      assert Reachable(z, t);
      hide Runs;
      assert WorkerOf(t.workers, 0) == Sent(X, Y);
    }
  }
}
