/** Slot circulation over real rings: every queue of module SlotCirculation is a mesh of rings of
    module Ring, whose published read index lags behind.  An acknowledge is an insert, so it can find
    its ring full although few slots are in it. */
module SlotRings {
  import Arithmetic
  import C = SlotCirculation
  import R = Ring

  type RingState = R.State<C.Slot>

  datatype World<T> = World(c: C.State<T>, rings: map<C.Place, RingState>)

  datatype Event<T> =
    | Inner(p: C.Place, re: R.Event<C.Slot>) // a step of a ring that moves no slot
    | Start(e: C.Event<T>)                   // a write or acknowledge begins to insert its slot
    | Put(e: C.Event<T>)                     // and stores it
    | Get(e: C.Event<T>)                     // a pop takes the slot it was handed

  predicate IsRing(p: C.Place) {
    p.Free? || p.Full?
  }

  predicate Pushes<T>(e: C.Event<T>) {
    e.Write? || e.Ack?
  }

  predicate Moveless(re: R.Event<C.Slot>) {
    !re.Insert? && !re.Store? && !re.Ack?
  }

  predicate Enabled<T>(g: C.Wiring, w: World<T>, ev: Event<T>) {
    match ev
    case Inner(p, re) => p in w.rings && Moveless(re) && R.Enabled(w.rings[p], re)
    case Start(e) =>
      Pushes(e) && C.Enabled(g, w.c, e) && C.Target(g, w.c, e) in w.rings
      && w.rings[C.Target(g, w.c, e)].w.WIdle?
    case Put(e) =>
      Pushes(e) && C.Enabled(g, w.c, e) && C.Target(g, w.c, e) in w.rings && C.Target(g, w.c, e) != C.From(e).0
      && R.Enabled(w.rings[C.Target(g, w.c, e)], R.Store) && w.rings[C.Target(g, w.c, e)].w.x == C.Taken(w.c, e)
    case Get(e) =>
      !Pushes(e) && C.Enabled(g, w.c, e) && C.From(e).0 in w.rings && C.Target(g, w.c, e) != C.From(e).0
      && R.Enabled(w.rings[C.From(e).0], R.Ack)
  }

  function Apply<T>(g: C.Wiring, w: World<T>, ev: Event<T>): World<T>
    requires Enabled(g, w, ev)
  {
    match ev
    case Inner(p, re) => w.(rings := w.rings[p := R.Apply(w.rings[p], re)])
    case Start(e) =>
      var q := C.Target(g, w.c, e);
      w.(rings := w.rings[q := R.Apply(w.rings[q], R.Insert(C.Taken(w.c, e)))])
    case Put(e) =>
      var q := C.Target(g, w.c, e);
      World(C.Apply(g, w.c, e), w.rings[q := R.Apply(w.rings[q], R.Store)])
    case Get(e) =>
      var p := C.From(e).0;
      World(C.Apply(g, w.c, e), w.rings[p := R.Apply(w.rings[p], R.Ack)])
  }

  predicate CanRun<T>(g: C.Wiring, w: World<T>, events: seq<Event<T>>)
    decreases |events|
  {
    events == [] || (Enabled(g, w, events[0]) && CanRun(g, Apply(g, w, events[0]), events[1..]))
  }

  function After<T>(g: C.Wiring, w: World<T>, events: seq<Event<T>>): World<T>
    requires CanRun(g, w, events)
    decreases |events|
  {
    if events == [] then w else After(g, Apply(g, w, events[0]), events[1..])
  }

  // ---------------------------------------------------------------- the initial world

  /** A ring into which MPSCWriter::Init has pushed these slots, one Insert each. */
  ghost function Loaded(max: nat, batch: nat, xs: seq<C.Slot>): (s: RingState)
    requires max >= 2 && batch >= 1 && |xs| < max
    ensures R.Inv(s) && s.w.WIdle? && s.r.RIdle? && s.ring.max == max && s.ring.batch == batch
    ensures s.h.log == xs && s.h.delivered == [] && s.h.read == 0
  {
    if xs == [] then
      R.InitInv(max, batch, C.Slot(0, 0));
      R.Init(max, batch, C.Slot(0, 0))
    else
      var s, x := Loaded(max, batch, xs[..|xs| - 1]), xs[|xs| - 1];
      R.FullTest(s);
      R.InsertedInv(s, x);
      R.InsertedHistory(s, x);
      R.Inserted(s, x)
  }

  ghost function Initial<T>(g: C.Wiring, k: nat, max: nat, batch: nat): World<T>
    requires max >= 2 && batch >= 1 && k < max
  {
    var c := C.Init<T>(g, k);
    World(c, map p | p in c.at && IsRing(p) :: Loaded(max, batch, if p.Free? && p.r == 0 then C.Pool(p.w, k) else []))
  }

  // ---------------------------------------------------------------- invariant

  /** The ring's unread items are the slots at its place. */
  predicate Carries(s: RingState, at: seq<C.Slot>) {
    |s.h.delivered| <= |s.h.log| && s.h.log[|s.h.delivered|..] == at
  }

  ghost predicate RingOk(s: RingState, at: seq<C.Slot>, max: nat, batch: nat) {
    R.Inv(s) && s.ring.max == max && s.ring.batch == batch && Carries(s, at)
  }

  ghost predicate Inv<T>(g: C.Wiring, k: nat, max: nat, batch: nat, w: World<T>) {
    && C.Inv(g, k, w.c)
    && Linked(w.rings, w.c.at, max, batch)
  }

  ghost predicate Linked(rings: map<C.Place, RingState>, at: map<C.Place, seq<C.Slot>>, max: nat, batch: nat) {
    && (forall p :: p in rings <==> p in at && IsRing(p))
    && (forall p :: p in rings ==> RingOk(rings[p], at[p], max, batch))
  }

  /** If one ring and its place change together, all still fit. */
  lemma StaysLinked(rings: map<C.Place, RingState>, at: map<C.Place, seq<C.Slot>>, at': map<C.Place, seq<C.Slot>>,
                    p: C.Place, s: RingState, max: nat, batch: nat)
    requires Linked(rings, at, max, batch) && p in rings && at'.Keys == at.Keys
    requires forall q :: q in at && IsRing(q) && q != p ==> at'[q] == at[q]
    requires RingOk(s, at'[p], max, batch)
    ensures Linked(rings[p := s], at', max, batch)
  {
  }

  lemma InitialRings<T>(g: C.Wiring, k: nat, max: nat, batch: nat)
    requires max >= 2 && batch >= 1 && k < max
    ensures var w := Initial<T>(g, k, max, batch);
      && w.c == C.Init<T>(g, k) && (forall p :: p in w.rings <==> p in w.c.at && IsRing(p))
      && forall p :: p in w.rings ==> |w.c.at[p]| < max && w.rings[p] == Loaded(max, batch, w.c.at[p])
  {
    C.InitPlaces<T>(g, k);
  }

  lemma InitialInv<T>(g: C.Wiring, k: nat, max: nat, batch: nat)
    requires C.Straight(g) && |g.readers| > 0 && max >= 2 && batch >= 1 && k < max
    ensures Inv(g, k, max, batch, Initial<T>(g, k, max, batch))
  {
    C.InitInv<T>(g, k);
    InitialRings<T>(g, k, max, batch);
    var w := Initial<T>(g, k, max, batch);
    forall p | p in w.rings ensures RingOk(w.rings[p], w.c.at[p], max, batch) {
      assert w.rings[p] == Loaded(max, batch, w.c.at[p]);
    }
  }

  /** A step that moves no slot changes neither what was inserted nor what was delivered. */
  lemma MovelessKeeps(s: RingState, re: R.Event<C.Slot>, at: seq<C.Slot>, max: nat, batch: nat)
    requires RingOk(s, at, max, batch) && R.Enabled(s, re) && (Moveless(re) || re.Insert?)
    ensures RingOk(R.Apply(s, re), at, max, batch)
  {
    R.StepKeepsInv(s, re);
  }

  lemma StoreAdds(s: RingState, at: seq<C.Slot>, max: nat, batch: nat)
    requires RingOk(s, at, max, batch) && R.Enabled(s, R.Store)
    ensures RingOk(R.Apply(s, R.Store), at + [s.w.x], max, batch)
  {
    R.StepKeepsInv(s, R.Store);
  }

  lemma AckRemoves(s: RingState, at: seq<C.Slot>, max: nat, batch: nat)
    requires RingOk(s, at, max, batch) && R.Enabled(s, R.Ack) && at != []
    ensures RingOk(R.Apply(s, R.Ack), at[1..], max, batch)
  {
    R.StepKeepsInv(s, R.Ack);
  }

  lemma PutPlaces<T>(g: C.Wiring, w: World<T>, e: C.Event<T>)
    requires Enabled(g, w, Put(e))
    ensures var q, at, at' := C.Target(g, w.c, e), w.c.at, C.Apply(g, w.c, e).at;
      && at'.Keys == at.Keys && at'[q] == at[q] + [C.Taken(w.c, e)]
      && forall p :: p in at && IsRing(p) && p != q ==> at'[p] == at[p]
  {
  }

  lemma PutKeepsInv<T>(g: C.Wiring, k: nat, max: nat, batch: nat, w: World<T>, e: C.Event<T>)
    requires C.Straight(g) && Inv(g, k, max, batch, w) && Enabled(g, w, Put(e))
    ensures Inv(g, k, max, batch, Apply(g, w, Put(e)))
  {
    C.StepKeepsInv(g, k, w.c, e);
    var q, s := C.Target(g, w.c, e), w.rings[C.Target(g, w.c, e)];
    assert RingOk(s, w.c.at[q], max, batch);
    StoreAdds(s, w.c.at[q], max, batch);
    PutPlaces(g, w, e);
    StaysLinked(w.rings, w.c.at, C.Apply(g, w.c, e).at, q, R.Apply(s, R.Store), max, batch);
  }

  lemma GetKeepsInv<T>(g: C.Wiring, k: nat, max: nat, batch: nat, w: World<T>, e: C.Event<T>)
    requires C.Straight(g) && Inv(g, k, max, batch, w) && Enabled(g, w, Get(e))
    ensures Inv(g, k, max, batch, Apply(g, w, Get(e)))
  {
    C.StepKeepsInv(g, k, w.c, e);
    var p, s := C.From(e).0, w.rings[C.From(e).0];
    assert RingOk(s, w.c.at[p], max, batch);
    AckRemoves(s, w.c.at[p], max, batch);
    assert C.Without(w.c.at[p], 0) == w.c.at[p][1..];
    StaysLinked(w.rings, w.c.at, C.Apply(g, w.c, e).at, p, R.Apply(s, R.Ack), max, batch);
  }

  lemma StepKeepsInv<T>(g: C.Wiring, k: nat, max: nat, batch: nat, w: World<T>, ev: Event<T>)
    requires C.Straight(g) && Inv(g, k, max, batch, w) && Enabled(g, w, ev)
    ensures Inv(g, k, max, batch, Apply(g, w, ev))
  {
    match ev
    case Inner(p, re) =>
      MovelessKeeps(w.rings[p], re, w.c.at[p], max, batch);
      StaysLinked(w.rings, w.c.at, w.c.at, p, R.Apply(w.rings[p], re), max, batch);
    case Start(e) =>
      var q, re := C.Target(g, w.c, e), R.Insert(C.Taken(w.c, e));
      MovelessKeeps(w.rings[q], re, w.c.at[q], max, batch);
      StaysLinked(w.rings, w.c.at, w.c.at, q, R.Apply(w.rings[q], re), max, batch);
    case Put(e) => PutKeepsInv(g, k, max, batch, w, e);
    case Get(e) => GetKeepsInv(g, k, max, batch, w, e);
  }

  lemma {:induction false} RunKeepsInv<T>(g: C.Wiring, k: nat, max: nat, batch: nat, w: World<T>, events: seq<Event<T>>)
    requires C.Straight(g) && Inv(g, k, max, batch, w) && CanRun(g, w, events)
    ensures Inv(g, k, max, batch, After(g, w, events))
    decreases |events|
  {
    if events != [] {
      StepKeepsInv(g, k, max, batch, w, events[0]);
      RunKeepsInv(g, k, max, batch, Apply(g, w, events[0]), events[1..]);
    }
  }

  /** A ring hands out the slot that circulation takes from its place. */
  lemma HandedSlot<T>(g: C.Wiring, k: nat, max: nat, batch: nat, w: World<T>, p: C.Place)
    requires Inv(g, k, max, batch, w) && p in w.rings && w.rings[p].r.RHave?
    ensures var s := w.rings[p];
      R.Enabled(s, R.Ack) && w.c.at[p] != [] && s.ring.buffer[s.ring.nextReadIndex] == w.c.at[p][0]
  {
    R.SlotHoldsNext(w.rings[p]);
  }

  // ---------------------------------------------------------------- room for an acknowledge

  /** What Insert tests: the published read index says there is a free slot. */
  predicate Room(s: RingState) {
    R.NextVal(s.ring.max, s.ring.nextWriteIndex) != s.ring.readIndex
  }

  /** Distinct slots of owner o, gathered from anywhere, are at most k many. */
  lemma Gathered<T>(g: C.Wiring, k: nat, c: C.State<T>, p: C.Place, x: C.Slot)
    requires C.Inv(g, k, c) && p in c.at && IsRing(p) && C.IsSlot(g, k, x) && x.owner == p.w && !C.In(c.at, p, x)
    ensures |c.at[p]| < k
  {
    var slots := c.at[p] + [x];
    forall y | y in c.at[p] ensures y.owner == p.w && y.index < k {
      assert C.In(c.at, p, y);
      assert C.Belongs(c, p, y) && C.IsSlot(g, k, y);
    }
    C.PigeonHole(slots, p.w, k);
  }

  /** A ring with fewer than k slots has room, if its capacity leaves a batch beside the k. */
  lemma FewSlotsLeaveRoom(s: RingState, at: seq<C.Slot>, k: nat, max: nat, batch: nat)
    requires RingOk(s, at, max, batch) && |at| < k
    ensures max >= k + batch && !s.r.RPublish? ==> Room(s)
    ensures max > k + batch ==> Room(s)
  {
    R.FullTest(s);
    assert |s.h.log| == |s.h.delivered| + |at|;
  }

  /** The ring an acknowledge pushes to holds fewer than k slots in every reachable world. */
  lemma AckTarget<T>(g: C.Wiring, k: nat, max: nat, batch: nat, w: World<T>, e: C.Event<T>)
    requires C.Straight(g) && Inv(g, k, max, batch, w) && e.Ack? && C.Takes(w.c, e)
    ensures C.Enabled(g, w.c, e) && C.Target(g, w.c, e) == C.Free(C.Taken(w.c, e).owner, e.r)
    ensures C.Target(g, w.c, e) in w.rings && |w.c.at[C.Target(g, w.c, e)]| < k
  {
    C.TargetBelongs(g, k, w.c, e);
    var x, p := C.Taken(w.c, e), C.Target(g, w.c, e);
    assert C.In(w.c.at, C.Out(e.r), x);
    Gathered(g, k, w.c, p, x);
  }

  /** In every run an acknowledge finds room, except perhaps between the writer's taking a slot and its
      publishing of the read index, if the capacity is at least k + batch; and always if it is more. */
  lemma AcksFindRoom<T>(g: C.Wiring, k: nat, max: nat, batch: nat, events: seq<Event<T>>, e: C.Event<T>)
    requires C.Straight(g) && |g.readers| > 0 && max >= 2 && batch >= 1 && k < max
    requires var w0 := Initial<T>(g, k, max, batch);
      CanRun(g, w0, events) && e.Ack? && C.Takes(After(g, w0, events).c, e)
    ensures var w := After(g, Initial<T>(g, k, max, batch), events);
      && C.Enabled(g, w.c, e) && C.Target(g, w.c, e) in w.rings
      && var s := w.rings[C.Target(g, w.c, e)];
         (max >= k + batch && !s.r.RPublish? ==> Room(s)) && (max > k + batch ==> Room(s))
  {
    InitialInv<T>(g, k, max, batch);
    var w0 := Initial<T>(g, k, max, batch);
    RunKeepsInv(g, k, max, batch, w0, events);
    var w := After(g, w0, events);
    AckTarget(g, k, max, batch, w, e);
    var p := C.Target(g, w.c, e);
    FewSlotsLeaveRoom(w.rings[p], w.c.at[p], k, max, batch);
  }

  // ---------------------------------------------------------------- an acknowledge that has to wait

  ghost predicate Reachable<T(!new)>(g: C.Wiring, w0: World<T>, w: World<T>) {
    exists events :: CanRun(g, w0, events) && After(g, w0, events) == w
  }

  lemma {:induction false} RunThen<T>(g: C.Wiring, w0: World<T>, events: seq<Event<T>>, ev: Event<T>)
    requires CanRun(g, w0, events) && Enabled(g, After(g, w0, events), ev)
    ensures CanRun(g, w0, events + [ev]) && After(g, w0, events + [ev]) == Apply(g, After(g, w0, events), ev)
    decreases |events|
  {
    if events == [] {
      assert events + [ev] == [ev] && [ev][1..] == [];
    } else {
      RunThen(g, Apply(g, w0, events[0]), events[1..], ev);
      assert (events + [ev])[1..] == events[1..] + [ev];
    }
  }

  lemma Reaches<T(!new)>(g: C.Wiring, w0: World<T>, w: World<T>, ev: Event<T>)
    requires Reachable(g, w0, w) && Enabled(g, w, ev)
    ensures Reachable(g, w0, Apply(g, w, ev))
  {
    var events :| CanRun(g, w0, events) && After(g, w0, events) == w;
    RunThen(g, w0, events, ev);
  }

  /** Only ring p differs, and it by steps of one side that move no slot. */
  ghost predicate OnlyRing<T>(w: World<T>, w': World<T>, p: C.Place) {
    p in w.rings && p in w'.rings && w' == w.(rings := w.rings[p := w'.rings[p]])
  }

  lemma InnerStep<T(!new)>(g: C.Wiring, w0: World<T>, w: World<T>, p: C.Place, re: R.Event<C.Slot>)
      returns (w': World<T>)
    requires Reachable(g, w0, w) && p in w.rings && Moveless(re) && R.Enabled(w.rings[p], re)
    ensures Reachable(g, w0, w') && OnlyRing(w, w', p) && w'.rings[p] == R.Apply(w.rings[p], re)
  {
    w' := Apply(g, w, Inner(p, re));
    Reaches(g, w0, w, Inner(p, re));
  }

  /** The reader of ring p gets as far as holding a slot. */
  lemma Offer<T(!new)>(g: C.Wiring, w0: World<T>, w: World<T>, p: C.Place) returns (w': World<T>)
    requires Reachable(g, w0, w) && p in w.rings && R.Inv(w.rings[p]) && w.rings[p].r.RIdle?
    requires |w.rings[p].h.delivered| < w.rings[p].h.write
    ensures Reachable(g, w0, w') && OnlyRing(w, w', p)
    ensures var s, t := w.rings[p], w'.rings[p];
      && R.Inv(t) && t.r.RHave? && t.w == s.w
      && t.ring.batch == s.ring.batch && t.ring.rBatchCount == s.ring.rBatchCount
      && t.h.log == s.h.log && t.h.delivered == s.h.delivered && t.h.read == s.h.read && t.h.write == s.h.write
  {
    R.EmptyTest(w.rings[p]);
    R.StepKeepsInv(w.rings[p], R.Extract);
    w' := InnerStep(g, w0, w, p, R.Extract);
    if w'.rings[p].r.RTest? {
      R.StepKeepsInv(w'.rings[p], R.Test);
      w' := InnerStep(g, w0, w', p, R.Test);
      R.StepKeepsInv(w'.rings[p], R.Fetch);
      w' := InnerStep(g, w0, w', p, R.Fetch);
    }
  }

  /** A whole pop: the slot moves, and the published read index stays where it is within a batch. */
  lemma PopRun<T(!new)>(g: C.Wiring, w0: World<T>, w: World<T>, e: C.Event<T>) returns (w': World<T>)
    requires Reachable(g, w0, w) && !Pushes(e) && C.Enabled(g, w.c, e) && C.Target(g, w.c, e) != C.From(e).0
    requires var p := C.From(e).0;
      p in w.rings && R.Inv(w.rings[p]) && w.rings[p].r.RIdle? && |w.rings[p].h.delivered| < w.rings[p].h.write
      && w.rings[p].ring.rBatchCount + 1 < w.rings[p].ring.batch
    ensures Reachable(g, w0, w') && w'.c == C.Apply(g, w.c, e)
    ensures var p := C.From(e).0;
      && p in w'.rings && w'.rings == w.rings[p := w'.rings[p]]
      && var s, t := w.rings[p], w'.rings[p];
         && t.w == s.w && t.r.RIdle? && |t.h.delivered| == |s.h.delivered| + 1
         && t.h.log == s.h.log && t.h.read == s.h.read && t.h.write == s.h.write
  {
    var p := C.From(e).0;
    var v := Offer(g, w0, w, p);
    AckWithin(v.rings[p]);
    assert v.c == w.c;
    w' := Apply(g, v, Get(e));
    Reaches(g, w0, v, Get(e));
  }

  lemma AckWithin(s: RingState)
    requires R.Inv(s) && s.r.RHave? && s.ring.rBatchCount + 1 < s.ring.batch
    ensures R.Enabled(s, R.Ack)
    ensures var t := R.Apply(s, R.Ack);
      && t.w == s.w && t.r.RIdle? && |t.h.delivered| == |s.h.delivered| + 1
      && t.h.log == s.h.log && t.h.read == s.h.read && t.h.write == s.h.write
  {
    R.SlotHoldsNext(s);
  }

  /** The writer of the target ring gets as far as knowing a free slot. */
  lemma Admit<T(!new)>(g: C.Wiring, w0: World<T>, w: World<T>, e: C.Event<T>) returns (w': World<T>)
    requires Reachable(g, w0, w) && Pushes(e) && C.Enabled(g, w.c, e)
    requires var q := C.Target(g, w.c, e);
      q in w.rings && R.Inv(w.rings[q]) && w.rings[q].w.WIdle? && Room(w.rings[q])
    ensures Reachable(g, w0, w') && OnlyRing(w, w', C.Target(g, w.c, e))
    ensures var q := C.Target(g, w.c, e);
      var s, t := w.rings[q], w'.rings[q];
      && R.Inv(t) && t.w == R.WStore(C.Taken(w.c, e)) && t.r == s.r
      && t.h.log == s.h.log && t.h.delivered == s.h.delivered && t.h.read == s.h.read
  {
    var q, x := C.Target(g, w.c, e), C.Taken(w.c, e);
    R.StepKeepsInv(w.rings[q], R.Insert(x));
    w' := Apply(g, w, Start(e));
    Reaches(g, w0, w, Start(e));
    if w'.rings[q].w.WSpin? {
      w' := SpinOnce(g, w0, w', q);
    }
  }

  lemma SpinOnce<T(!new)>(g: C.Wiring, w0: World<T>, w: World<T>, q: C.Place) returns (w': World<T>)
    requires Reachable(g, w0, w) && q in w.rings && R.Inv(w.rings[q]) && w.rings[q].w.WSpin? && Room(w.rings[q])
    ensures Reachable(g, w0, w') && OnlyRing(w, w', q)
    ensures var s, t := w.rings[q], w'.rings[q];
      && R.Inv(t) && t.w == R.WStore(s.w.x) && t.r == s.r
      && t.h.log == s.h.log && t.h.delivered == s.h.delivered && t.h.read == s.h.read
  {
    R.StepKeepsInv(w.rings[q], R.Poll);
    w' := InnerStep(g, w0, w, q, R.Poll);
    R.StepKeepsInv(w'.rings[q], R.Reload);
    w' := InnerStep(g, w0, w', q, R.Reload);
  }

  /** What is stored is published and visible. */
  lemma Show<T(!new)>(g: C.Wiring, w0: World<T>, w: World<T>, q: C.Place) returns (w': World<T>)
    requires Reachable(g, w0, w) && q in w.rings && R.Inv(w.rings[q]) && (w.rings[q].w.WIdle? || w.rings[q].w.WPublish?)
    ensures Reachable(g, w0, w') && OnlyRing(w, w', q)
    ensures var s, t := w.rings[q], w'.rings[q];
      && t.w.WIdle? && t.r == s.r && t.h.write == |t.h.log|
      && t.h.log == s.h.log && t.h.delivered == s.h.delivered && t.h.read == s.h.read
  {
    w' := w;
    if w.rings[q].w.WPublish? {
      w' := InnerStep(g, w0, w, q, R.Publish);
    }
    w' := InnerStep(g, w0, w', q, R.FlushWrite(|w'.rings[q].h.log|));
  }

  /** A whole push and a flush: the slot moves and is visible. */
  lemma PushRun<T(!new)>(g: C.Wiring, w0: World<T>, w: World<T>, e: C.Event<T>) returns (w': World<T>)
    requires Reachable(g, w0, w) && Pushes(e) && C.Enabled(g, w.c, e) && C.Target(g, w.c, e) != C.From(e).0
    requires var q := C.Target(g, w.c, e);
      q in w.rings && R.Inv(w.rings[q]) && w.rings[q].w.WIdle? && Room(w.rings[q])
    ensures Reachable(g, w0, w') && w'.c == C.Apply(g, w.c, e)
    ensures var q := C.Target(g, w.c, e);
      && q in w'.rings && w'.rings == w.rings[q := w'.rings[q]]
      && var s, t := w.rings[q], w'.rings[q];
         && t.w.WIdle? && t.r == s.r && t.h.write == |t.h.log| == |s.h.log| + 1
         && t.h.delivered == s.h.delivered && t.h.read == s.h.read
  {
    var q := C.Target(g, w.c, e);
    var v := Admit(g, w0, w, e);
    R.StepKeepsInv(v.rings[q], R.Store);
    var u := Apply(g, v, Put(e));
    Reaches(g, w0, v, Put(e));
    w' := Show(g, w0, u, q);
  }

  /** A system: its wiring, slots per writer, and the rings' capacity and batch size. */
  datatype Setup = Setup(g: C.Wiring, k: nat, max: nat, batch: nat)

  ghost predicate Proper(u: Setup) {
    && C.Straight(u.g) && |u.g.writers| > 0 && |u.g.readers| > 0
    && u.max >= 2 && u.batch >= 1 && 0 < u.k < u.max
  }

  ghost predicate Occurs<T(!new)>(u: Setup, w: World<T>) {
    Proper(u) && Reachable(u.g, Initial<T>(u.g, u.k, u.max, u.batch), w)
  }

  lemma OccursInv<T(!new)>(u: Setup, w: World<T>)
    requires Occurs(u, w)
    ensures Inv(u.g, u.k, u.max, u.batch, w)
  {
    var w0 := Initial<T>(u.g, u.k, u.max, u.batch);
    var events :| CanRun(u.g, w0, events) && After(u.g, w0, events) == w;
    InitialInv<T>(u.g, u.k, u.max, u.batch);
    RunKeepsInv(u.g, u.k, u.max, u.batch, w0, events);
  }

  const FREE := C.Free(0, 0)
  const FULL := C.Full(0, 0)

  ghost predicate RingAt(s: RingState, log: nat, delivered: nat) {
    && s.w.WIdle? && s.r.RIdle? && |s.h.log| == log == s.h.write
    && |s.h.delivered| == delivered && s.h.read == 0
  }

  /** How far the first writer's slots have gone round through the first reader, nothing released yet. */
  ghost predicate Stage<T(!new)>(
    u: Setup, w: World<T>, freed: nat, taken: nat, written: nat, pulled: nat, held: nat, out: nat)
  {
    && Occurs(u, w) && FREE in w.rings && FULL in w.rings && C.Held(0) in w.c.at && C.Out(0) in w.c.at
    && RingAt(w.rings[FREE], freed, taken) && RingAt(w.rings[FULL], written, pulled)
    && |w.c.at[C.Held(0)]| == held && |w.c.at[C.Out(0)]| == out
    && (out > 0 ==> w.c.at[C.Out(0)][0].owner == 0)
  }

  lemma BatchCount(s: RingState, at: seq<C.Slot>, u: Setup)
    requires RingOk(s, at, u.max, u.batch) && s.r.RIdle? && |s.h.delivered| < u.batch
    ensures s.ring.rBatchCount == |s.h.delivered|
  {
    Arithmetic.DivUnique(|s.h.delivered|, u.batch, 0, |s.h.delivered|);
  }

  lemma GetStage<T(!new)>(u: Setup, w: World<T>, freed: nat, taken: nat, n: nat) returns (w': World<T>)
    requires Stage(u, w, freed, taken, n, n, 0, 0) && taken < freed && taken + 1 < u.batch
    ensures Stage(u, w', freed, taken + 1, n, n, 1, 0)
  {
    OccursInv(u, w);
    var e := C.GetSlot(0, 0);
    assert RingOk(w.rings[FREE], w.c.at[FREE], u.max, u.batch);
    BatchCount(w.rings[FREE], w.c.at[FREE], u);
    C.TargetBelongs(u.g, u.k, w.c, e);
    w' := PopRun(u.g, Initial<T>(u.g, u.k, u.max, u.batch), w, e);
  }

  lemma WriteStage<T(!new)>(u: Setup, w: World<T>, freed: nat, taken: nat, n: nat, data: T) returns (w': World<T>)
    requires Stage(u, w, freed, taken, n, n, 1, 0) && n + 1 < u.max
    ensures Stage(u, w', freed, taken, n + 1, n, 0, 0)
  {
    OccursInv(u, w);
    var e := C.Write(0, 0, 0, data);
    assert RingOk(w.rings[FULL], w.c.at[FULL], u.max, u.batch);
    R.FullTest(w.rings[FULL]);
    C.TargetBelongs(u.g, u.k, w.c, e);
    w' := PushRun(u.g, Initial<T>(u.g, u.k, u.max, u.batch), w, e);
  }

  lemma PullStage<T(!new)>(u: Setup, w: World<T>, freed: nat, taken: nat, n: nat) returns (w': World<T>)
    requires Stage(u, w, freed, taken, n + 1, n, 0, 0) && n + 1 < u.batch
    ensures Stage(u, w', freed, taken, n + 1, n + 1, 0, 1)
  {
    OccursInv(u, w);
    var e := C.Pull(0, 0);
    assert C.In(w.c.at, FULL, w.c.at[FULL][0]) by { assert |w.c.at[FULL]| == 1; }
    assert RingOk(w.rings[FULL], w.c.at[FULL], u.max, u.batch);
    BatchCount(w.rings[FULL], w.c.at[FULL], u);
    C.TargetBelongs(u.g, u.k, w.c, e);
    w' := PopRun(u.g, Initial<T>(u.g, u.k, u.max, u.batch), w, e);
  }

  lemma AckStage<T(!new)>(u: Setup, w: World<T>, freed: nat, taken: nat, n: nat) returns (w': World<T>)
    requires Stage(u, w, freed, taken, n, n, 0, 1) && freed + 1 < u.max
    ensures Stage(u, w', freed + 1, taken, n, n, 0, 0)
  {
    OccursInv(u, w);
    var e := C.Ack(0, 0);
    assert RingOk(w.rings[FREE], w.c.at[FREE], u.max, u.batch);
    R.FullTest(w.rings[FREE]);
    C.TargetBelongs(u.g, u.k, w.c, e);
    w' := PushRun(u.g, Initial<T>(u.g, u.k, u.max, u.batch), w, e);
  }

  lemma StartStage<T(!new)>(u: Setup) returns (w: World<T>)
    requires Proper(u)
    ensures Stage(u, w, u.k, 0, 0, 0, 0, 0)
  {
    var w0 := Initial<T>(u.g, u.k, u.max, u.batch);
    InitialAt<T>(u, w0);
    assert CanRun(u.g, w0, []) && After(u.g, w0, []) == w0;
    w := InnerStep(u.g, w0, w0, FREE, R.FlushWrite(u.k));
  }

  lemma InitialAt<T>(u: Setup, w0: World<T>)
    requires Proper(u) && w0 == Initial<T>(u.g, u.k, u.max, u.batch)
    ensures FREE in w0.rings && FULL in w0.rings && C.Held(0) in w0.c.at && C.Out(0) in w0.c.at
    ensures w0.c.at[C.Held(0)] == [] && w0.c.at[C.Out(0)] == []
    ensures var s, t := w0.rings[FREE], w0.rings[FULL];
      && s.w.WIdle? && s.r.RIdle? && |s.h.log| == u.k && s.h.delivered == [] && s.h.read == 0 && RingAt(t, 0, 0)
  {
    InitialRings<T>(u.g, u.k, u.max, u.batch);
    C.InitPlaces<T>(u.g, u.k);
    assert C.IsPlace(u.g, FREE) && C.IsPlace(u.g, FULL) && C.IsPlace(u.g, C.Held(0)) && C.IsPlace(u.g, C.Out(0));
    assert w0.c.at[FREE] == C.Pool(0, u.k) && w0.c.at[FULL] == [];
  }

  /** After n full turns of a slot, the ring has counted n slots more than it holds. */
  lemma {:induction false} Turns<T(!new)>(u: Setup, n: nat, data: T) returns (w: World<T>)
    requires Proper(u) && n < u.batch && u.k + n < u.max
    ensures Stage(u, w, u.k + n, n, n, n, 0, 0)
    decreases n
  {
    if n == 0 {
      w := StartStage<T>(u);
    } else {
      w := Turns(u, n - 1, data);
      w := GetStage(u, w, u.k + n - 1, n - 1, n - 1);
      w := WriteStage(u, w, u.k + n - 1, n, n - 1, data);
      w := PullStage(u, w, u.k + n - 1, n, n - 1);
      w := AckStage(u, w, u.k + n - 1, n, n);
    }
  }

  /** With a smaller capacity some run comes to an acknowledge that finds its ring full, no release
      pending.  With capacity k + 1, as in the source, and batch > 1 it is the very first one of that run.

      After every acknowledge the run publishes the returned slots by the first store of a flush.  The two
      stores of a flush are separate steps, and every reader flushes all rings of a writer's queue, so
      another reader can be held up between the two.  With capacity k + 1 nothing has been taken from a
      ring when it is flushed, and the second store would change nothing. */
  lemma AckCanWait<T(!new)>(u: Setup, data: T) returns (w: World<T>)
    requires Proper(u) && u.max < u.k + u.batch
    ensures Occurs(u, w) && C.Takes(w.c, C.Ack(0, 0)) && !AckRoom(u.g, w, C.Ack(0, 0))
  {
    var n := u.max - 1 - u.k;
    w := Turns(u, n, data);
    w := GetStage(u, w, u.k + n, n, n);
    w := WriteStage(u, w, u.k + n, n + 1, n, data);
    w := PullStage(u, w, u.k + n, n + 1, n);
    FullStage(u, w, n + 1, n + 1);
  }

  lemma FullStage<T(!new)>(u: Setup, w: World<T>, taken: nat, n: nat)
    requires u.max > 0 && Stage(u, w, u.max - 1, taken, n, n, 0, 1)
    ensures C.Takes(w.c, C.Ack(0, 0)) && !AckRoom(u.g, w, C.Ack(0, 0))
  {
    OccursInv(u, w);
    NoRoomAt(w.rings[FREE], w.c.at[FREE], u, taken);
    FirstAckTarget(u, w);
  }

  lemma NoRoomAt(s: RingState, at: seq<C.Slot>, u: Setup, taken: nat)
    requires u.max > 0 && RingOk(s, at, u.max, u.batch) && RingAt(s, u.max - 1, taken)
    ensures !Room(s)
  {
    R.FullTest(s);
  }

  lemma FirstAckTarget<T>(u: Setup, w: World<T>)
    requires Proper(u) && Inv(u.g, u.k, u.max, u.batch, w)
    requires C.Out(0) in w.c.at && w.c.at[C.Out(0)] != [] && w.c.at[C.Out(0)][0].owner == 0
    ensures C.Takes(w.c, C.Ack(0, 0)) && C.Enabled(u.g, w.c, C.Ack(0, 0)) && C.Target(u.g, w.c, C.Ack(0, 0)) == FREE
  {
    AckTarget(u.g, u.k, u.max, u.batch, w, C.Ack(0, 0));
  }

  /** An acknowledge finds a free slot, or the writer is about to publish one. */
  ghost predicate AckRoom<T>(g: C.Wiring, w: World<T>, e: C.Event<T>)
    requires C.Takes(w.c, e)
  {
    && C.Enabled(g, w.c, e) && C.Target(g, w.c, e) in w.rings
    && (w.rings[C.Target(g, w.c, e)].r.RPublish? || Room(w.rings[C.Target(g, w.c, e)]))
  }

  /** In every run every acknowledge finds room, if and only if the rings' capacity is at least the
      number of slots of a writer plus the batch size.  In the source it is the number of slots plus 1. */
  lemma AcksFindRoomIff<T(!new)>(u: Setup, data: T)
    requires Proper(u)
    ensures (forall w: World<T>, e: C.Event<T> :: Occurs(u, w) && e.Ack? && C.Takes(w.c, e) ==> AckRoom(u.g, w, e))
       <==> u.max >= u.k + u.batch
  {
    if u.max >= u.k + u.batch {
      forall w: World<T>, e: C.Event<T> | Occurs(u, w) && e.Ack? && C.Takes(w.c, e) ensures AckRoom(u.g, w, e) {
        OccursInv(u, w);
        AckTarget(u.g, u.k, u.max, u.batch, w, e);
        var p := C.Target(u.g, w.c, e);
        FewSlotsLeaveRoom(w.rings[p], w.c.at[p], u.k, u.max, u.batch);
      }
    } else {
      var w := AckCanWait(u, data);
      var e: C.Event<T> := C.Ack(0, 0);
      assert e.Ack? && C.Takes(w.c, e) && !AckRoom(u.g, w, e);
    }
  }

  // ---------------------------------------------------------------- waiting is short

  /** A full ring still holds all but a batch of its capacity. */
  lemma FullHoldsMany(s: RingState, at: seq<C.Slot>, max: nat, batch: nat)
    requires RingOk(s, at, max, batch) && !Room(s)
    ensures |at| + 1 + batch >= max
  {
    R.FullTest(s);
    assert |s.h.log| == |s.h.delivered| + |at|;
  }

  /** Slots of one writer in two of its rings, and one outside, are at most k many. */
  lemma TwoRings<T>(g: C.Wiring, k: nat, c: C.State<T>, p: C.Place, q: C.Place, x: C.Slot)
    requires C.Inv(g, k, c) && p in c.at && q in c.at && p != q && IsRing(p) && IsRing(q) && p.w == q.w == x.owner
    requires C.IsSlot(g, k, x) && !C.In(c.at, p, x) && !C.In(c.at, q, x)
    ensures |c.at[p]| + |c.at[q]| < k
  {
    var slots := c.at[p] + c.at[q] + [x];
    forall y | y in slots ensures y.owner == p.w && y.index < k {
      if y != x {
        assert C.In(c.at, p, y) || C.In(c.at, q, y);
        assert C.Belongs(c, c.whereIs[y], y) && C.IsSlot(g, k, y);
      }
    }
    forall i, j | 0 <= i < j < |slots| ensures slots[i] != slots[j] {
      if i < |c.at[p]| {
        assert C.In(c.at, p, slots[i]);
      }
      if |c.at[p]| <= j < |c.at[p]| + |c.at[q]| {
        assert C.In(c.at, q, slots[j]);
      }
    }
    C.PigeonHole(slots, p.w, k);
  }

  /** A reader that has to wait with an acknowledge waits for a writer that can go on: none of the rings
      that writer writes to is full, and the full ring has a published slot for it to take.  This takes a
      capacity above 2 * batch + 1 and, of the slots of a writer, at most 2 * (capacity - batch) - 2. */
  lemma WaitedForWriterCanGoOn<T(!new)>(u: Setup, w: World<T>, e: C.Event<T>, r: nat)
    requires Occurs(u, w) && u.max > 2 * u.batch + 1 && u.k + 1 < 2 * (u.max - u.batch)
    requires e.Ack? && C.Takes(w.c, e) && C.Enabled(u.g, w.c, e) && C.Target(u.g, w.c, e) in w.rings
    requires !Room(w.rings[C.Target(u.g, w.c, e)]) && r < |u.g.readers|
    ensures var owner := C.Taken(w.c, e).owner;
      C.Full(r, owner) in w.rings && Room(w.rings[C.Full(r, owner)])
    ensures var s := w.rings[C.Target(u.g, w.c, e)]; |s.h.delivered| < s.h.write
  {
    OccursInv(u, w);
    AckTarget(u.g, u.k, u.max, u.batch, w, e);
    var x, p := C.Taken(w.c, e), C.Target(u.g, w.c, e);
    var q := C.Full(r, x.owner);
    assert C.In(w.c.at, C.Out(e.r), x);
    assert C.IsPlace(u.g, q);
    TwoRings(u.g, u.k, w.c, p, q, x);
    FullHoldsMany(w.rings[p], w.c.at[p], u.max, u.batch);
    if !Room(w.rings[q]) {
      FullHoldsMany(w.rings[q], w.c.at[q], u.max, u.batch);
    }
    assert |w.rings[p].h.log| == |w.rings[p].h.delivered| + |w.c.at[p]|;
  }
}
