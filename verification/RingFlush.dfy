/** ZeroRingBuffer::Flush as any number of threads run it (src/queues/zerocopy_ringbuffer.hpp:134-137): each
    of its two assignments loads one side's next index and then stores it as that side's published index,
    and both sides may go on in between.  EmitFinish makes a compute thread flush the rings of others
    (src/thread/compute_thread.hpp:186-198, src/queues/mpsc_writer_indirect_mesh.hpp:43-47). */
module RingFlush {
  import R = Ring

  /** Where a flushing thread is: what it has loaded, and the counter that this index stands for. */
  datatype Pc = Idle | HasWrite(index: nat, n: nat) | Between | HasRead(index: nat, n: nat)

  datatype World<T> = World(s: R.State<T>, flushers: seq<Pc>)

  datatype Event<T> =
    | Own(e: R.Event<T>)  // a step of the ring's writer or reader
    | LoadWrite(t: nat) | StoreWrite(t: nat) | LoadRead(t: nat) | StoreRead(t: nat)

  predicate Enabled<T>(w: World<T>, e: Event<T>) {
    match e
    case Own(re) => !re.FlushWrite? && !re.FlushRead? && R.Enabled(w.s, re)
    case LoadWrite(t) => t < |w.flushers| && w.flushers[t].Idle?
    case StoreWrite(t) => t < |w.flushers| && w.flushers[t].HasWrite?
    case LoadRead(t) => t < |w.flushers| && w.flushers[t].Between?
    case StoreRead(t) => t < |w.flushers| && w.flushers[t].HasRead?
  }

  function Apply<T>(w: World<T>, e: Event<T>): World<T>
    requires Enabled(w, e)
  {
    var s := w.s;
    match e
    case Own(re) => w.(s := R.Apply(s, re))
    case LoadWrite(t) => w.(flushers := w.flushers[t := HasWrite(s.ring.nextWriteIndex, |s.h.log|)])
    case StoreWrite(t) =>
      World(s.(ring := s.ring.(writeIndex := w.flushers[t].index), h := s.h.(write := w.flushers[t].n)),
            w.flushers[t := Between])
    case LoadRead(t) => w.(flushers := w.flushers[t := HasRead(s.ring.nextReadIndex, |s.h.delivered|)])
    case StoreRead(t) =>
      World(s.(ring := s.ring.(readIndex := w.flushers[t].index), h := s.h.(read := w.flushers[t].n)),
            w.flushers[t := Idle])
  }

  function Init<T>(max: nat, batch: nat, zero: T, threads: nat): World<T> {
    World(R.Init(max, batch, zero), seq(threads, _ => Idle))
  }

  predicate CanRun<T>(w: World<T>, events: seq<Event<T>>)
    decreases |events|
  {
    events == [] || (Enabled(w, events[0]) && CanRun(Apply(w, events[0]), events[1..]))
  }

  function After<T>(w: World<T>, events: seq<Event<T>>): World<T>
    requires CanRun(w, events)
    decreases |events|
  {
    if events == [] then w else After(Apply(w, events[0]), events[1..])
  }

  // ---------------------------------------------------------------- flushes that are not overtaken

  /** The store would take back what has been published since the load. */
  predicate Overtaken<T>(w: World<T>, e: Event<T>)
    requires Enabled(w, e)
  {
    || (e.StoreWrite? && w.flushers[e.t].n < w.s.h.write)
    || (e.StoreRead? && w.flushers[e.t].n < w.s.h.read)
  }

  /** No store of the run does. */
  predicate Calm<T>(w: World<T>, events: seq<Event<T>>)
    requires CanRun(w, events)
    decreases |events|
  {
    events == [] || (!Overtaken(w, events[0]) && Calm(Apply(w, events[0]), events[1..]))
  }

  predicate LoadOk<T>(s: R.State<T>, pc: Pc)
    requires s.ring.max > 0
  {
    && (pc.HasWrite? ==> pc.index == pc.n % s.ring.max && pc.n <= |s.h.log|)
    && (pc.HasRead? ==> pc.index == pc.n % s.ring.max && pc.n <= |s.h.delivered|)
  }

  ghost predicate Inv<T>(w: World<T>) {
    R.Inv(w.s) && forall t :: 0 <= t < |w.flushers| ==> LoadOk(w.s, w.flushers[t])
  }

  lemma OwnStepGrows<T>(s: R.State<T>, e: R.Event<T>)
    requires R.Enabled(s, e)
    ensures var s' := R.Apply(s, e);
      s'.ring.max == s.ring.max && |s.h.log| <= |s'.h.log| && |s.h.delivered| <= |s'.h.delivered|
  {
  }

  /** A store that is not overtaken is a flush step of the ring. */
  lemma StoreIsFlush<T>(w: World<T>, e: Event<T>)
    requires Inv(w) && Enabled(w, e) && !Overtaken(w, e) && (e.StoreWrite? || e.StoreRead?)
    ensures var n := w.flushers[e.t].n;
      var f := if e.StoreWrite? then R.FlushWrite(n) else R.FlushRead(n);
      R.Enabled(w.s, f) && Apply(w, e).s == R.Apply(w.s, f)
  {
    assert LoadOk(w.s, w.flushers[e.t]);
  }

  lemma StepKeepsInv<T>(w: World<T>, e: Event<T>)
    requires Inv(w) && Enabled(w, e) && !Overtaken(w, e)
    ensures Inv(Apply(w, e))
  {
    match e
    case Own(re) =>
      R.StepKeepsInv(w.s, re);
      OwnStepGrows(w.s, re);
    case LoadWrite(_) =>
    case LoadRead(_) =>
    case StoreWrite(t) =>
      StoreIsFlush(w, e);
      R.FlushWriteKeepsInv(w.s, w.flushers[t].n);
    case StoreRead(t) =>
      StoreIsFlush(w, e);
      R.FlushReadKeepsInv(w.s, w.flushers[t].n);
  }

  lemma {:induction false} RunKeepsInv<T>(w: World<T>, events: seq<Event<T>>)
    requires Inv(w) && CanRun(w, events) && Calm(w, events)
    ensures Inv(After(w, events))
    decreases |events|
  {
    if events != [] {
      StepKeepsInv(w, events[0]);
      RunKeepsInv(Apply(w, events[0]), events[1..]);
    }
  }

  /** With any number of flushing threads, in every run in which no store of a flush is overtaken, the ring
      is a queue: delivered items are a prefix of the inserted ones, and a slot handed out holds the next. */
  lemma CalmFlushIsFifo<T>(max: nat, batch: nat, zero: T, threads: nat, events: seq<Event<T>>)
    requires max >= 2 && batch >= 1 && CanRun(Init(max, batch, zero, threads), events)
    requires Calm(Init(max, batch, zero, threads), events)
    ensures var s := After(Init(max, batch, zero, threads), events).s;
      && s.h.delivered <= s.h.log
      && (s.r.RHave? ==> |s.h.delivered| < |s.h.log| && s.ring.nextReadIndex < |s.ring.buffer|
                         && s.ring.buffer[s.ring.nextReadIndex] == s.h.log[|s.h.delivered|])
  {
    var w := Init(max, batch, zero, threads);
    R.InitInv(max, batch, zero);
    RunKeepsInv(w, events);
    R.SlotHoldsNext(After(w, events).s);
  }

  /** A store is overtaken only by a publication of that side, or a flush, between its load and itself: a
      load is not behind, and no other step moves the published counters. */
  lemma OnlyPublicationOvertakes<T>(w: World<T>, e: Event<T>)
    requires Inv(w) && Enabled(w, e)
    ensures e.LoadWrite? ==> Apply(w, e).flushers[e.t].n >= w.s.h.write
    ensures e.LoadRead? ==> Apply(w, e).flushers[e.t].n >= w.s.h.read
    ensures !e.StoreWrite? && e != Own(R.Publish) ==> Apply(w, e).s.h.write == w.s.h.write
    ensures !e.StoreRead? && e != Own(R.Release) ==> Apply(w, e).s.h.read == w.s.h.read
  {
  }

  // ---------------------------------------------------------------- a flush that is overtaken

  lemma {:induction false} RunThen<T>(w: World<T>, events: seq<Event<T>>, e: Event<T>)
    requires CanRun(w, events) && Enabled(After(w, events), e)
    ensures CanRun(w, events + [e]) && After(w, events + [e]) == Apply(After(w, events), e)
    decreases |events|
  {
    if events == [] {
      assert events + [e] == [e] && [e][1..] == [];
    } else {
      RunThen(Apply(w, events[0]), events[1..], e);
      assert (events + [e])[1..] == events[1..] + [e];
    }
  }

  ghost predicate Reachable<T(!new)>(w0: World<T>, w: World<T>) {
    exists events :: CanRun(w0, events) && After(w0, events) == w
  }

  lemma Reaches<T(!new)>(w0: World<T>, w: World<T>, e: Event<T>) returns (w': World<T>)
    requires Reachable(w0, w) && Enabled(w, e)
    ensures w' == Apply(w, e) && Reachable(w0, w')
  {
    var events :| CanRun(w0, events) && After(w0, events) == w;
    RunThen(w0, events, e);
    w' := Apply(w, e);
  }

  /** A ring of capacity 4 and batch 1 that has seen one item, with these indices and deliveries. */
  ghost predicate At<T>(s: R.State<T>, x: T, zero: T, write: nat, local: nat, delivered: seq<T>) {
    var g := s.ring;
    && g.max == 4 && g.batch == 1 && g.buffer == [x, zero, zero, zero] && s.w.WIdle? && s.r.RIdle?
    && g.writeIndex == write && g.localWriteIndex == local && g.nextWriteIndex == 1 && g.nextReadIndex == |delivered|
    && g.rBatchCount == 0 && g.wBatchCount == 0 && s.h.log == [x] && s.h.delivered == delivered
  }

  /** A thread loads the empty ring's index; then an item is written and published. */
  lemma LoadThenWrite<T(!new)>(x: T, zero: T) returns (w: World<T>)
    ensures Reachable(Init(4, 1, zero, 1), w) && At(w.s, x, zero, 1, 0, []) && w.flushers == [HasWrite(0, 0)]
  {
    var w0 := Init(4, 1, zero, 1);
    assert CanRun(w0, []) && After(w0, []) == w0;
    w := Reaches(w0, w0, LoadWrite(0));
    w := Reaches(w0, w, Own(R.Insert(x)));
    w := Reaches(w0, w, Own(R.Store));
    w := Reaches(w0, w, Own(R.Publish));
  }

  /** The reader takes what it sees and releases it. */
  lemma ReadOne<T(!new)>(w0: World<T>, w: World<T>, x: T, zero: T, write: nat, local: nat, delivered: seq<T>)
    returns (w': World<T>)
    requires Reachable(w0, w) && At(w.s, x, zero, write, local, delivered)
    requires |delivered| < 3 && local == |delivered| != write
    ensures Reachable(w0, w') && w'.flushers == w.flushers
    ensures w'.s.h.log == [x] && w'.s.h.delivered == delivered + [[x, zero, zero, zero][|delivered|]]
    ensures At(w'.s, x, zero, write, write, w'.s.h.delivered)
  {
    w' := Reaches(w0, w, Own(R.Extract));
    w' := Reaches(w0, w', Own(R.Test));
    w' := Reaches(w0, w', Own(R.Fetch));
    w' := Reaches(w0, w', Own(R.Ack));
    w' := Reaches(w0, w', Own(R.Release));
  }

  /** The thread stores the index it has loaded only then: the reader is handed a slot that was never
      written.  The condition of CalmFlushIsFifo cannot be dropped. */
  lemma OvertakenFlushBreaksFifo<T(!new)>(x: T, zero: T) returns (w: World<T>)
    ensures Reachable(Init(4, 1, zero, 1), w) && w.s.h.log == [x] && w.s.h.delivered == [x, zero]
  {
    var w0 := Init(4, 1, zero, 1);
    w := LoadThenWrite(x, zero);
    w := ReadOne(w0, w, x, zero, 1, 0, []);
    w := Reaches(w0, w, StoreWrite(0));
    w := ReadOne(w0, w, x, zero, 0, 1, [x]);
  }
}
