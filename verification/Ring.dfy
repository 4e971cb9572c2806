/** The single-producer single-consumer ring of src/queues/zerocopy_ringbuffer.hpp as a state
    machine over the atomic steps of its writer, its reader, and of any thread calling Flush.  A flush
    loads the next index of a side and stores it as that side's published index; here only the store is
    a step, of any value loaded before that has not been overtaken by a publication since.  Module
    RingFlush has the two apart.

    The ring keeps the source's modular indices, including each side's stale copy of the other
    side's index and the batched publication.  A history records what the indices stand for:
    virtual counters that never wrap. */
module Ring {
  import opened Arithmetic

  datatype Ring<T> = Ring(
    max: nat, batch: nat, buffer: seq<T>,
    readIndex: nat, writeIndex: nat,                                  // shared
    localWriteIndex: nat, nextReadIndex: nat, rBatchCount: nat,       // reader
    localReadIndex: nat, nextWriteIndex: nat, wBatchCount: nat)       // writer

  datatype History<T> = History(
    log: seq<T>,        // everything inserted; its length is the virtual nextWriteIndex
    delivered: seq<T>,  // everything extracted and acknowledged; its length is the virtual nextReadIndex
    read: nat, write: nat, cachedWrite: nat, cachedRead: nat)

  datatype WriterPc<T> =
    | WIdle
    | WSpin(x: T)    // the ring looked full, polling readIndex
    | WReload(x: T)  // saw readIndex move, about to copy it
    | WStore(x: T)   // a free slot is known
    | WPublish       // batch full, about to store writeIndex

  datatype ReaderPc =
    | RIdle
    | RTest     // the ring looked empty, about to load writeIndex
    | RReload   // saw writeIndex differ, about to copy it
    | RHave     // a slot has been returned and not acknowledged
    | RPublish  // batch full, about to store readIndex

  datatype State<T> = State(ring: Ring<T>, w: WriterPc<T>, r: ReaderPc, h: History<T>)

  datatype Event<T> =
    | Insert(x: T) | Poll | Reload | Store | Publish
    | Extract | Test | Fetch | Ack | Release
    | FlushWrite(n: nat) | FlushRead(n: nat)

  function NextVal(max: nat, x: nat): nat {
    if x + 1 >= max then 0 else x + 1
  }

  function Init<T>(max: nat, batch: nat, zero: T): State<T> {
    State(Ring(max, batch, seq(max, _ => zero), 0, 0, 0, 0, 0, 0, 0, 0), WIdle, RIdle, History([], [], 0, 0, 0, 0))
  }

  predicate Enabled<T>(s: State<T>, e: Event<T>) {
    match e
    case Insert(_) => s.w.WIdle?
    case Poll => s.w.WSpin?
    case Reload => s.w.WReload?
    case Store => s.w.WStore? && s.ring.nextWriteIndex < |s.ring.buffer|
    case Publish => s.w.WPublish?
    case Extract => s.r.RIdle?
    case Test => s.r.RTest?
    case Fetch => s.r.RReload?
    case Ack => s.r.RHave? && s.ring.nextReadIndex < |s.ring.buffer|
    case Release => s.r.RPublish?
    case FlushWrite(n) => s.ring.max > 0 && s.h.write <= n <= |s.h.log|
    case FlushRead(n) => s.ring.max > 0 && s.h.read <= n <= |s.h.delivered|
  }

  function Apply<T>(s: State<T>, e: Event<T>): State<T>
    requires Enabled(s, e)
  {
    var g := s.ring;
    var after := NextVal(g.max, g.nextWriteIndex);
    match e
    case Insert(x) => s.(w := if after == g.localReadIndex then WSpin(x) else WStore(x))
    case Poll => if after == g.readIndex then s else s.(w := WReload(s.w.x))
    case Reload => s.(ring := g.(localReadIndex := g.readIndex), w := WStore(s.w.x), h := s.h.(cachedRead := s.h.read))
    case Store =>
      s.(ring := g.(buffer := g.buffer[g.nextWriteIndex := s.w.x],
                    nextWriteIndex := after, wBatchCount := g.wBatchCount + 1),
         w := if g.wBatchCount + 1 >= g.batch then WPublish else WIdle,
         h := s.h.(log := s.h.log + [s.w.x]))
    case Publish =>
      s.(ring := g.(writeIndex := g.nextWriteIndex, wBatchCount := 0), w := WIdle, h := s.h.(write := |s.h.log|))
    case Extract => s.(r := if g.nextReadIndex == g.localWriteIndex then RTest else RHave)
    case Test => s.(r := if g.nextReadIndex == g.writeIndex then RIdle else RReload)
    case Fetch => s.(ring := g.(localWriteIndex := g.writeIndex), r := RHave, h := s.h.(cachedWrite := s.h.write))
    case Ack =>
      s.(ring := g.(nextReadIndex := NextVal(g.max, g.nextReadIndex), rBatchCount := g.rBatchCount + 1),
         r := if g.rBatchCount + 1 >= g.batch then RPublish else RIdle,
         h := s.h.(delivered := s.h.delivered + [g.buffer[g.nextReadIndex]]))
    case Release =>
      s.(ring := g.(readIndex := g.nextReadIndex, rBatchCount := 0), r := RIdle, h := s.h.(read := |s.h.delivered|))
    case FlushWrite(n) => s.(ring := g.(writeIndex := n % g.max), h := s.h.(write := n))
    case FlushRead(n) => s.(ring := g.(readIndex := n % g.max), h := s.h.(read := n))
  }

  predicate CanRun<T>(s: State<T>, events: seq<Event<T>>)
    decreases |events|
  {
    events == [] || (Enabled(s, events[0]) && CanRun(Apply(s, events[0]), events[1..]))
  }

  function After<T>(s: State<T>, events: seq<Event<T>>): State<T>
    requires CanRun(s, events)
    decreases |events|
  {
    if events == [] then s else After(Apply(s, events[0]), events[1..])
  }

  // ---------------------------------------------------------------- modular arithmetic

  lemma ModStep(k: nat, m: nat)
    requires m >= 1
    ensures (k + 1) % m == NextVal(m, k % m)
  {
    var q := k / m;
    assert k == q * m + k % m;
    if k % m + 1 >= m {
      assert k + 1 == (q + 1) * m;
      DivUnique(k + 1, m, q + 1, 0);
    } else {
      DivUnique(k + 1, m, q, k % m + 1);
    }
  }

  /** Within a window of less than m, equal remainders mean equal numbers. */
  lemma ModWindow(a: nat, b: nat, m: nat)
    requires m > 0 && a <= b < a + m
    ensures a % m == b % m <==> a == b
  {
    MulMono(a / m + 1, b / m, m);
    MulMono(b / m + 1, a / m, m);
  }

  lemma FullArithmetic(k: nat, r: nat, m: nat)
    requires m >= 1 && r <= k < r + m
    ensures NextVal(m, k % m) == r % m <==> k + 1 == r + m
  {
    ModStep(k, m);
    DivUnique(r + m, m, r / m + 1, r % m);
    ModWindow(k + 1, r + m, m);
  }

  /** Stepping back from k by no more than its remainder stays in the same block. */
  lemma ModBack(k: nat, u: nat, b: nat)
    requires b >= 1 && u <= k % b && u <= k
    ensures (k - u) % b == k % b - u
  {
    DivUnique(k - u, b, k / b, k % b - u);
  }

  // ---------------------------------------------------------------- the invariant

  /** cachedRead <= readIndex <= nextRead <= cachedWrite <= writeIndex <= nextWrite < cachedRead + max,
      on the virtual counters. */
  predicate Ordered<T>(max: nat, h: History<T>) {
    h.cachedRead <= h.read <= |h.delivered| <= h.cachedWrite <= h.write <= |h.log| < h.cachedRead + max
  }

  /** Each index is its counter modulo the capacity. */
  predicate Indexed<T>(g: Ring<T>, h: History<T>)
    requires g.max > 0
  {
    && g.readIndex == h.read % g.max
    && g.writeIndex == h.write % g.max
    && g.localReadIndex == h.cachedRead % g.max
    && g.localWriteIndex == h.cachedWrite % g.max
    && g.nextReadIndex == |h.delivered| % g.max
    && g.nextWriteIndex == |h.log| % g.max
  }

  /** No unread slot has been overwritten. */
  ghost predicate Stored<T>(g: Ring<T>, h: History<T>)
    requires g.max > 0 && |g.buffer| == g.max
  {
    forall k :: |h.delivered| <= k < |h.log| ==> g.buffer[k % g.max] == h.log[k]
  }

  predicate PcInv<T>(s: State<T>) {
    && (s.w.WReload? ==> |s.h.log| + 1 < s.h.read + s.ring.max)
    && (s.w.WStore? ==> |s.h.log| + 1 < s.h.cachedRead + s.ring.max)
    && (s.r.RReload? ==> |s.h.delivered| < s.h.write)
    && (s.r.RHave? ==> |s.h.delivered| < s.h.cachedWrite)
  }

  /** What is not published is less than a batch on each side, and counted by the batch counters. */
  predicate Batched<T>(s: State<T>)
    requires s.ring.batch > 0
  {
    var g, h := s.ring, s.h;
    && g.wBatchCount == (if s.w.WPublish? then g.batch else 0) + |h.log| % g.batch
    && g.rBatchCount == (if s.r.RPublish? then g.batch else 0) + |h.delivered| % g.batch
    && (s.w.WPublish? ==> |h.log| % g.batch == 0)
    && (s.r.RPublish? ==> |h.delivered| % g.batch == 0)
    && |h.log| <= h.write + g.wBatchCount
    && |h.delivered| <= h.read + g.rBatchCount
  }

  ghost predicate Inv<T>(s: State<T>) {
    && s.ring.max >= 2 && s.ring.batch >= 1 && |s.ring.buffer| == s.ring.max
    && Ordered(s.ring.max, s.h)
    && Indexed(s.ring, s.h)
    && Stored(s.ring, s.h)
    && s.h.delivered <= s.h.log
    && PcInv(s)
    && Batched(s)
  }

  lemma InitInv<T>(max: nat, batch: nat, zero: T)
    requires max >= 2 && batch >= 1
    ensures Inv(Init(max, batch, zero))
  {
  }

  /** The writer's test against the shared or the cached read index decides fullness. */
  lemma FullTest<T>(s: State<T>)
    requires Inv(s)
    ensures NextVal(s.ring.max, s.ring.nextWriteIndex) == s.ring.readIndex <==> |s.h.log| + 1 == s.h.read + s.ring.max
    ensures NextVal(s.ring.max, s.ring.nextWriteIndex) == s.ring.localReadIndex
       <==> |s.h.log| + 1 == s.h.cachedRead + s.ring.max
  {
    FullArithmetic(|s.h.log|, s.h.read, s.ring.max);
    FullArithmetic(|s.h.log|, s.h.cachedRead, s.ring.max);
  }

  /** The reader's test against the shared or the cached write index decides emptiness. */
  lemma EmptyTest<T>(s: State<T>)
    requires Inv(s)
    ensures s.ring.nextReadIndex == s.ring.writeIndex <==> |s.h.delivered| == s.h.write
    ensures s.ring.nextReadIndex == s.ring.localWriteIndex <==> |s.h.delivered| == s.h.cachedWrite
  {
    ModWindow(|s.h.delivered|, s.h.write, s.ring.max);
    ModWindow(|s.h.delivered|, s.h.cachedWrite, s.ring.max);
  }

  lemma StoreKeepsInv<T>(s: State<T>)
    requires Inv(s) && Enabled(s, Store)
    ensures Inv(Apply(s, Store))
  {
    var g, h := s.ring, s.h;
    var k := |h.log|;
    ModStep(k, g.max);
    ModStep(k, g.batch);
    var s' := Apply(s, Store);
    forall i | |h.delivered| <= i < |s'.h.log| ensures s'.ring.buffer[i % g.max] == s'.h.log[i] {
      ModWindow(i, k, g.max);
    }
  }

  lemma AckKeepsInv<T>(s: State<T>)
    requires Inv(s) && Enabled(s, Ack)
    ensures Inv(Apply(s, Ack))
  {
    ModStep(|s.h.delivered|, s.ring.max);
    ModStep(|s.h.delivered|, s.ring.batch);
  }

  lemma WriterKeepsInv<T>(s: State<T>, e: Event<T>)
    requires Inv(s) && Enabled(s, e) && (e.Insert? || e.Poll?)
    ensures Inv(Apply(s, e))
  {
    FullTest(s);
  }

  lemma ReloadKeepsInv<T>(s: State<T>)
    requires Inv(s) && Enabled(s, Reload)
    ensures Inv(Apply(s, Reload))
  {
  }

  lemma PublishKeepsInv<T>(s: State<T>)
    requires Inv(s) && Enabled(s, Publish)
    ensures Inv(Apply(s, Publish))
  {
  }

  lemma ReaderKeepsInv<T>(s: State<T>, e: Event<T>)
    requires Inv(s) && Enabled(s, e) && (e.Extract? || e.Test?)
    ensures Inv(Apply(s, e))
  {
    EmptyTest(s);
  }

  lemma FetchKeepsInv<T>(s: State<T>)
    requires Inv(s) && Enabled(s, Fetch)
    ensures Inv(Apply(s, Fetch))
  {
  }

  lemma ReleaseKeepsInv<T>(s: State<T>)
    requires Inv(s) && Enabled(s, Release)
    ensures Inv(Apply(s, Release))
  {
  }

  lemma FlushWriteKeepsInv<T>(s: State<T>, n: nat)
    requires Inv(s) && Enabled(s, FlushWrite(n))
    ensures Inv(Apply(s, FlushWrite(n)))
  {
  }

  lemma FlushReadKeepsInv<T>(s: State<T>, n: nat)
    requires Inv(s) && Enabled(s, FlushRead(n))
    ensures Inv(Apply(s, FlushRead(n)))
  {
  }

  lemma StepKeepsInv<T>(s: State<T>, e: Event<T>)
    requires Inv(s) && Enabled(s, e)
    ensures Inv(Apply(s, e))
  {
    match e
    case Insert(_) => WriterKeepsInv(s, e);
    case Poll => WriterKeepsInv(s, e);
    case Reload => ReloadKeepsInv(s);
    case Store => StoreKeepsInv(s);
    case Publish => PublishKeepsInv(s);
    case Extract => ReaderKeepsInv(s, e);
    case Test => ReaderKeepsInv(s, e);
    case Fetch => FetchKeepsInv(s);
    case Ack => AckKeepsInv(s);
    case Release => ReleaseKeepsInv(s);
    case FlushWrite(n) => FlushWriteKeepsInv(s, n);
    case FlushRead(n) => FlushReadKeepsInv(s, n);
  }

  lemma {:induction false} RunKeepsInv<T>(s: State<T>, events: seq<Event<T>>)
    requires Inv(s) && CanRun(s, events)
    ensures Inv(After(s, events))
    decreases |events|
  {
    if events != [] {
      StepKeepsInv(s, events[0]);
      RunKeepsInv(Apply(s, events[0]), events[1..]);
    }
  }

  // ---------------------------------------------------------------- main results

  /** The ring refines an unbounded FIFO: in every run the delivered items are a prefix of the
      inserted ones, a slot handed to the reader holds the next item, and the counters keep their order. */
  lemma RingIsFifo<T>(max: nat, batch: nat, zero: T, events: seq<Event<T>>)
    requires max >= 2 && batch >= 1 && CanRun(Init(max, batch, zero), events)
    ensures var s := After(Init(max, batch, zero), events);
      && s.h.delivered <= s.h.log
      && Ordered(max, s.h)
      && (s.r.RHave? ==> Enabled(s, Ack) && |s.h.delivered| < |s.h.log|
                         && s.ring.buffer[s.ring.nextReadIndex] == s.h.log[|s.h.delivered|])
      && (s.w.WStore? ==> Enabled(s, Store))
  {
    InitInv(max, batch, zero);
    RunKeepsInv(Init(max, batch, zero), events);
    MaxIsConstant(Init(max, batch, zero), events);
    SlotHoldsNext(After(Init(max, batch, zero), events));
  }

  lemma SlotHoldsNext<T>(s: State<T>)
    requires Inv(s)
    ensures s.r.RHave? ==> Enabled(s, Ack) && |s.h.delivered| < |s.h.log|
                           && s.ring.buffer[s.ring.nextReadIndex] == s.h.log[|s.h.delivered|]
    ensures s.w.WStore? ==> Enabled(s, Store)
  {
    if s.r.RHave? {
      var k := |s.h.delivered|;
      assert s.ring.buffer[k % s.ring.max] == s.h.log[k];
    }
  }

  /** The full and empty tests on wrapped, possibly stale indices are exact in every run. */
  lemma TestsAreExact<T>(max: nat, batch: nat, zero: T, events: seq<Event<T>>)
    requires max >= 2 && batch >= 1 && CanRun(Init(max, batch, zero), events)
    ensures var s := After(Init(max, batch, zero), events);
      && (NextVal(max, s.ring.nextWriteIndex) == s.ring.readIndex <==> |s.h.log| - s.h.read == max - 1)
      && (s.ring.nextReadIndex == s.ring.writeIndex <==> |s.h.delivered| == s.h.write)
  {
    InitInv(max, batch, zero);
    RunKeepsInv(Init(max, batch, zero), events);
    FullTest(After(Init(max, batch, zero), events));
    EmptyTest(After(Init(max, batch, zero), events));
    MaxIsConstant(Init(max, batch, zero), events);
  }

  lemma {:induction false} MaxIsConstant<T>(s: State<T>, events: seq<Event<T>>)
    requires CanRun(s, events)
    ensures After(s, events).ring.max == s.ring.max && After(s, events).ring.batch == s.ring.batch
    decreases |events|
  {
    if events != [] {
      MaxIsConstant(Apply(s, events[0]), events[1..]);
    }
  }

  /** The writer spins on a full ring while the reader finds nothing published: neither can move. */
  predicate Deadlocked<T>(s: State<T>) {
    && s.w.WSpin? && NextVal(s.ring.max, s.ring.nextWriteIndex) == s.ring.readIndex
    && (s.r.RIdle? || s.r.RTest?)
    && s.ring.nextReadIndex == s.ring.localWriteIndex == s.ring.writeIndex
  }

  /** If everything published has been read, what both sides hold back is less than one batch in all. */
  lemma HeldBackTogether<T>(s: State<T>)
    requires Inv(s) && !s.w.WPublish? && !s.r.RPublish? && |s.h.delivered| == s.h.write
    ensures |s.h.log| - s.h.read < s.ring.batch
  {
    ModBack(|s.h.log|, |s.h.log| - s.h.write, s.ring.batch);
  }

  /** With a capacity above the batch size, writer and reader are never both blocked. */
  lemma NeverDeadlocked<T>(max: nat, batch: nat, zero: T, events: seq<Event<T>>)
    requires max >= 2 && batch >= 1 && CanRun(Init(max, batch, zero), events)
    requires max > batch
    ensures !Deadlocked(After(Init(max, batch, zero), events))
  {
    InitInv(max, batch, zero);
    RunKeepsInv(Init(max, batch, zero), events);
    MaxIsConstant(Init(max, batch, zero), events);
    var s := After(Init(max, batch, zero), events);
    if Deadlocked(s) {
      FullTest(s);
      EmptyTest(s);
      HeldBackTogether(s);
      assert false;
    }
  }

  /** n inserts, none of which fills a batch. */
  function Inserts<T>(x: T, n: nat): seq<Event<T>> {
    if n == 0 then [] else [Insert(x), Store] + Inserts(x, n - 1)
  }

  predicate Unread<T>(s: State<T>) {
    && s.w.WIdle? && s.r.RIdle?
    && s.ring.readIndex == s.ring.writeIndex == s.ring.nextReadIndex == 0
    && s.ring.localWriteIndex == s.ring.localReadIndex == 0
    && s.ring.nextWriteIndex == s.ring.wBatchCount < |s.ring.buffer| == s.ring.max
  }

  lemma {:induction false} InsertsRun<T>(s: State<T>, x: T, n: nat)
    requires Unread(s) && s.ring.max <= s.ring.batch && s.ring.nextWriteIndex + n < s.ring.max
    ensures CanRun(s, Inserts(x, n)) && Unread(After(s, Inserts(x, n)))
    ensures After(s, Inserts(x, n)).ring.nextWriteIndex == s.ring.nextWriteIndex + n
    ensures After(s, Inserts(x, n)).ring.max == s.ring.max
    decreases n
  {
    if n > 0 {
      var s1 := Apply(s, Insert(x));
      var s2 := Apply(s1, Store);
      InsertsRun(s2, x, n - 1);
      var rest := Inserts(x, n - 1);
      var all := [Insert(x), Store] + rest;
      assert all[1..] == [Store] + rest && all[1..][1..] == rest;
      assert CanRun(s1, all[1..]) && After(s1, all[1..]) == After(s2, rest);
    }
  }

  lemma {:induction false} RunThen<T>(s: State<T>, events: seq<Event<T>>, e: Event<T>)
    requires CanRun(s, events) && Enabled(After(s, events), e)
    ensures CanRun(s, events + [e]) && After(s, events + [e]) == Apply(After(s, events), e)
    decreases |events|
  {
    if events == [] {
      assert events + [e] == [e] && [e][1..] == [];
    } else {
      RunThen(Apply(s, events[0]), events[1..], e);
      assert (events + [e])[1..] == events[1..] + [e];
    }
  }

  /** With a capacity of at most the batch size, some run does deadlock: the condition is exact. */
  lemma SmallRingDeadlocks<T>(max: nat, batch: nat, zero: T) returns (events: seq<Event<T>>)
    requires max >= 2 && batch >= max
    ensures CanRun(Init(max, batch, zero), events) && Deadlocked(After(Init(max, batch, zero), events))
  {
    var s := Init(max, batch, zero);
    events := Inserts(zero, max - 1);
    InsertsRun(s, zero, max - 1);
    RunThen(s, events, Insert(zero));
    events := events + [Insert(zero)];
  }

  // ---------------------------------------------------------------- whole calls

  /** The whole of Insert when a slot is free, and of Ack: the steps of one side in a row. */
  function Inserted<T>(s: State<T>, x: T): State<T>
    requires s.w.WIdle? && s.ring.nextWriteIndex < |s.ring.buffer|
    requires NextVal(s.ring.max, s.ring.nextWriteIndex) != s.ring.readIndex
  {
    var s1 := Apply(s, Insert(x));
    var s2 := if s1.w.WSpin? then Apply(Apply(s1, Poll), Reload) else s1;
    var s3 := Apply(s2, Store);
    if s3.w.WPublish? then Apply(s3, Publish) else s3
  }

  function Acked<T>(s: State<T>): State<T>
    requires Enabled(s, Ack)
  {
    var s1 := Apply(s, Ack);
    if s1.r.RPublish? then Apply(s1, Release) else s1
  }

  lemma InsertedInv<T>(s: State<T>, x: T)
    requires Inv(s) && s.w.WIdle? && NextVal(s.ring.max, s.ring.nextWriteIndex) != s.ring.readIndex
    ensures s.ring.nextWriteIndex < |s.ring.buffer| && Inv(Inserted(s, x))
    ensures Inserted(s, x).w.WIdle?
  {
    StepKeepsInv(s, Insert(x));
    var s1 := Apply(s, Insert(x));
    var s2 := s1;
    if s1.w.WSpin? {
      StepKeepsInv(s1, Poll);
      StepKeepsInv(Apply(s1, Poll), Reload);
      s2 := Apply(Apply(s1, Poll), Reload);
    }
    StepKeepsInv(s2, Store);
    if Apply(s2, Store).w.WPublish? {
      StepKeepsInv(Apply(s2, Store), Publish);
    }
  }

  /** What an insert does to the counters. */
  lemma InsertedHistory<T>(s: State<T>, x: T)
    requires Inv(s) && s.w.WIdle? && NextVal(s.ring.max, s.ring.nextWriteIndex) != s.ring.readIndex
    ensures s.ring.nextWriteIndex < |s.ring.buffer|
    ensures var t, full := Inserted(s, x), s.ring.wBatchCount + 1 >= s.ring.batch;
      && t.h.log == s.h.log + [x] && t.h.delivered == s.h.delivered && t.h.read == s.h.read
      && t.h.write == (if full then |t.h.log| else s.h.write)
      && t.ring.wBatchCount == (if full then 0 else s.ring.wBatchCount + 1)
      && t.r == s.r && t.ring.max == s.ring.max && t.ring.batch == s.ring.batch
  {
  }

  lemma AckedInv<T>(s: State<T>)
    requires Inv(s) && s.r.RHave?
    ensures Enabled(s, Ack) && Inv(Acked(s)) && Acked(s).r.RIdle?
  {
    SlotHoldsNext(s);
    StepKeepsInv(s, Ack);
    if Apply(s, Ack).r.RPublish? {
      StepKeepsInv(Apply(s, Ack), Release);
    }
  }

  /** Half of a flush: the writer's or the reader's index is stored as it is now. */
  function Flushed<T>(s: State<T>, writing: bool): State<T>
    requires s.ring.max > 0 && s.h.write <= |s.h.log| && s.h.read <= |s.h.delivered|
  {
    Apply(s, if writing then FlushWrite(|s.h.log|) else FlushRead(|s.h.delivered|))
  }

  lemma FlushedInv<T>(s: State<T>)
    requires Inv(s)
    ensures Enabled(s, FlushWrite(|s.h.log|)) && Enabled(Flushed(s, true), FlushRead(|s.h.delivered|))
    ensures Inv(Flushed(s, true)) && Inv(Flushed(Flushed(s, true), false))
  {
    FlushWriteKeepsInv(s, |s.h.log|);
    FlushReadKeepsInv(Flushed(s, true), |s.h.delivered|);
  }

  const RB_SIZE := 2000
  const RB_BATCH := 50

  /** The ring object with each call run to completion.  Insert reports a full ring where the
      source would spin until the other side moves. */
  class ZeroRingBuffer<T(0)> {
    const buffer: array<T>
    const max: nat
    const batchSize: nat
    var readIndex: nat
    var writeIndex: nat
    var localWriteIndex: nat
    var nextReadIndex: nat
    var rBatchCount: nat
    var localReadIndex: nat
    var nextWriteIndex: nat
    var wBatchCount: nat
    var extracted: bool   // a slot is with the reader
    ghost var h: History<T>

    ghost function Value(): State<T>
      reads this, buffer
    {
      State(Ring(max, batchSize, buffer[..], readIndex, writeIndex, localWriteIndex, nextReadIndex, rBatchCount,
                 localReadIndex, nextWriteIndex, wBatchCount),
            WIdle, if extracted then RHave else RIdle, h)
    }

    ghost predicate Valid()
      reads this, buffer
    {
      Inv(Value())
    }

    constructor (zero: T)
      ensures Valid() && fresh(buffer) && max == 2000 && batchSize == 50
      ensures h.log == [] && h.delivered == [] && !extracted
    {
      max, batchSize := RB_SIZE, RB_BATCH;
      buffer := new T[RB_SIZE](_ => zero);
      readIndex, writeIndex, localWriteIndex, nextReadIndex := 0, 0, 0, 0;
      rBatchCount, localReadIndex, nextWriteIndex, wBatchCount := 0, 0, 0, 0;
      extracted, h := false, History([], [], 0, 0, 0, 0);
      new;
      InitInv(max, batchSize, zero);
      assert Value() == Init(max, batchSize, zero);
    }

    method Insert(data: T) returns (ok: bool)
      requires Valid()
      modifies this, buffer
      ensures Valid()
      ensures ok <==> |old(h).log| + 1 < old(h).read + max
      ensures ok ==> h.log == old(h).log + [data] && h.delivered == old(h).delivered && h.read == old(h).read
      ensures ok ==> h.write == if old(wBatchCount) + 1 >= batchSize then |h.log| else old(h).write
      ensures !ok ==> Value() == old(Value())
      ensures extracted == old(extracted)
    {
      ghost var s := Value();
      FullTest(s);
      if NextVal(max, nextWriteIndex) != readIndex {
        InsertedInv(s, data);
      }
      ok := DoInsert(data);
    }

    /** The body of Insert on the bare fields. */
    method DoInsert(data: T) returns (ok: bool)
      requires nextWriteIndex < buffer.Length == max
      modifies this, buffer
      ensures ok <==> NextVal(max, old(nextWriteIndex)) != old(readIndex)
                      || NextVal(max, old(nextWriteIndex)) != old(localReadIndex)
      ensures !ok ==> Value() == old(Value())
      ensures ok && NextVal(max, old(nextWriteIndex)) != old(readIndex) ==> Value() == Inserted(old(Value()), data)
    {
      ghost var s := Value();
      var after := NextVal(max, nextWriteIndex);
      if after == localReadIndex {
        if after == readIndex {
          return false;
        }
        localReadIndex := readIndex;
        h := h.(cachedRead := h.read);
      }
      buffer[nextWriteIndex] := data;
      nextWriteIndex := after;
      wBatchCount := wBatchCount + 1;
      h := h.(log := h.log + [data]);
      if wBatchCount >= batchSize {
        writeIndex := nextWriteIndex;
        wBatchCount := 0;
        h := h.(write := |h.log|);
      }
      assert buffer[..] == s.ring.buffer[s.ring.nextWriteIndex := data];
      return true;
    }

    /** Hands out the oldest published item, if any, without taking it off the ring. */
    method Extract() returns (found: bool, data: T)
      requires Valid() && !extracted
      modifies this
      ensures Valid()
      ensures h.log == old(h).log && h.delivered == old(h).delivered && h.read == old(h).read && h.write == old(h).write
      ensures found == extracted
      ensures found <==> |h.delivered| < h.write
      ensures found ==> data == h.log[|h.delivered|]
    {
      ghost var s := Value();
      EmptyTest(s);
      data := *;
      if nextReadIndex == localWriteIndex {
        if nextReadIndex == writeIndex {
          return false, data;
        }
        localWriteIndex := writeIndex;
        h := h.(cachedWrite := h.write);
      }
      extracted := true;
      SlotHoldsNext(Value());
      return true, buffer[nextReadIndex];
    }

    method Ack()
      requires Valid() && extracted
      modifies this
      ensures Valid() && !extracted
      ensures h.log == old(h).log && h.delivered == old(h).log[..|old(h).delivered| + 1]
      ensures h.write == old(h).write
      ensures h.read == if old(rBatchCount) + 1 >= batchSize then |h.delivered| else old(h).read
    {
      SlotHoldsNext(Value());
      AckedInv(Value());
      DoAck();
    }

    /** The body of Ack on the bare fields. */
    method DoAck()
      requires nextReadIndex < buffer.Length && extracted
      modifies this
      ensures Value() == Acked(old(Value()))
    {
      h := h.(delivered := h.delivered + [buffer[nextReadIndex]]);
      nextReadIndex := NextVal(max, nextReadIndex);
      rBatchCount := rBatchCount + 1;
      extracted := false;
      if rBatchCount >= batchSize {
        readIndex := nextReadIndex;
        rBatchCount := 0;
        h := h.(read := |h.delivered|);
      }
    }

    /** Makes everything inserted visible and every acknowledged slot reusable. */
    method Flush()
      requires Valid()
      modifies this
      ensures Valid() && extracted == old(extracted)
      ensures h.log == old(h).log && h.delivered == old(h).delivered
      ensures h.write == |h.log| && h.read == |h.delivered|
    {
      FlushedInv(Value());
      writeIndex := nextWriteIndex;
      readIndex := nextReadIndex;
      h := h.(write := |h.log|, read := |h.delivered|);
    }
  }
}
