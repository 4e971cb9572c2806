/** The multi-producer queue of src/queues/mpsc_queue_mesh_zerocopy.hpp: one ring per producer,
    polled round robin. */
module MeshQueue {
  import Ring

  // ---------------------------------------------------------------- lanes

  /** What the two sides of a ring see of it: the items published and unread, those inserted but not
      published, and the writer's batch counter. */
  datatype Lane<T> = Lane(published: seq<T>, pending: seq<T>, count: nat)

  function Flushed<T>(l: Lane<T>): Lane<T> {
    l.(published := l.published + l.pending, pending := [])
  }

  /** Items become visible with every batch-th insert. */
  function Pushed<T>(batch: nat, l: Lane<T>, x: T): Lane<T> {
    var m := l.(pending := l.pending + [x], count := l.count + 1);
    if m.count >= batch then Flushed(m).(count := 0) else m
  }

  function LaneOf<T>(s: Ring.State<T>): Lane<T>
    requires |s.h.delivered| <= s.h.write <= |s.h.log|
  {
    Lane(s.h.log[|s.h.delivered|..s.h.write], s.h.log[s.h.write..], s.ring.wBatchCount)
  }

  /** An insert into a ring with room is a push. */
  lemma InsertIsPush<T>(s: Ring.State<T>, x: T)
    requires Ring.Inv(s) && s.w.WIdle? && Ring.NextVal(s.ring.max, s.ring.nextWriteIndex) != s.ring.readIndex
    ensures s.ring.nextWriteIndex < |s.ring.buffer| && Ring.Inv(Ring.Inserted(s, x))
    ensures LaneOf(Ring.Inserted(s, x)) == Pushed(s.ring.batch, LaneOf(s), x)
  {
    Ring.InsertedInv(s, x);
    Ring.InsertedHistory(s, x);
    PushedParts(s.h.log, |s.h.delivered|, s.h.write, x);
  }

  lemma PushedParts<T>(log: seq<T>, delivered: nat, write: nat, x: T)
    requires delivered <= write <= |log|
    ensures (log + [x])[delivered..write] == log[delivered..write] && (log + [x])[write..] == log[write..] + [x]
    ensures (log + [x])[delivered..] == log[delivered..write] + (log[write..] + [x])
  {
  }

  /** An item handed out and acknowledged is the first published one, and goes. */
  lemma AckIsPop<T>(s: Ring.State<T>)
    requires Ring.Inv(s) && s.r.RHave?
    ensures Ring.Enabled(s, Ring.Ack) && Ring.Inv(Ring.Acked(s)) && LaneOf(s).published != []
    ensures s.ring.buffer[s.ring.nextReadIndex] == LaneOf(s).published[0]
    ensures LaneOf(Ring.Acked(s)) == LaneOf(s).(published := LaneOf(s).published[1..])
  {
    Ring.AckedInv(s);
    Ring.SlotHoldsNext(s);
  }

  /** The reader finds nothing exactly when nothing is published, and a flush publishes everything. */
  lemma TestAndFlush<T>(s: Ring.State<T>)
    requires Ring.Inv(s)
    ensures s.ring.nextReadIndex == s.ring.writeIndex <==> LaneOf(s).published == []
    ensures Ring.Inv(Ring.Flushed(s, true)) && LaneOf(Ring.Flushed(s, true)) == Flushed(LaneOf(s))
  {
    Ring.EmptyTest(s);
    Ring.FlushedInv(s);
  }

  function PushedAll<T>(batch: nat, l: Lane<T>, xs: seq<T>): Lane<T> {
    if xs == [] then l else Pushed(batch, PushedAll(batch, l, xs[..|xs| - 1]), xs[|xs| - 1])
  }

  /** The first n of the items are visible, the rest waits. */
  ghost predicate Visible<T>(l: Lane<T>, xs: seq<T>, n: nat) {
    n <= |xs| && l.published == xs[..n] && l.pending == xs[n..]
  }

  lemma PushVisible<T>(l: Lane<T>, xs: seq<T>, n: nat, x: T, l': Lane<T>)
    requires Visible(l, xs, n) && l' == Pushed(Ring.RB_BATCH, l, x)
    ensures l.count == 49 ==> Visible(l', xs + [x], |xs| + 1) && l'.count == 0
    ensures l.count < 49 ==> Visible(l', xs + [x], n) && l'.count == l.count + 1
  {
    assert xs[..n] + (xs[n..] + [x]) == xs + [x];
    assert (xs + [x])[n..] == xs[n..] + [x];
  }

  lemma NextFifty(k: nat)
    ensures k % 50 == 49 ==> (k + 1) / 50 * 50 == k + 1 && (k + 1) % 50 == 0
    ensures k % 50 < 49 ==> (k + 1) / 50 * 50 == k / 50 * 50 && (k + 1) % 50 == k % 50 + 1
  {
  }

  /** With the source's batch size, items become visible fifty at a time. */
  lemma {:induction false} FiftyAtATime<T>(xs: seq<T>)
    ensures var l := PushedAll(Ring.RB_BATCH, Lane([], [], 0), xs);
      Visible(l, xs, |xs| / 50 * 50) && l.count == |xs| % 50
  {
    if xs != [] {
      var k := |xs| - 1;
      var l := PushedAll(Ring.RB_BATCH, Lane([], [], 0), xs[..k]);
      FiftyAtATime(xs[..k]);
      NextFifty(k);
      PushVisible(l, xs[..k], k / 50 * 50, xs[k], Pushed(Ring.RB_BATCH, l, xs[k]));
      assert xs[..k] + [xs[k]] == xs;
    }
  }

  // ---------------------------------------------------------------- round robin

  /** How many positions ring j is ahead of the cursor. */
  function Distance(n: nat, cur: nat, j: nat): nat
    requires j < n && cur <= n
  {
    if cur <= j then j - cur else j + n - cur
  }

  /** The ring the k-th probe of a pop looks at. */
  function Probe(n: nat, cur: nat, k: nat): (i: nat)
    requires k < n && cur <= n
    ensures i < n && Distance(n, cur, i) == k
  {
    if cur + k < n then cur + k else cur + k - n
  }

  datatype Mesh<T> = Mesh(lanes: seq<Lane<T>>, cur: nat)

  datatype Event<T> = Pushing(writer: nat, x: T) | Flushing | Popping

  /** The first probe from the k-th on that finds something, or the number of rings. */
  function FirstHit<T>(m: Mesh<T>, k: nat): nat
    requires m.cur <= |m.lanes| && k <= |m.lanes|
    decreases |m.lanes| - k
  {
    if k == |m.lanes| || m.lanes[Probe(|m.lanes|, m.cur, k)].published != [] then k else FirstHit(m, k + 1)
  }

  predicate Hits<T>(m: Mesh<T>)
    requires m.cur <= |m.lanes|
  {
    FirstHit(m, 0) < |m.lanes|
  }

  /** The ring a pop serves. */
  function Served<T>(m: Mesh<T>): (i: nat)
    requires m.cur <= |m.lanes| && Hits(m)
    ensures i < |m.lanes|
  {
    Probe(|m.lanes|, m.cur, FirstHit(m, 0))
  }

  predicate Enabled<T>(m: Mesh<T>, e: Event<T>) {
    m.cur <= |m.lanes| && (e.Pushing? ==> e.writer < |m.lanes|)
  }

  function AllFlushed<T>(lanes: seq<Lane<T>>): seq<Lane<T>> {
    seq(|lanes|, i requires 0 <= i < |lanes| => Flushed(lanes[i]))
  }

  function Popped<T>(l: Lane<T>): Lane<T>
    requires l.published != []
  {
    l.(published := l.published[1..])
  }

  function Apply<T>(batch: nat, m: Mesh<T>, e: Event<T>): Mesh<T>
    requires Enabled(m, e)
  {
    match e
    case Pushing(w, x) => m.(lanes := m.lanes[w := Pushed(batch, m.lanes[w], x)])
    case Flushing => m.(lanes := AllFlushed(m.lanes))
    case Popping =>
      // a pop that finds nothing turns the cursor once around
      if !Hits(m) then m.(cur := if m.cur == 0 then |m.lanes| else m.cur)
      else
        FirstHitFinds(m, 0);
        Mesh(m.lanes[Served(m) := Popped(m.lanes[Served(m)])], Served(m) + 1)
  }

  /** The search finds the first ring with something published, or there is none. */
  lemma {:induction false} FirstHitFinds<T>(m: Mesh<T>, k: nat)
    requires m.cur <= |m.lanes| && k <= |m.lanes|
    ensures var h := FirstHit(m, k);
      && k <= h <= |m.lanes|
      && (h < |m.lanes| ==> m.lanes[Probe(|m.lanes|, m.cur, h)].published != [])
      && forall j :: 0 <= j < |m.lanes| && k <= Distance(|m.lanes|, m.cur, j) < h ==> m.lanes[j].published == []
    decreases |m.lanes| - k
  {
    if k < |m.lanes| && m.lanes[Probe(|m.lanes|, m.cur, k)].published == [] {
      FirstHitFinds(m, k + 1);
      assert forall j :: 0 <= j < |m.lanes| && Distance(|m.lanes|, m.cur, j) == k ==> j == Probe(|m.lanes|, m.cur, k);
    }
  }

  /** A pop serves a ring at most as far from the cursor as any ring with something published; it
      fails exactly when there is none. */
  lemma PopServesNearest<T>(m: Mesh<T>, j: nat)
    requires m.cur <= |m.lanes| && j < |m.lanes| && m.lanes[j].published != []
    ensures Hits(m) && m.lanes[Served(m)].published != []
    ensures Distance(|m.lanes|, m.cur, Served(m)) <= Distance(|m.lanes|, m.cur, j)
  {
    FirstHitFinds(m, 0);
  }

  // ---------------------------------------------------------------- producers while a pop is under way

  /** Between two iterations of pop's loop producers go on. */
  datatype Step<T> =
    | Write(writer: nat, x: T)
    | Publish(ring: nat)  // a flush reaches this ring
    | Look                // one iteration of pop's loop

  /** The ring the next iteration looks at. */
  function Cursor<T>(m: Mesh<T>): (i: nat)
    requires |m.lanes| > 0
    ensures i < |m.lanes|
  {
    if m.cur >= |m.lanes| then 0 else m.cur
  }

  predicate Possible<T>(m: Mesh<T>, s: Step<T>) {
    match s
    case Write(w, _) => w < |m.lanes|
    case Publish(i) => i < |m.lanes|
    case Look => |m.lanes| > 0
  }

  predicate Finds<T>(m: Mesh<T>, s: Step<T>)
    requires Possible(m, s)
  {
    s.Look? && m.lanes[Cursor(m)].published != []
  }

  function Next<T>(batch: nat, m: Mesh<T>, s: Step<T>): Mesh<T>
    requires Possible(m, s)
  {
    match s
    case Write(w, x) => m.(lanes := m.lanes[w := Pushed(batch, m.lanes[w], x)])
    case Publish(i) => m.(lanes := m.lanes[i := Flushed(m.lanes[i])])
    case Look =>
      var i := Cursor(m);
      Mesh(if Finds(m, s) then m.lanes[i := Popped(m.lanes[i])] else m.lanes, i + 1)
  }

  predicate CanRun<T>(batch: nat, m: Mesh<T>, steps: seq<Step<T>>)
    decreases |steps|
  {
    steps == [] || (Possible(m, steps[0]) && CanRun(batch, Next(batch, m, steps[0]), steps[1..]))
  }

  /** No look of the run takes anything from ring j. */
  predicate Passed<T>(batch: nat, m: Mesh<T>, steps: seq<Step<T>>, j: nat)
    requires CanRun(batch, m, steps)
    decreases |steps|
  {
    steps == [] ||
    (!(Finds(m, steps[0]) && Cursor(m) == j) && Passed(batch, Next(batch, m, steps[0]), steps[1..], j))
  }

  function Looks<T>(steps: seq<Step<T>>): nat {
    if steps == [] then 0 else (if steps[0].Look? then 1 else 0) + Looks(steps[1..])
  }

  /** Any step that does not serve ring j leaves it something to offer, and a look brings the cursor closer. */
  lemma StepApproaches<T>(batch: nat, m: Mesh<T>, s: Step<T>, j: nat)
    requires m.cur <= |m.lanes| && Possible(m, s) && j < |m.lanes| && m.lanes[j].published != []
    requires !(Finds(m, s) && Cursor(m) == j)
    ensures var m' := Next(batch, m, s);
      && |m'.lanes| == |m.lanes| && m'.cur <= |m'.lanes| && m'.lanes[j].published != []
      && Distance(|m.lanes|, m'.cur, j) + (if s.Look? then 1 else 0) <= Distance(|m.lanes|, m.cur, j)
  {
  }

  /** No starvation: in every interleaving of pushes, flushes and the iterations of any number of pops,
      while ring j has something published and is not served, there are fewer iterations than rings. */
  lemma {:induction false} NoStarvation<T>(batch: nat, m: Mesh<T>, steps: seq<Step<T>>, j: nat)
    requires CanRun(batch, m, steps) && m.cur <= |m.lanes| && j < |m.lanes| && m.lanes[j].published != []
    requires Passed(batch, m, steps, j)
    ensures Looks(steps) <= Distance(|m.lanes|, m.cur, j) < |m.lanes|
    decreases |steps|
  {
    if steps != [] {
      StepApproaches(batch, m, steps[0], j);
      NoStarvation(batch, Next(batch, m, steps[0]), steps[1..], j);
    }
  }

  // ---------------------------------------------------------------- a pop is its iterations

  /** The mesh after n iterations. */
  function Looked<T>(batch: nat, m: Mesh<T>, n: nat): (r: Mesh<T>)
    requires n > 0 ==> |m.lanes| > 0
    ensures |r.lanes| == |m.lanes|
    decreases n
  {
    if n == 0 then m else Next(batch, Looked(batch, m, n - 1), Look)
  }

  /** Where the cursor stands after k iterations that found nothing. */
  function Turned(n: nat, cur: nat, k: nat): nat
    requires k <= n && cur <= n
  {
    if cur + k <= n then cur + k else cur + k - n
  }

  /** Iterations before the first hit only turn the cursor. */
  lemma {:induction false} MissesTurn<T>(batch: nat, m: Mesh<T>, k: nat)
    requires m.cur <= |m.lanes| && k <= FirstHit(m, 0) <= |m.lanes|
    ensures Looked(batch, m, k) == m.(cur := Turned(|m.lanes|, m.cur, k))
    ensures k < |m.lanes| ==> Cursor(Looked(batch, m, k)) == Probe(|m.lanes|, m.cur, k)
  {
    if k > 0 {
      MissesTurn(batch, m, k - 1);
      FirstHitFinds(m, 0);
      assert Distance(|m.lanes|, m.cur, Probe(|m.lanes|, m.cur, k - 1)) == k - 1;
    }
  }

  /** A pop is its iterations, up to the first that finds something or to a whole turn. */
  lemma PopIsLooks<T>(batch: nat, m: Mesh<T>)
    requires m.cur <= |m.lanes|
    ensures var h := FirstHit(m, 0);
      && h <= |m.lanes| && (Hits(m) <==> h < |m.lanes|)
      && Apply(batch, m, Popping) == Looked(batch, m, if Hits(m) then h + 1 else |m.lanes|)
  {
    FirstHitFinds(m, 0);
    MissesTurn(batch, m, FirstHit(m, 0));
  }

  // ---------------------------------------------------------------- whole pops

  predicate CanRunPops<T>(batch: nat, m: Mesh<T>, events: seq<Event<T>>)
    decreases |events|
  {
    events == [] || (Enabled(m, events[0]) && CanRunPops(batch, Apply(batch, m, events[0]), events[1..]))
  }

  /** No pop of the run serves ring j. */
  predicate NeverServed<T>(batch: nat, m: Mesh<T>, events: seq<Event<T>>, j: nat)
    requires CanRunPops(batch, m, events)
    decreases |events|
  {
    events == [] ||
    (!(events[0].Popping? && Hits(m) && Served(m) == j)
     && NeverServed(batch, Apply(batch, m, events[0]), events[1..], j))
  }

  function Pops<T>(events: seq<Event<T>>): nat {
    if events == [] then 0 else (if events[0].Popping? then 1 else 0) + Pops(events[1..])
  }

  /** Any event that does not serve ring j leaves it something to offer, and a pop brings the cursor closer. */
  lemma EventApproaches<T>(batch: nat, m: Mesh<T>, e: Event<T>, j: nat)
    requires Enabled(m, e) && j < |m.lanes| && m.lanes[j].published != []
    requires !(e.Popping? && Hits(m) && Served(m) == j)
    ensures var m' := Apply(batch, m, e);
      && |m'.lanes| == |m.lanes| && m'.cur <= |m'.lanes| && m'.lanes[j].published != []
      && Distance(|m.lanes|, m'.cur, j) + (if e.Popping? then 1 else 0) <= Distance(|m.lanes|, m.cur, j)
  {
    PopServesNearest(m, j);
  }

  /** Fairness of pop itself: with any pushes and flushes in between, a ring with something published is
      served within as many pops as there are rings. */
  lemma {:induction false} PopsAreFair<T>(batch: nat, m: Mesh<T>, events: seq<Event<T>>, j: nat)
    requires CanRunPops(batch, m, events) && m.cur <= |m.lanes| && j < |m.lanes| && m.lanes[j].published != []
    requires NeverServed(batch, m, events, j)
    ensures Pops(events) <= Distance(|m.lanes|, m.cur, j) < |m.lanes|
    decreases |events|
  {
    if events != [] {
      EventApproaches(batch, m, events[0], j);
      PopsAreFair(batch, Apply(batch, m, events[0]), events[1..], j);
    }
  }

  /** Two rings, the first with two items: the second pop serves the second ring. */
  lemma TwoPopsAlternate<T>(batch: nat, a1: T, a2: T, b1: T)
    ensures var m := Mesh([Lane([a1, a2], [], 0), Lane([b1], [], 0)], 0);
      && Hits(m) && Served(m) == 0
      && var m' := Apply(batch, m, Popping); m'.cur == 1 && Hits(m') && Served(m') == 1
  {
    var m := Mesh([Lane([a1, a2], [], 0), Lane([b1], [], 0)], 0);
    PopIsLooks(batch, m);
    assert FirstHit(m, 0) == 0;
  }

  /** No look of the run finds anything. */
  predicate FindsNothing<T>(batch: nat, m: Mesh<T>, steps: seq<Step<T>>)
    requires CanRun(batch, m, steps)
    decreases |steps|
  {
    steps == [] || (!Finds(m, steps[0]) && FindsNothing(batch, Next(batch, m, steps[0]), steps[1..]))
  }

  lemma {:induction false} FindsNothingPasses<T>(batch: nat, m: Mesh<T>, steps: seq<Step<T>>, j: nat)
    requires CanRun(batch, m, steps) && FindsNothing(batch, m, steps)
    ensures Passed(batch, m, steps, j)
    decreases |steps|
  {
    if steps != [] {
      FindsNothingPasses(batch, Next(batch, m, steps[0]), steps[1..], j);
    }
  }

  /** A pop whose iterations all come back empty, whatever the producers did meanwhile, began when nothing
      was published in any ring. */
  lemma FailedPopMissedNothing<T>(batch: nat, m: Mesh<T>, steps: seq<Step<T>>, j: nat)
    requires CanRun(batch, m, steps) && m.cur <= |m.lanes| && j < |m.lanes|
    requires Looks(steps) >= |m.lanes| && FindsNothing(batch, m, steps)
    ensures m.lanes[j].published == []
  {
    if m.lanes[j].published != [] {
      FindsNothingPasses(batch, m, steps, j);
      NoStarvation(batch, m, steps, j);
    }
  }

  // ---------------------------------------------------------------- the queue object

  class LockFreeQueue<T(0)> {
    var lanes: seq<Lane<T>>
    var cur: nat

    ghost predicate Valid()
      reads this
    {
      cur <= |lanes|
    }

    ghost function Value(): Mesh<T>
      reads this
    {
      Mesh(lanes, cur)
    }

    constructor ()
      ensures Valid() && lanes == []
    {
      lanes, cur := [], 0;
    }

    method AddQueue()
      requires Valid()
      modifies this
      ensures Valid() && lanes == old(lanes) + [Lane([], [], 0)] && cur == old(cur)
    {
      lanes := lanes + [Lane([], [], 0)];
    }

    /** Through Insert of the writer's ring, which publishes every batch (InsertIsPush). */
    method Push(writer: nat, x: T)
      requires Valid() && writer < |lanes|
      modifies this
      ensures Valid() && Value() == Apply(Ring.RB_BATCH, old(Value()), Pushing(writer, x))
    {
      lanes := lanes[writer := Pushed(Ring.RB_BATCH, lanes[writer], x)];
    }

    /** Everything written becomes visible. */
    method Flush()
      requires Valid()
      modifies this
      ensures Valid() && Value() == Apply(Ring.RB_BATCH, old(Value()), Flushing)
    {
      ghost var before := lanes;
      for i := 0 to |lanes|
        invariant |lanes| == |before| && cur == old(cur)
        invariant forall k :: 0 <= k < |lanes| ==> lanes[k] == if k < i then Flushed(before[k]) else before[k]
      {
        lanes := lanes[i := Flushed(lanes[i])];
      }
      assert lanes == AllFlushed(before);
    }

    /** Takes the oldest item of the first ring at or after the cursor that has something published;
        fails exactly when none has. */
    method Pop() returns (found: bool, x: T)
      requires Valid()
      modifies this
      ensures Valid() && Value() == Apply(Ring.RB_BATCH, old(Value()), Popping)
      ensures found <==> old(Hits(Value()))
      ensures found <==> exists j :: 0 <= j < |old(lanes)| && old(lanes)[j].published != []
      ensures found ==> old(lanes)[old(Served(Value()))].published != []
                        && x == old(lanes)[old(Served(Value()))].published[0]
    {
      x := *;
      var n := |lanes|;
      ghost var m := Value();
      FirstHitFinds(m, 0);
      for k := 0 to n
        invariant lanes == m.lanes && cur <= n && k <= FirstHit(m, 0)
        invariant cur == (if m.cur + k <= n then m.cur + k else m.cur + k - n)
      {
        if cur >= n {
          cur := 0;
        }
        assert cur == Probe(n, m.cur, k);
        if lanes[cur].published != [] {
          assert k == FirstHit(m, 0);
          x := lanes[cur].published[0];
          lanes := lanes[cur := Popped(lanes[cur])];
          cur := cur + 1;
          return true, x;
        }
        cur := cur + 1;
      }
      forall j | 0 <= j < n ensures m.lanes[j].published == [] {
        assert Distance(n, m.cur, j) < n;
      }
      return false, x;
    }
  }
}
