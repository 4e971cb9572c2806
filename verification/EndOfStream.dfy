/** The end-of-stream protocol of one outgoing connection: every compute thread writes its data and
    then one FINISH to its ring of the connection's reader (src/thread/compute_thread.hpp:186-198), and
    OutCallbackSimple::PullRecord merges the FINISH marks into one (src/thread/out_callback_simple.hpp:18-48). */
module EndOfStream {
  import opened Optional
  import opened Sums
  import MeshQueue

  datatype Item<T> = Data(source: nat, x: T) | Finish(source: nat)

  datatype State<T> = State(
    rings: seq<seq<Item<T>>>,   // one ring per compute thread
    pulled: seq<seq<Item<T>>>,  // what has been taken from each ring
    numStop: nat,
    handed: seq<Item<T>>)       // what PullRecord has handed on for sending

  datatype Event<T> =
    | Emit(w: nat, x: T)
    | EmitFinish(w: nat)
    | Pull(w: nat)

  function Init<T>(n: nat): State<T> {
    State(seq(n, _ => []), seq(n, _ => []), 0, [])
  }

  /** Everything thread w has written so far. */
  function Written<T>(s: State<T>, w: nat): seq<Item<T>>
    requires w < |s.rings| == |s.pulled|
  {
    s.pulled[w] + s.rings[w]
  }

  predicate Finished<T>(items: seq<Item<T>>) {
    items != [] && items[|items| - 1].Finish?
  }

  /** A thread emits nothing after its own FINISH; the reader may pull from any non-empty ring. */
  predicate Enabled<T>(s: State<T>, e: Event<T>) {
    && e.w < |s.rings| == |s.pulled|
    && if e.Pull? then s.rings[e.w] != [] else !Finished(Written(s, e.w))
  }

  function Apply<T>(s: State<T>, e: Event<T>): State<T>
    requires Enabled(s, e)
  {
    match e
    case Emit(w, x) => s.(rings := s.rings[w := s.rings[w] + [Data(w, x)]])
    case EmitFinish(w) => s.(rings := s.rings[w := s.rings[w] + [Finish(w)]])
    case Pull(w) =>
      var item := s.rings[w][0];
      var s1 := s.(rings := s.rings[w := s.rings[w][1..]], pulled := s.pulled[w := s.pulled[w] + [item]]);
      if item.Data? then s1.(handed := s.handed + [item])
      else
        // all but the last FINISH are acknowledged on the spot and go no further
        s1.(numStop := s.numStop + 1, handed := if s.numStop + 1 == |s.rings| then s.handed + [item] else s.handed)
  }

  predicate CanRun<T>(s: State<T>, events: seq<Event<T>>)
    decreases |events|
  {
    events == [] || (Enabled(s, events[0]) && CanRun(Apply(s, events[0]), events[1..]))
  }

  function After<T>(s: State<T>, events: seq<Event<T>>): State<T>
    requires CanRun(s, events)
    decreases |events|
  {
    if events == [] then s else After(Apply(s, events[0]), events[1..])
  }

  // ---------------------------------------------------------------- invariant

  function Stopped<T>(items: seq<Item<T>>): nat {
    if Finished(items) then 1 else 0
  }

  /** The data items of one thread, in order. */
  function DataFrom<T>(items: seq<Item<T>>, w: nat): seq<Item<T>> {
    if items == [] then []
    else
      var x := items[|items| - 1];
      DataFrom(items[..|items| - 1], w) + if x.Data? && x.source == w then [x] else []
  }

  lemma DataSnoc<T>(items: seq<Item<T>>, x: Item<T>, w: nat)
    ensures x.Data? && x.source == w ==> DataFrom(items + [x], w) == DataFrom(items, w) + [x]
    ensures !(x.Data? && x.source == w) ==> DataFrom(items + [x], w) == DataFrom(items, w)
  {
    assert (items + [x])[..|items|] == items;
  }

  /** FINISH occurs at most as the last item, and sources are right. */
  ghost predicate WellFormed<T>(items: seq<Item<T>>, w: nat) {
    && (forall i :: 0 <= i < |items| ==> items[i].source == w)
    && (forall i :: 0 <= i < |items| - 1 ==> items[i].Data?)
  }

  ghost predicate Inv<T>(s: State<T>) {
    && |s.rings| == |s.pulled| > 0
    && (forall w :: 0 <= w < |s.rings| ==> WellFormed(Written(s, w), w))
    && s.numStop == Sum(s.pulled, Stopped)
    && (forall w :: 0 <= w < |s.rings| ==> DataFrom(s.handed, w) == DataFrom(s.pulled[w], w))
    && (forall i :: 0 <= i < |s.handed| - 1 ==> s.handed[i].Data?)
    && (Finished(s.handed) <==> s.numStop == |s.rings|)
  }

  lemma InitInv<T>(n: nat)
    requires n > 0
    ensures Inv(Init<T>(n))
  {
    SumZero(Init<T>(n).pulled, Stopped);
  }

  /** If all marks are counted, every ring's FINISH has been pulled. */
  lemma {:induction false} AllStopped<T>(pulled: seq<seq<Item<T>>>)
    ensures Sum(pulled, Stopped) <= |pulled|
    ensures Sum(pulled, Stopped) == |pulled| ==> forall w :: 0 <= w < |pulled| ==> Finished(pulled[w])
    ensures (forall w :: 0 <= w < |pulled| ==> Finished(pulled[w])) ==> Sum(pulled, Stopped) == |pulled|
  {
    if pulled != [] {
      AllStopped(pulled[1..]);
      assert forall w :: 0 <= w < |pulled[1..]| ==> pulled[1..][w] == pulled[w + 1];
      if Sum(pulled, Stopped) == |pulled| {
        forall w | 0 <= w < |pulled| ensures Finished(pulled[w]) {
          if w > 0 {
            assert pulled[1..][w - 1] == pulled[w];
          }
        }
      }
    }
  }

  lemma EmitKeepsInv<T>(s: State<T>, e: Event<T>)
    requires Inv(s) && Enabled(s, e) && !e.Pull?
    ensures Inv(Apply(s, e))
  {
    var s' := Apply(s, e);
    forall w | 0 <= w < |s'.rings| ensures WellFormed(Written(s', w), w) {
      assert WellFormed(Written(s, w), w);
      if w == e.w {
        var x := if e.Emit? then Data(w, e.x) else Finish(w);
        assert Written(s', w) == Written(s, w) + [x];
      }
    }
  }

  /** A pull moves the boundary between what was taken and what is waiting. */
  lemma PullMoves<T>(s: State<T>, w: nat)
    requires Inv(s) && Enabled(s, Pull(w))
    ensures forall v :: 0 <= v < |s.rings| ==> Written(Apply(s, Pull(w)), v) == Written(s, v)
    ensures !Finished(s.pulled[w]) && s.rings[w][0].source == w
  {
    var item := s.rings[w][0];
    assert s.pulled[w] + s.rings[w] == (s.pulled[w] + [item]) + s.rings[w][1..];
    assert WellFormed(Written(s, w), w);
    assert Written(s, w)[|s.pulled[w]|] == item;
    if s.pulled[w] != [] {
      assert Written(s, w)[|s.pulled[w]| - 1] == s.pulled[w][|s.pulled[w]| - 1];
    }
  }

  lemma PullKeepsCounts<T>(s: State<T>, w: nat)
    requires Inv(s) && Enabled(s, Pull(w))
    ensures var s' := Apply(s, Pull(w));
      && s'.numStop == Sum(s'.pulled, Stopped)
      && (forall i :: 0 <= i < |s'.handed| - 1 ==> s'.handed[i].Data?)
      && (Finished(s'.handed) <==> s'.numStop == |s'.rings|)
  {
    PullMoves(s, w);
    var item := s.rings[w][0];
    SumUpdate(s.pulled, Stopped, w, s.pulled[w] + [item]);
    AllStopped(s.pulled);
    assert s.numStop < |s.rings|;
    assert !Finished(s.handed);
  }

  lemma PullKeepsData<T>(s: State<T>, w: nat, v: nat)
    requires Inv(s) && Enabled(s, Pull(w)) && v < |s.rings|
    ensures var s' := Apply(s, Pull(w)); DataFrom(s'.handed, v) == DataFrom(s'.pulled[v], v)
  {
    var item := s.rings[w][0];
    var s' := Apply(s, Pull(w));
    assert item.source == w by { PullMoves(s, w); }
    DataSnoc(s.handed, item, v);
    DataSnoc(s.pulled[w], item, v);
    assert DataFrom(s.handed, v) == DataFrom(s.pulled[v], v);
    assert v != w ==> s'.pulled[v] == s.pulled[v];
    assert s'.pulled[w] == s.pulled[w] + [item];
    assert s'.handed == s.handed + [item] || (item.Finish? && s'.handed == s.handed);
  }

  lemma StepKeepsInv<T>(s: State<T>, e: Event<T>)
    requires Inv(s) && Enabled(s, e)
    ensures Inv(Apply(s, e))
  {
    if e.Pull? {
      PullMoves(s, e.w);
      PullKeepsCounts(s, e.w);
      forall v | 0 <= v < |s.rings| ensures DataFrom(Apply(s, e).handed, v) == DataFrom(Apply(s, e).pulled[v], v) {
        PullKeepsData(s, e.w, v);
      }
    } else {
      EmitKeepsInv(s, e);
    }
  }

  lemma {:induction false} RunKeepsInv<T>(s: State<T>, events: seq<Event<T>>)
    requires Inv(s) && CanRun(s, events)
    ensures Inv(After(s, events)) && |After(s, events).rings| == |s.rings|
    decreases |events|
  {
    if events != [] {
      StepKeepsInv(s, events[0]);
      RunKeepsInv(Apply(s, events[0]), events[1..]);
    }
  }

  // ---------------------------------------------------------------- main result

  /** For every number of threads and every interleaving: each thread's data is handed on in its order;
      at most one FINISH is handed on, and it is the last item; when it is, every thread has finished
      and every data item any thread wrote has been handed on before it; and once every thread has
      finished and every ring has been drained, it has been handed on. */
  lemma OneFinishAfterAllData<T>(n: nat, events: seq<Event<T>>)
    requires n > 0 && CanRun(Init<T>(n), events)
    ensures var s := After(Init<T>(n), events);
      && |s.rings| == |s.pulled| == n
      && (forall w :: 0 <= w < n ==> DataFrom(s.handed, w) <= DataFrom(Written(s, w), w))
      && (forall i :: 0 <= i < |s.handed| - 1 ==> s.handed[i].Data?)
      && (Finished(s.handed) ==>
            forall w :: 0 <= w < n ==> Finished(Written(s, w)) && DataFrom(s.handed, w) == DataFrom(Written(s, w), w))
      && ((forall w :: 0 <= w < n ==> s.rings[w] == [] && Finished(Written(s, w))) ==> Finished(s.handed))
  {
    InitInv<T>(n);
    RunKeepsInv(Init<T>(n), events);
    var s := After(Init<T>(n), events);
    forall w | 0 <= w < n ensures DataFrom(s.handed, w) <= DataFrom(Written(s, w), w) {
      DataPrefix(s.pulled[w], s.rings[w], w);
    }
    AllStopped(s.pulled);
    if Finished(s.handed) {
      forall w | 0 <= w < n ensures s.rings[w] == [] {
        NothingAfterFinish(s, w);
      }
    }
    forall w | 0 <= w < n && s.rings[w] == [] ensures Written(s, w) == s.pulled[w] {
    }
  }

  lemma NothingAfterFinish<T>(s: State<T>, w: nat)
    requires Inv(s) && w < |s.rings| && Finished(s.pulled[w])
    ensures s.rings[w] == []
  {
    var k := |s.pulled[w]| - 1;
    assert WellFormed(Written(s, w), w);
    assert Written(s, w)[k] == s.pulled[w][k];
  }

  lemma {:induction false} DataPrefix<T>(a: seq<Item<T>>, b: seq<Item<T>>, w: nat)
    ensures DataFrom(a, w) <= DataFrom(a + b, w)
    decreases |b|
  {
    if b == [] {
      assert a + b == a;
    } else {
      var n := |b| - 1;
      DataPrefix(a, b[..n], w);
      assert a + b == (a + b[..n]) + [b[n]];
      DataSnoc(a + b[..n], b[n], w);
    }
  }

  // ---------------------------------------------------------------- the callback object

  /** Everything in a lane, published or not. */
  function Contents<T>(l: MeshQueue.Lane<T>): seq<T> {
    l.published + l.pending
  }

  ghost function Rings<T>(lanes: seq<MeshQueue.Lane<T>>): seq<seq<T>> {
    seq(|lanes|, i requires 0 <= i < |lanes| => Contents(lanes[i]))
  }

  lemma RingsAfterPop<T>(lanes: seq<MeshQueue.Lane<T>>, w: nat)
    requires w < |lanes| && lanes[w].published != []
    ensures Rings(lanes)[w] != [] && Rings(lanes)[w][0] == lanes[w].published[0]
    ensures Rings(lanes[w := MeshQueue.Popped(lanes[w])]) == Rings(lanes)[w := Rings(lanes)[w][1..]]
  {
    var l := lanes[w];
    assert Contents(MeshQueue.Popped(l)) == Contents(l)[1..];
  }

  /** OutCallbackSimple over the reader's queue. */
  class OutCallbackSimple<T(0)> {
    const reader: MeshQueue.LockFreeQueue<Item<T>>
    const numIn: nat
    var numStop: nat
    var acked: seq<Item<T>>  // what PullRecord itself has acknowledged
    ghost var pulled: seq<seq<Item<T>>>
    ghost var handed: seq<Item<T>>

    ghost predicate Valid()
      reads this, reader
    {
      reader.Valid() && |reader.lanes| == |pulled| == numIn
    }

    ghost function Model(): State<T>
      reads this, reader
    {
      State(Rings(reader.lanes), pulled, numStop, handed)
    }

    /** Something is visible to the reader. */
    ghost predicate Ready()
      reads reader
    {
      exists v :: 0 <= v < |reader.lanes| && reader.lanes[v].published != []
    }

    constructor (queue: MeshQueue.LockFreeQueue<Item<T>>)
      requires queue.Valid() && forall w :: 0 <= w < |queue.lanes| ==> Contents(queue.lanes[w]) == []
      ensures Valid() && reader == queue && Model() == Init<T>(|queue.lanes|) && acked == []
    {
      reader, numIn, numStop, acked := queue, |queue.lanes|, 0, [];
      pulled, handed := seq(|queue.lanes|, _ => []), [];
      new;
      assert Rings(queue.lanes) == seq(|queue.lanes|, _ => []);
    }

    /** Nothing visible to pull, or one Pull step of the protocol on the ring the queue picked.  `last` is
        the return value 1 that ends the stream; an end mark that goes no further is acknowledged here. */
    method PullRecord() returns (data: Option<Item<T>>, last: bool, ghost w: nat)
      requires Valid()
      modifies this, reader
      ensures Valid()
      ensures !old(Ready()) ==> data.None? && !last && Model() == old(Model()) && acked == old(acked)
      ensures old(Ready()) ==>
        && Enabled(old(Model()), Pull(w)) && Model() == Apply(old(Model()), Pull(w))
        && handed == old(handed) + (if data.Some? then [data.value] else [])
        && acked == old(acked) + (if data.None? then [old(Model()).rings[w][0]] else [])
        && (last <==> Model().numStop == numIn && old(numStop) != numIn)
    {
      data, last, w := None, false, 0;
      ghost var lanes := reader.lanes;
      if MeshQueue.Hits(reader.Value()) {
        w := MeshQueue.Served(reader.Value());
      }
      var found, item := reader.Pop();
      if found {
        RingsAfterPop(lanes, w);
        pulled := pulled[w := pulled[w] + [item]];
        if item.Finish? {
          numStop := numStop + 1;
          if numStop == numIn {
            data, last := Some(item), true;
          } else {
            acked := acked + [item];
          }
        } else {
          data := Some(item);
        }
        if data.Some? {
          handed := handed + [item];
        }
      }
    }
  }
}
