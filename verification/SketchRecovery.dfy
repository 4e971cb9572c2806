/** A Count-Min sketch whose worker crashes: every row is a NumericArray_MAX of its own
    (apps/count_min/cm_sketch.hpp:14, 45-58), each with the cells the server has saved for it.  A tuple
    adds to one cell of every row; a crash rebuilds every row from the server's replies.  There is no end
    of a window here; module Clearing says what Clear does to a row. */
module SketchRecovery {
  import opened CountMin
  import opened SavedCells
  import opened NumericArrays
  import M = MaxApproximation

  /** The rows, and the tuples of the whole run. */
  datatype World = World(rows: seq<M.System>, stream: seq<Tuple>, crashes: nat)

  datatype Event =
    | Idle                                      // a pass without a tuple
    | Update(t: Tuple)                          // UpdateSketch and the checks at the end of the pass
    | Crash(replies: seq<seq<BackupData>>)      // what the server returns for every row

  /** What an event is for row i. */
  function Part(hash: Hash, e: Event, i: nat): M.Event
    requires e.Crash? ==> i < |e.replies|
  {
    match e
    case Idle => M.Idle
    case Update(t) => M.Add(hash(i, t.key), t.value)
    case Crash(replies) => M.Crash(replies[i])
  }

  predicate Enabled(hash: Hash, w: World, e: Event) {
    && (e.Crash? ==> |e.replies| == |w.rows|)
    && forall i :: 0 <= i < |w.rows| ==> M.Enabled(w.rows[i], Part(hash, e, i))
  }

  function Apply(theta: int, hash: Hash, w: World, e: Event): World
    requires Enabled(hash, w, e)
  {
    World(
      seq(|w.rows|, i requires 0 <= i < |w.rows| => M.Apply(theta, w.rows[i], Part(hash, e, i))),
      if e.Update? then w.stream + [e.t] else w.stream,
      if e.Crash? then w.crashes + 1 else w.crashes)
  }

  function Init(r: nat, width: nat): World {
    World(seq(r, _ => M.Init(width)), [], 0)
  }

  predicate CanRun(theta: int, hash: Hash, w: World, events: seq<Event>)
    decreases |events|
  {
    events == []
    || (Enabled(hash, w, events[0]) && CanRun(theta, hash, Apply(theta, hash, w, events[0]), events[1..]))
  }

  function After(theta: int, hash: Hash, w: World, events: seq<Event>): World
    requires CanRun(theta, hash, w, events)
    decreases |events|
  {
    if events == [] then w else After(theta, hash, Apply(theta, hash, w, events[0]), events[1..])
  }

  /** What the sketch of these rows answers: the smallest of the key's live cells. */
  function Live(hash: Hash, rows: seq<M.System>, r: nat, key: nat): int
    requires r <= |rows| && forall i :: 0 <= i < r ==> hash(i, key) < |rows[i].a.row|
  {
    if r == 0 then 0
    else
      var v := rows[r - 1].a.row[hash(r - 1, key)];
      if r == 1 || v < Live(hash, rows, r - 1, key) then v else Live(hash, rows, r - 1, key)
  }

  // ---------------------------------------------------------------- invariant

  /** Row i trails what its crash-free self would be, and that is what the tuples add up to. */
  ghost predicate RowInv(theta: int, hash: Hash, stream: seq<Tuple>, crashes: nat, width: nat, i: nat, s: M.System) {
    && M.Inv(theta, crashes * theta, s) && |s.ideal| == width
    && forall j :: 0 <= j < width ==> s.ideal[j] == Cell(hash, stream, i, j)
  }

  ghost predicate Inv(theta: int, hash: Hash, width: nat, w: World) {
    forall i :: 0 <= i < |w.rows| ==> RowInv(theta, hash, w.stream, w.crashes, width, i, w.rows[i])
  }

  predicate NonNegativeEvent(e: Event) {
    e.Update? ==> e.t.value >= 0
  }

  lemma UpdateKeepsRow(theta: int, hash: Hash, w: World, width: nat, i: nat, s: M.System, t: Tuple)
    requires theta >= 0 && RowInv(theta, hash, w.stream, w.crashes, width, i, s)
    requires t.value >= 0 && M.Enabled(s, M.Add(hash(i, t.key), t.value))
    ensures RowInv(theta, hash, w.stream + [t], w.crashes, width, i, M.Apply(theta, s, M.Add(hash(i, t.key), t.value)))
  {
    M.AddKeepsInv(theta, w.crashes * theta, s, hash(i, t.key), t.value);
    forall j | 0 <= j < width
      ensures s.ideal[hash(i, t.key) := s.ideal[hash(i, t.key)] + t.value][j] == Cell(hash, w.stream + [t], i, j)
    {
      CellSnoc(hash, w.stream, t, i, j);
    }
  }

  lemma CrashKeepsRow(
    theta: int, hash: Hash, w: World, width: nat, i: nat, s: M.System, reply: seq<BackupData>)
    requires theta >= 0 && RowInv(theta, hash, w.stream, w.crashes, width, i, s) && M.Enabled(s, M.Crash(reply))
    ensures RowInv(theta, hash, w.stream, w.crashes + 1, width, i, M.Apply(theta, s, M.Crash(reply)))
  {
    M.CrashKeepsInv(theta, w.crashes * theta, s, reply);
    assert (w.crashes + 1) * theta == w.crashes * theta + theta;
  }

  lemma StepKeepsInv(theta: int, hash: Hash, width: nat, w: World, e: Event, w': World)
    requires theta >= 0 && Inv(theta, hash, width, w) && Enabled(hash, w, e) && NonNegativeEvent(e)
    requires w' == Apply(theta, hash, w, e)
    ensures Inv(theta, hash, width, w')
  {
    forall i | 0 <= i < |w'.rows| ensures RowInv(theta, hash, w'.stream, w'.crashes, width, i, w'.rows[i]) {
      var s := w.rows[i];
      assert M.Enabled(s, Part(hash, e, i)) && w'.rows[i] == M.Apply(theta, s, Part(hash, e, i));
      match e
      case Idle => M.StepKeepsInv(theta, w.crashes * theta, s, M.Idle);
      case Update(t) => UpdateKeepsRow(theta, hash, w, width, i, s, t);
      case Crash(replies) => CrashKeepsRow(theta, hash, w, width, i, s, replies[i]);
    }
  }

  lemma {:induction false} RunKeepsInv(theta: int, hash: Hash, width: nat, w: World, events: seq<Event>)
    requires theta >= 0 && Inv(theta, hash, width, w) && CanRun(theta, hash, w, events)
    requires forall k :: 0 <= k < |events| ==> NonNegativeEvent(events[k])
    ensures Inv(theta, hash, width, After(theta, hash, w, events))
    ensures |After(theta, hash, w, events).rows| == |w.rows|
    decreases |events|
  {
    if events != [] {
      var w' := Apply(theta, hash, w, events[0]);
      StepKeepsInv(theta, hash, width, w, events[0], w');
      RunKeepsInv(theta, hash, width, w', events[1..]);
    }
  }

  function Crashes(events: seq<Event>): nat {
    if events == [] then 0 else (if events[0].Crash? then 1 else 0) + Crashes(events[1..])
  }

  /** The tuples of a run, in order. */
  function Tuples(events: seq<Event>): seq<Tuple> {
    if events == [] then [] else (if events[0].Update? then [events[0].t] else []) + Tuples(events[1..])
  }

  lemma {:induction false} RunCounts(theta: int, hash: Hash, w: World, events: seq<Event>)
    requires CanRun(theta, hash, w, events)
    ensures After(theta, hash, w, events).crashes == w.crashes + Crashes(events)
    ensures After(theta, hash, w, events).stream == w.stream + Tuples(events)
    decreases |events|
  {
    if events != [] {
      var w' := Apply(theta, hash, w, events[0]);
      RunCounts(theta, hash, w', events[1..]);
      NextTuple(events, w.stream);
    }
  }

  lemma NextTuple(events: seq<Event>, stream: seq<Tuple>)
    requires events != []
    ensures stream + Tuples(events)
         == (if events[0].Update? then stream + [events[0].t] else stream) + Tuples(events[1..])
  {
    var head := if events[0].Update? then [events[0].t] else [];
    Regroup(stream, head, Tuples(events[1..]));
    assert stream + [] == stream;
  }

  lemma Regroup(a: seq<Tuple>, b: seq<Tuple>, c: seq<Tuple>)
    ensures a + (b + c) == a + b + c
  {
  }

  lemma {:induction false} TuplesNonNegative(events: seq<Event>)
    requires forall k :: 0 <= k < |events| ==> NonNegativeEvent(events[k])
    ensures NonNegative(Tuples(events))
    decreases |events|
  {
    if events != [] {
      TuplesNonNegative(events[1..]);
    }
  }

  // ---------------------------------------------------------------- main results

  lemma {:induction false} LiveTrails(theta: int, hash: Hash, width: nat, w: World, r: nat, key: nat)
    requires Inv(theta, hash, width, w) && r <= |w.rows| && forall i :: 0 <= i < r ==> hash(i, key) < width
    requires theta >= 0
    ensures Estimate(hash, w.stream, r, key) - w.crashes * theta <= Live(hash, w.rows, r, key)
    ensures Live(hash, w.rows, r, key) <= Estimate(hash, w.stream, r, key)
    decreases r
  {
    if r > 0 {
      LiveTrails(theta, hash, width, w, r - 1, key);
      assert RowInv(theta, hash, w.stream, w.crashes, width, r - 1, w.rows[r - 1]);
    }
  }

  /** After a run with any number of crashes, every estimate is at most crashes * theta below what the sketch
      of all tuples would answer and never above it; it is never more than crashes * theta below the key's
      true sum. */
  lemma SketchCrashCost(theta: int, hash: Hash, r: nat, width: nat, events: seq<Event>, key: nat)
    requires theta >= 0 && r > 0 && width > 0 && Below(hash, r, width)
    requires CanRun(theta, hash, Init(r, width), events)
    requires forall k :: 0 <= k < |events| ==> NonNegativeEvent(events[k])
    ensures var w, stream := After(theta, hash, Init(r, width), events), Tuples(events);
      && |w.rows| == r && (forall i :: 0 <= i < r ==> |w.rows[i].a.row| == width)
      && Estimate(hash, stream, r, key) - Crashes(events) * theta <= Live(hash, w.rows, r, key)
      && Live(hash, w.rows, r, key) <= Estimate(hash, stream, r, key)
      && TrueSum(stream, key) - Crashes(events) * theta <= Live(hash, w.rows, r, key)
  {
    var w := After(theta, hash, Init(r, width), events);
    InitInv(theta, hash, r, width);
    RunKeepsInv(theta, hash, width, Init(r, width), events);
    RunCounts(theta, hash, Init(r, width), events);
    assert w.stream == Tuples(events) && w.crashes == Crashes(events);
    forall i | 0 <= i < r ensures |w.rows[i].a.row| == width {
      assert RowInv(theta, hash, w.stream, w.crashes, width, i, w.rows[i]);
    }
    LiveTrails(theta, hash, width, w, r, key);
    TuplesNonNegative(events);
    EstimateIsUpperBound(hash, w.stream, r, key);
  }

  /** So a key whose sum exceeds the threshold by more than that is still a heavy hitter of the rebuilt
      sketch. */
  lemma HeavyKeysSurvive(theta: int, hash: Hash, r: nat, width: nat, events: seq<Event>, key: nat, thresh: nat)
    requires theta >= 0 && r > 0 && width > 0 && Below(hash, r, width)
    requires CanRun(theta, hash, Init(r, width), events)
    requires forall k :: 0 <= k < |events| ==> NonNegativeEvent(events[k])
    requires TrueSum(Tuples(events), key) > thresh + Crashes(events) * theta
    ensures var w := After(theta, hash, Init(r, width), events);
      |w.rows| == r && (forall i :: 0 <= i < r ==> |w.rows[i].a.row| == width)
      && Passes(Live(hash, w.rows, r, key), thresh)
  {
    SketchCrashCost(theta, hash, r, width, events, key);
  }

  lemma InitInv(theta: int, hash: Hash, r: nat, width: nat)
    requires theta >= 0 && width > 0
    ensures Inv(theta, hash, width, Init(r, width))
  {
    assert M.Mirrored(NewMax(width), map[]);
  }
}
