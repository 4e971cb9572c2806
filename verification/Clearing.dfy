/** NumericArray_MAX::Clear, which the Count-Min application calls at the end of every window
    (src/operator/array_max.hpp:82-87, apps/count_min/cm_thread.hpp:82-84): it zeroes both local rows and
    the largest difference, but not the remembered index and not what the server has saved. */
module Clearing {
  import opened NumericArrays
  import opened SavedCells
  import M = MaxApproximation

  /** The single-operator system of module MaxApproximation, and which saved cells date from before the
      last Clear. */
  datatype System = System(s: M.System, stale: set<nat>)

  datatype Event = Pass(e: M.Event) | Clear

  /** What has just been saved is not stale any more; after a recovery the operator agrees with the server. */
  function StillStale(theta: int, t: System, e: M.Event): set<nat>
    requires M.Enabled(t.s, e)
  {
    match e
    case Idle => if t.s.a.maxDiff > theta then t.stale - {t.s.a.maxDiffIndex} else t.stale
    case Add(i, d) =>
      var a := MaxUpdated(t.s.a, i, t.s.a.row[i] + d);
      if a.maxDiff > theta then t.stale - {a.maxDiffIndex} else t.stale
    case Crash(_) => {}
  }

  predicate Enabled(t: System, e: Event) {
    e.Pass? ==> M.Enabled(t.s, e.e)
  }

  function Apply(theta: int, t: System, e: Event): System
    requires Enabled(t, e)
  {
    match e
    case Pass(me) => System(M.Apply(theta, t.s, me), StillStale(theta, t, me))
    case Clear => System(t.s.(a := MaxCleared(t.s.a), ideal := seq(|t.s.ideal|, _ => 0)), t.s.saved.Keys)
  }

  function Init(length: nat): System {
    System(M.Init(length), {})
  }

  predicate CanRun(theta: int, t: System, events: seq<Event>)
    decreases |events|
  {
    events == [] || (Enabled(t, events[0]) && CanRun(theta, Apply(theta, t, events[0]), events[1..]))
  }

  function After(theta: int, t: System, events: seq<Event>): System
    requires CanRun(theta, t, events)
    decreases |events|
  {
    if events == [] then t else After(theta, Apply(theta, t, events[0]), events[1..])
  }

  predicate NonNegative(e: Event) {
    e.Pass? ==> M.NonNegative(e.e)
  }

  // ---------------------------------------------------------------- invariant

  /** Cell k as the operator's backup copy has it: what was saved since the last Clear, else 0. */
  ghost predicate Mirrors(a: MaxArray, saved: map<nat, int>, stale: set<nat>) {
    |a.row| == |a.backup| &&
    forall k :: 0 <= k < |a.row| ==> a.backup[k] == if k in saved && k !in stale then saved[k] else 0
  }

  /** Whatever was saved exceeds theta: a cell is only saved when it is further than that above a backup
      that is not negative. */
  ghost predicate Large(theta: int, a: MaxArray, saved: map<nat, int>) {
    forall k :: k in saved ==> k < |a.row| && saved[k] > theta
  }

  /** The live row is above the backup, which is not negative, by at most theta; and the remembered
      difference is that of the remembered cell. */
  ghost predicate Rows(theta: int, a: MaxArray) {
    && M.Shaped(a) && M.Bounded(theta, a)
    && forall k :: 0 <= k < |a.row| ==> 0 <= a.backup[k] <= a.row[k]
  }

  ghost predicate Inv(theta: int, t: System) {
    && Rows(theta, t.s.a) && |t.s.ideal| == |t.s.a.row|
    && Mirrors(t.s.a, t.s.saved, t.stale) && Large(theta, t.s.a, t.s.saved) && t.stale <= t.s.saved.Keys
  }

  /** An addition above theta is remembered with its cell, since nothing above theta was before. */
  lemma AddIsRemembered(theta: int, a: MaxArray, i: nat, d: nat)
    requires theta >= 0 && Rows(theta, a) && i < |a.row|
    ensures var b := MaxUpdated(a, i, a.row[i] + d);
      b.maxDiff > theta ==> b.maxDiffIndex == i && b.maxDiff == b.row[i] - b.backup[i]
  {
  }

  lemma AddKeepsInv(theta: int, t: System, i: nat, d: nat)
    requires theta >= 0 && Inv(theta, t) && M.Enabled(t.s, M.Add(i, d))
    ensures Inv(theta, Apply(theta, t, Pass(M.Add(i, d))))
  {
    AddIsRemembered(theta, t.s.a, i, d);
    M.PassBounded(theta, t.s.a, i, t.s.a.row[i] + d);
  }

  lemma ClearKeepsInv(theta: int, t: System)
    requires theta >= 0 && Inv(theta, t)
    ensures Inv(theta, Apply(theta, t, Clear))
  {
  }

  lemma CrashKeepsInv(theta: int, t: System, reply: seq<BackupData>)
    requires theta >= 0 && Inv(theta, t) && M.Enabled(t.s, M.Crash(reply))
    ensures Inv(theta, Apply(theta, t, Pass(M.Crash(reply))))
  {
    ReplyRebuildsRow(reply, t.s.saved, |t.s.a.row|);
    var row := Row(t.s.saved, |t.s.a.row|);
    assert Apply(theta, t, Pass(M.Crash(reply))).s.a == MaxArray(row, row, 0, 0);
  }

  lemma StepKeepsInv(theta: int, t: System, e: Event)
    requires theta >= 0 && Inv(theta, t) && Enabled(t, e) && NonNegative(e)
    ensures Inv(theta, Apply(theta, t, e))
  {
    if e.Clear? {
      ClearKeepsInv(theta, t);
    } else {
      match e.e
      case Idle =>
      case Add(i, d) => AddKeepsInv(theta, t, i, d);
      case Crash(reply) => CrashKeepsInv(theta, t, reply);
    }
  }

  lemma {:induction false} RunKeepsInv(theta: int, t: System, events: seq<Event>)
    requires theta >= 0 && Inv(theta, t) && CanRun(theta, t, events)
    requires forall i :: 0 <= i < |events| ==> NonNegative(events[i])
    ensures Inv(theta, After(theta, t, events))
    decreases |events|
  {
    if events != [] {
      StepKeepsInv(theta, t, events[0]);
      RunKeepsInv(theta, Apply(theta, t, events[0]), events[1..]);
    }
  }

  // ---------------------------------------------------------------- main results

  /** The row a recovery would rebuild now is below the live row by at most theta in every cell. */
  ghost predicate RebuildsWithin(theta: int, s: M.System) {
    forall k :: 0 <= k < |s.a.row| ==> 0 <= s.a.row[k] - Row(s.saved, |s.a.row|)[k] <= theta
  }

  lemma InvDecides(theta: int, t: System)
    requires theta >= 0 && Inv(theta, t)
    ensures RebuildsWithin(theta, t.s) <==> t.stale == {}
  {
    var s := t.s;
    if t.stale != {} {
      var k :| k in t.stale;
      assert s.a.row[k] - Row(s.saved, |s.a.row|)[k] < 0;
    } else {
      assert forall k :: 0 <= k < |s.a.row| ==> Row(s.saved, |s.a.row|)[k] == s.a.backup[k];
    }
  }

  /** In every run of passes with non-negative additions, crashes and Clears, at every pass boundary: a
      recovery rebuilds the row within theta if and only if every cell ever saved has been saved again, or
      recovered, since the last Clear. */
  lemma ClearCost(theta: int, length: nat, events: seq<Event>)
    requires theta >= 0 && length > 0 && CanRun(theta, Init(length), events)
    requires forall i :: 0 <= i < |events| ==> NonNegative(events[i])
    ensures var t := After(theta, Init(length), events); RebuildsWithin(theta, t.s) <==> t.stale == {}
  {
    RunKeepsInv(theta, Init(length), events);
    InvDecides(theta, After(theta, Init(length), events));
  }

  /** So right after a Clear it does if and only if nothing has ever been saved. */
  lemma ClearThenCrash(theta: int, length: nat, events: seq<Event>)
    requires theta >= 0 && length > 0 && CanRun(theta, Init(length), events)
    requires forall i :: 0 <= i < |events| ==> NonNegative(events[i])
    ensures var t := Apply(theta, After(theta, Init(length), events), Clear);
      RebuildsWithin(theta, t.s) <==> t.s.saved == map[]
  {
    RunKeepsInv(theta, Init(length), events);
    ClearKeepsInv(theta, After(theta, Init(length), events));
    InvDecides(theta, Apply(theta, After(theta, Init(length), events), Clear));
  }

  /** One addition above theta and a Clear: a recovery would bring the old value back into an empty window. */
  lemma OldWindowComesBack(theta: nat)
    ensures var add, t0 := Pass(M.Add(0, theta + 1)), Init(1);
      && Enabled(t0, add) && var t := Apply(theta, Apply(theta, t0, add), Clear);
      && t.s.a.row == t.s.ideal == [0] && Row(t.s.saved, 1) == [theta + 1] && !RebuildsWithin(theta, t.s)
  {
    var t0 := Init(1);
    var t1 := Apply(theta, t0, Pass(M.Add(0, theta + 1)));
    assert t1.s.saved == map[0 := theta + 1];
    assert Row(t1.s.saved, 1)[0] == theta + 1;
  }
}
