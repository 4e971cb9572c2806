/** What a crash costs with NumericArray_MAX: one operator, the server cells saved for it, and
    crash-and-recover cycles at pass boundaries of the compute thread's loop
    (src/thread/compute_thread.hpp:282-357).

    In each pass the application adds to at most one cell of the operator; then the thread compares
    the operator's divergence with theta and, if it is larger, has one cell saved by the server
    before it continues. */
module MaxApproximation {
  import opened NumericArrays
  import opened SavedCells

  datatype System = System(a: MaxArray, saved: map<nat, int>, ideal: seq<int>, crashes: nat)

  datatype Event =
    | Idle                          // a pass in which the operator is not updated
    | Add(i: nat, d: int)           // a pass that adds d to cell i
    | Crash(reply: seq<BackupData>) // the operator is rebuilt from the server's reply

  predicate Shaped(a: MaxArray) {
    MaxShape(a) && |a.row| > 0
  }

  /** The divergence check at the end of a pass: the new operator and the server's new cells. */
  function Checked(theta: int, a: MaxArray): MaxArray
    requires Shaped(a)
  {
    if a.maxDiff > theta then MaxSerialized(a) else a
  }

  function CheckedSaved(theta: int, a: MaxArray, saved: map<nat, int>): map<nat, int>
    requires Shaped(a)
  {
    if a.maxDiff > theta then saved[MaxSaved(a).key := MaxSaved(a).value] else saved
  }

  predicate Enabled(s: System, e: Event) {
    && Shaped(s.a) && |s.ideal| == |s.a.row|
    && (e.Add? ==> e.i < |s.ideal|)
    && (e.Crash? ==> Lists(e.reply, s.saved) && KeysBelow(e.reply, |s.ideal|))
  }

  function Apply(theta: int, s: System, e: Event): System
    requires Enabled(s, e)
  {
    match e
    case Idle => s.(a := Checked(theta, s.a), saved := CheckedSaved(theta, s.a, s.saved))
    case Add(i, d) =>
      var up := MaxUpdated(s.a, i, s.a.row[i] + d);
      System(Checked(theta, up), CheckedSaved(theta, up, s.saved), s.ideal[i := s.ideal[i] + d], s.crashes)
    case Crash(reply) =>
      s.(a := MaxRecoveredAll(NewMax(|s.a.row|), reply), crashes := s.crashes + 1)
  }

  function Init(length: nat): System {
    System(NewMax(length), map[], seq(length, _ => 0), 0)
  }

  predicate CanRun(theta: int, s: System, events: seq<Event>)
    decreases |events|
  {
    events == [] || (Enabled(s, events[0]) && CanRun(theta, Apply(theta, s, events[0]), events[1..]))
  }

  function After(theta: int, s: System, events: seq<Event>): System
    requires CanRun(theta, s, events)
    decreases |events|
  {
    if events == [] then s else After(theta, Apply(theta, s, events[0]), events[1..])
  }

  function Crashes(events: seq<Event>): nat {
    if events == [] then 0 else (if events[0].Crash? then 1 else 0) + Crashes(events[1..])
  }

  lemma {:induction false} CrashesCounted(theta: int, s: System, events: seq<Event>)
    requires CanRun(theta, s, events)
    ensures After(theta, s, events).crashes == s.crashes + Crashes(events)
    decreases |events|
  {
    if events != [] {
      CrashesCounted(theta, Apply(theta, s, events[0]), events[1..]);
    }
  }

  // ---------------------------------------------------------------- invariants

  /** The server's cells are the operator's backup copy. */
  ghost predicate Mirrored(a: MaxArray, saved: map<nat, int>) {
    Shaped(a) && a.backup == Row(saved, |a.row|) && forall k :: k in saved ==> k < |a.row|
  }

  lemma CheckKeepsMirror(theta: int, a: MaxArray, saved: map<nat, int>)
    requires Mirrored(a, saved)
    ensures Mirrored(Checked(theta, a), CheckedSaved(theta, a, saved))
  {
    RowOfSaved(saved, |a.row|, a.maxDiffIndex, a.row[a.maxDiffIndex]);
  }

  /** At a pass boundary no cell exceeds its backup by more than theta, although only the cell of
      the largest difference since the last backup is remembered. */
  ghost predicate Bounded(theta: int, a: MaxArray) {
    && MaxShape(a) && a.maxDiff <= theta
    && forall i :: 0 <= i < |a.row| ==> a.row[i] - a.backup[i] <= theta
  }

  /** The backup copy never runs ahead of the live row, and the live row trails the crash-free one
      by at most loss. */
  ghost predicate Trails(loss: int, a: MaxArray, ideal: seq<int>) {
    && |ideal| == |a.row| == |a.backup|
    && (forall i :: 0 <= i < |ideal| ==> a.backup[i] <= a.row[i])
    && (forall i :: 0 <= i < |ideal| ==> ideal[i] - loss <= a.row[i] <= ideal[i])
  }

  /** One update followed by the check restores the bound, for updates in either direction. */
  lemma PassBounded(theta: int, a: MaxArray, i: nat, v: int)
    requires theta >= 0 && Bounded(theta, a) && i < |a.row|
    ensures Bounded(theta, Checked(theta, MaxUpdated(a, i, v)))
  {
  }

  lemma PassTrails(theta: int, loss: int, a: MaxArray, ideal: seq<int>, i: nat, d: nat)
    requires Shaped(a) && Trails(loss, a, ideal) && i < |a.row|
    ensures Trails(loss, Checked(theta, MaxUpdated(a, i, a.row[i] + d)), ideal[i := ideal[i] + d])
  {
  }

  ghost predicate Inv(theta: int, loss: int, s: System) {
    Mirrored(s.a, s.saved) && Bounded(theta, s.a) && Trails(loss, s.a, s.ideal)
  }

  predicate NonNegative(e: Event) {
    e.Add? ==> e.d >= 0
  }

  function Loss(theta: int, e: Event): int {
    if e.Crash? then theta else 0
  }

  lemma AddMirrors(theta: int, s: System, i: nat, d: int)
    requires Mirrored(s.a, s.saved) && Enabled(s, Add(i, d))
    ensures var s' := Apply(theta, s, Add(i, d)); Mirrored(s'.a, s'.saved)
  {
    CheckKeepsMirror(theta, MaxUpdated(s.a, i, s.a.row[i] + d), s.saved);
  }

  lemma AddBounds(theta: int, s: System, i: nat, d: int)
    requires theta >= 0 && Bounded(theta, s.a) && Enabled(s, Add(i, d))
    ensures Bounded(theta, Apply(theta, s, Add(i, d)).a)
  {
    PassBounded(theta, s.a, i, s.a.row[i] + d);
  }

  lemma AddTrails(theta: int, loss: int, s: System, i: nat, d: nat)
    requires Trails(loss, s.a, s.ideal) && Enabled(s, Add(i, d))
    ensures var s' := Apply(theta, s, Add(i, d)); Trails(loss, s'.a, s'.ideal)
  {
    PassTrails(theta, loss, s.a, s.ideal, i, d);
  }

  lemma AddKeepsInv(theta: int, loss: int, s: System, i: nat, d: nat)
    requires theta >= 0 && Inv(theta, loss, s) && Enabled(s, Add(i, d))
    ensures Inv(theta, loss, Apply(theta, s, Add(i, d)))
  {
    AddMirrors(theta, s, i, d);
    AddBounds(theta, s, i, d);
    AddTrails(theta, loss, s, i, d);
  }

  /** A recovery puts the backup copy in place of the live row, which loses at most theta. */
  lemma CrashKeepsInv(theta: int, loss: int, s: System, reply: seq<BackupData>)
    requires theta >= 0 && Inv(theta, loss, s) && Enabled(s, Crash(reply))
    ensures Inv(theta, loss + theta, Apply(theta, s, Crash(reply)))
  {
    ReplyRebuildsRow(reply, s.saved, |s.a.row|);
    assert Apply(theta, s, Crash(reply)).a == MaxArray(s.a.backup, s.a.backup, 0, 0);
  }

  lemma StepKeepsInv(theta: int, loss: int, s: System, e: Event)
    requires theta >= 0 && Inv(theta, loss, s) && Enabled(s, e) && NonNegative(e)
    ensures Inv(theta, loss + Loss(theta, e), Apply(theta, s, e))
  {
    match e
    case Idle =>
    case Add(i, d) => AddKeepsInv(theta, loss, s, i, d);
    case Crash(reply) => CrashKeepsInv(theta, loss, s, reply);
  }

  lemma {:induction false} RunKeepsInv(theta: int, loss: int, s: System, events: seq<Event>)
    requires theta >= 0 && Inv(theta, loss, s) && CanRun(theta, s, events)
    requires forall i :: 0 <= i < |events| ==> NonNegative(events[i])
    ensures Inv(theta, loss + Crashes(events) * theta, After(theta, s, events))
    decreases |events|
  {
    if events != [] {
      StepKeepsInv(theta, loss, s, events[0]);
      RunKeepsInv(theta, loss + Loss(theta, events[0]), Apply(theta, s, events[0]), events[1..]);
      assert (1 + Crashes(events[1..])) * theta == theta + Crashes(events[1..]) * theta;
    }
  }

  // ---------------------------------------------------------------- main results

  /** In every run of passes and crashes with non-negative additions, the row the server would
      rebuild is below the live row by at most theta in every cell, and after k crashes the live row
      is below the crash-free row by at most k * theta in every cell. */
  lemma CrashCost(theta: int, length: nat, events: seq<Event>)
    requires theta >= 0 && length > 0 && CanRun(theta, Init(length), events)
    requires forall i :: 0 <= i < |events| ==> NonNegative(events[i])
    ensures var s := After(theta, Init(length), events);
      && |s.ideal| == |s.a.row|
      && (forall i :: 0 <= i < |s.ideal| ==> 0 <= s.a.row[i] - Row(s.saved, |s.ideal|)[i] <= theta)
      && (forall i :: 0 <= i < |s.ideal| ==> s.ideal[i] - s.crashes * theta <= s.a.row[i] <= s.ideal[i])
  {
    RunKeepsInv(theta, 0, Init(length), events);
    CrashesCounted(theta, Init(length), events);
  }

  lemma StepKeepsBound(theta: int, s: System, e: Event)
    requires theta >= 0 && Mirrored(s.a, s.saved) && Bounded(theta, s.a) && Enabled(s, e)
    ensures var s' := Apply(theta, s, e);
      Mirrored(s'.a, s'.saved) && Bounded(theta, s'.a) && |s'.ideal| == |s'.a.row| == |s.a.row|
  {
    match e
    case Idle =>
    case Add(i, d) =>
      AddMirrors(theta, s, i, d);
      AddBounds(theta, s, i, d);
    case Crash(reply) =>
      ReplyRebuildsRow(reply, s.saved, |s.a.row|);
      assert Apply(theta, s, e).a == MaxArray(s.a.backup, s.a.backup, 0, 0);
  }

  lemma {:induction false} RunKeepsBound(theta: int, s: System, events: seq<Event>)
    requires theta >= 0 && Mirrored(s.a, s.saved) && Bounded(theta, s.a) && CanRun(theta, s, events)
    requires |s.ideal| == |s.a.row|
    ensures var s' := After(theta, s, events);
      Mirrored(s'.a, s'.saved) && Bounded(theta, s'.a) && |s'.ideal| == |s'.a.row| == |s.a.row|
    decreases |events|
  {
    if events != [] {
      StepKeepsBound(theta, s, events[0]);
      RunKeepsBound(theta, Apply(theta, s, events[0]), events[1..]);
    }
  }

  /** With any threshold theta >= 0 an idle pass never takes the backup branch and changes nothing, whatever
      happened before: additions of either sign, idle passes and crashes. */
  lemma IdlePassIsQuiet(theta: int, length: nat, events: seq<Event>)
    requires theta >= 0 && length > 0 && CanRun(theta, Init(length), events)
    ensures var s := After(theta, Init(length), events);
      s.a.maxDiff <= theta && Enabled(s, Idle) && Apply(theta, s, Idle) == s
  {
    RunKeepsBound(theta, Init(length), events);
  }

  /** After any run, an addition makes the server save its cell, with the new value, if and only if that
      value exceeds what the server has for the cell by more than theta; nothing else is ever saved. */
  lemma AdditionIsSavedIff(theta: int, length: nat, events: seq<Event>, i: nat, d: int)
    requires theta >= 0 && length > 0 && CanRun(theta, Init(length), events) && i < length
    ensures var s := After(theta, Init(length), events);
      && Enabled(s, Add(i, d))
      && var v, s' := s.a.row[i] + d, Apply(theta, s, Add(i, d));
      && s'.a.row == s.a.row[i := v]
      && s'.saved == if v - (if i in s.saved then s.saved[i] else 0) > theta then s.saved[i := v] else s.saved
  {
    RunKeepsBound(theta, Init(length), events);
    var s := After(theta, Init(length), events);
    assert s.a.backup[i] == Row(s.saved, |s.a.row|)[i];
  }

  lemma {:induction false} DifferenceNotNegative(theta: int, s: System, events: seq<Event>)
    requires CanRun(theta, s, events) && s.a.maxDiff >= 0
    ensures After(theta, s, events).a.maxDiff >= 0
    decreases |events|
  {
    if events != [] {
      DifferenceNotNegative(theta, Apply(theta, s, events[0]), events[1..]);
    }
  }

  /** The dichotomy: with a negative threshold, such as the configuration default -1, an idle pass takes the
      backup branch after every run whatsoever; with any other threshold it does after none. */
  lemma IdleBranchIff(theta: int, length: nat, events: seq<Event>)
    requires length > 0 && CanRun(theta, Init(length), events)
    ensures After(theta, Init(length), events).a.maxDiff > theta <==> theta < 0
  {
    if theta >= 0 {
      IdlePassIsQuiet(theta, length, events);
    } else {
      DifferenceNotNegative(theta, Init(length), events);
    }
  }

  // ---------------------------------------------------------------- several updates in one pass

  /** The updates are of existing cells. */
  predicate Within(backup: seq<int>, updates: seq<(nat, int)>) {
    forall k :: 0 <= k < |updates| ==> updates[k].0 < |backup|
  }

  /** A pass that overwrites several cells, as the merge thread does for every item it receives. */
  function UpdatedAll(a: MaxArray, updates: seq<(nat, int)>): (r: MaxArray)
    requires MaxShape(a) && Within(a.backup, updates)
    ensures MaxShape(r) && |r.row| == |a.row| && r.backup == a.backup
    decreases |updates|
  {
    if updates == [] then a else UpdatedAll(MaxUpdated(a, updates[0].0, updates[0].1), updates[1..])
  }

  /** How far update k lifts its cell above the backup. */
  function Rise(backup: seq<int>, updates: seq<(nat, int)>, k: nat): int
    requires k < |updates| && updates[k].0 < |backup|
  {
    updates[k].1 - backup[updates[k].0]
  }

  /** Update j is the first of those that lift a cell furthest. */
  ghost predicate FirstPeak(backup: seq<int>, updates: seq<(nat, int)>, j: nat)
    requires Within(backup, updates)
  {
    && j < |updates|
    && (forall k :: 0 <= k < |updates| ==> Rise(backup, updates, k) <= Rise(backup, updates, j))
    && (forall k :: 0 <= k < j ==> Rise(backup, updates, k) < Rise(backup, updates, j))
  }

  lemma {:induction false} PeakExists(backup: seq<int>, updates: seq<(nat, int)>) returns (j: nat)
    requires Within(backup, updates) && updates != []
    ensures FirstPeak(backup, updates, j)
    decreases |updates|
  {
    var n := |updates| - 1;
    j := n;
    if n > 0 {
      var front := updates[..n];
      j := PeakExists(backup, front);
      assert forall k :: 0 <= k < n ==> Rise(backup, front, k) == Rise(backup, updates, k);
      if Rise(backup, updates, n) > Rise(backup, updates, j) {
        j := n;
      }
    }
  }

  /** What the array remembers after any list of updates: the cell and the rise of the first peak, if that is
      above the difference remembered before; else what it remembered before. */
  lemma {:induction false} RemembersFirstPeak(a: MaxArray, updates: seq<(nat, int)>, j: nat)
    requires MaxShape(a) && Within(a.backup, updates) && (updates != [] ==> FirstPeak(a.backup, updates, j))
    ensures var b := UpdatedAll(a, updates);
      if updates != [] && Rise(a.backup, updates, j) > a.maxDiff
      then b.maxDiffIndex == updates[j].0 && b.maxDiff == Rise(a.backup, updates, j)
      else b.maxDiffIndex == a.maxDiffIndex && b.maxDiff == a.maxDiff
    decreases |updates|
  {
    if updates != [] {
      var rest, b := updates[1..], MaxUpdated(a, updates[0].0, updates[0].1);
      assert forall k :: 0 <= k < |rest| ==> Rise(a.backup, rest, k) == Rise(a.backup, updates, k + 1);
      if rest == [] {
        RemembersFirstPeak(b, rest, 0);
      } else if j > 0 {
        assert Rise(a.backup, updates, 0) < Rise(a.backup, updates, j) && rest[j - 1] == updates[j];
        RemembersFirstPeak(b, rest, j - 1);
      } else {
        var i := PeakExists(a.backup, rest);
        RemembersFirstPeak(b, rest, i);
      }
    }
  }

  /** Update i is the last one of cell c. */
  ghost predicate IsLast(updates: seq<(nat, int)>, i: nat, c: nat)
    requires i < |updates|
  {
    updates[i].0 == c && forall k :: i < k < |updates| ==> updates[k].0 != c
  }

  /** A cell holds what the last update of it wrote, or what it held. */
  lemma {:induction false} RowAfterUpdates(a: MaxArray, updates: seq<(nat, int)>, c: nat)
    requires MaxShape(a) && Within(a.backup, updates) && c < |a.row|
    ensures (forall k :: 0 <= k < |updates| ==> updates[k].0 != c) ==> UpdatedAll(a, updates).row[c] == a.row[c]
    ensures forall i :: 0 <= i < |updates| && IsLast(updates, i, c) ==> UpdatedAll(a, updates).row[c] == updates[i].1
    decreases |updates|
  {
    if updates != [] {
      var rest, b := updates[1..], MaxUpdated(a, updates[0].0, updates[0].1);
      RowAfterUpdates(b, rest, c);
      assert forall k :: 0 <= k < |rest| ==> rest[k] == updates[k + 1];
      forall i | 0 <= i < |updates| && IsLast(updates, i, c) ensures UpdatedAll(a, updates).row[c] == updates[i].1 {
        if i > 0 {
          assert IsLast(rest, i - 1, c);
        } else {
          assert forall k :: 0 <= k < |rest| ==> rest[k].0 != c;
        }
      }
    }
  }

  /** A save forgets which cell it was: without an update the next one saves cell 0.  A Clear does not, and the
      next save is of the same cell, now 0. */
  lemma SavedWithoutUpdate(a: MaxArray)
    requires Shaped(a)
    ensures MaxSaved(MaxSerialized(a)) == BackupData(0, a.row[0])
    ensures MaxSaved(MaxCleared(a)) == BackupData(a.maxDiffIndex, 0)
  {
  }

  /** So from a state that remembers no difference, as after a save, a Clear or a recovery, the cell that is
      saved next is that of the first peak, with its last value; without a rise it is the one remembered. */
  lemma SavesFirstPeak(a: MaxArray, updates: seq<(nat, int)>, j: nat, i: nat)
    requires Shaped(a) && a.maxDiff == 0 && Within(a.backup, updates) && FirstPeak(a.backup, updates, j)
    requires i < |updates| && IsLast(updates, i, updates[j].0)
    ensures var b := UpdatedAll(a, updates);
      && (Rise(a.backup, updates, j) > 0 ==> MaxSaved(b) == BackupData(updates[j].0, updates[i].1))
      && (Rise(a.backup, updates, j) <= 0 ==> MaxSaved(b).key == a.maxDiffIndex)
  {
    RemembersFirstPeak(a, updates, j);
    RowAfterUpdates(a, updates, updates[j].0);
  }

  /** No update lowers the cell it writes. */
  predicate Rising(row: seq<int>, updates: seq<(nat, int)>)
    decreases |updates|
  {
    updates == [] ||
    (updates[0].0 < |row| && row[updates[0].0] <= updates[0].1
     && Rising(row[updates[0].0 := updates[0].1], updates[1..]))
  }

  /** Above the bound, the remembered cell is a largest one. */
  ghost predicate Tracks(theta: int, a: MaxArray) {
    && Covered(theta, a)
    && (a.maxDiff > theta ==> |a.row| > 0 && a.row[a.maxDiffIndex] - a.backup[a.maxDiffIndex] == a.maxDiff)
  }

  lemma {:induction false} UpdatesTrack(theta: int, a: MaxArray, updates: seq<(nat, int)>)
    requires Tracks(theta, a) && Rising(a.row, updates)
    requires forall k :: 0 <= k < |updates| ==> updates[k].0 < |a.row|
    ensures Tracks(theta, UpdatedAll(a, updates))
    decreases |updates|
  {
    if updates != [] {
      var b := MaxUpdated(a, updates[0].0, updates[0].1);
      assert Tracks(theta, b);
      UpdatesTrack(theta, b, updates[1..]);
    }
  }

  /** No cell is further above its backup than theta or the remembered difference. */
  ghost predicate Covered(theta: int, a: MaxArray) {
    MaxShape(a) && forall i :: 0 <= i < |a.row| ==>
      a.row[i] - a.backup[i] <= theta || a.row[i] - a.backup[i] <= a.maxDiff
  }

  lemma {:induction false} UpdatesCovered(theta: int, a: MaxArray, updates: seq<(nat, int)>)
    requires Covered(theta, a) && forall k :: 0 <= k < |updates| ==> updates[k].0 < |a.row|
    ensures Covered(theta, UpdatedAll(a, updates))
    decreases |updates|
  {
    if updates != [] {
      UpdatesCovered(theta, MaxUpdated(a, updates[0].0, updates[0].1), updates[1..]);
    }
  }

  /** Cell c is where the first of the highest updates went. */
  ghost predicate PeaksFirst(backup: seq<int>, updates: seq<(nat, int)>, c: nat)
    requires Within(backup, updates)
  {
    exists j: nat :: FirstPeak(backup, updates, j) && updates[j].0 == c
  }

  lemma {:induction false} HighCellsWereUpdated(theta: int, a: MaxArray, updates: seq<(nat, int)>, c: nat)
    returns (k: nat)
    requires MaxShape(a) && Within(a.backup, updates) && c < |a.row| && a.row[c] - a.backup[c] <= theta
    requires UpdatedAll(a, updates).row[c] - a.backup[c] > theta
    ensures k < |updates| && Rise(a.backup, updates, k) > theta
    decreases |updates|
  {
    k := 0;
    if updates != [] && Rise(a.backup, updates, 0) <= theta {
      var b := MaxUpdated(a, updates[0].0, updates[0].1);
      k := HighCellsWereUpdated(theta, b, updates[1..], c);
      k := k + 1;
    }
  }

  /** Any number of updates in either direction: the single backup suffices exactly when no cell but
      that of the first peak is left above theta. */
  lemma AnyUpdatesBound(theta: int, a: MaxArray, updates: seq<(nat, int)>)
    requires theta >= 0 && Bounded(theta, a) && |a.row| > 0 && Within(a.backup, updates)
    ensures var b := UpdatedAll(a, updates);
      Bounded(theta, Checked(theta, b)) <==>
      forall i :: 0 <= i < |b.row| && b.row[i] - b.backup[i] > theta ==> PeaksFirst(a.backup, updates, i)
  {
    var b := UpdatedAll(a, updates);
    SavedCellBounds(theta, a, updates, b);
    forall i | 0 <= i < |b.row| && b.row[i] - b.backup[i] > theta
      ensures i == b.maxDiffIndex <==> PeaksFirst(a.backup, updates, i)
    {
      HighCellPeaks(theta, a, updates, b, i);
    }
  }

  /** A cell above theta is the remembered one exactly when the first peak was its. */
  lemma HighCellPeaks(theta: int, a: MaxArray, updates: seq<(nat, int)>, b: MaxArray, i: nat)
    requires Bounded(theta, a) && Within(a.backup, updates) && b == UpdatedAll(a, updates)
    requires i < |b.row| && b.row[i] - b.backup[i] > theta
    ensures i == b.maxDiffIndex <==> PeaksFirst(a.backup, updates, i)
  {
    var k := HighCellsWereUpdated(theta, a, updates, i);
    var j := PeakExists(a.backup, updates);
    RemembersFirstPeak(a, updates, j);
    assert Rise(a.backup, updates, k) <= Rise(a.backup, updates, j);
    if PeaksFirst(a.backup, updates, i) {
      var p: nat :| FirstPeak(a.backup, updates, p) && updates[p].0 == i;
      PeakIsUnique(a.backup, updates, j, p);
    }
  }

  lemma PeakIsUnique(backup: seq<int>, updates: seq<(nat, int)>, i: nat, j: nat)
    requires Within(backup, updates) && FirstPeak(backup, updates, i) && FirstPeak(backup, updates, j)
    ensures i == j
  {
    var x, y := Rise(backup, updates, i), Rise(backup, updates, j);
    assert x <= y <= x;
  }

  /** The single backup suffices exactly when no cell but the remembered one is left above theta. */
  lemma SavedCellBounds(theta: int, a: MaxArray, updates: seq<(nat, int)>, b: MaxArray)
    requires theta >= 0 && Bounded(theta, a) && |a.row| > 0 && Within(a.backup, updates) && b == UpdatedAll(a, updates)
    ensures Bounded(theta, Checked(theta, b)) <==>
      forall i :: 0 <= i < |b.row| && b.row[i] - b.backup[i] > theta ==> i == b.maxDiffIndex
  {
    UpdatesCovered(theta, a, updates);
    var c := Checked(theta, b);
    if Bounded(theta, c) {
      forall i | 0 <= i < |b.row| && i != b.maxDiffIndex ensures b.row[i] - b.backup[i] <= theta {
        assert c.row[i] - c.backup[i] <= theta;
      }
    }
  }

  /** If no update lowers its cell this means that at most one cell was pushed above theta: the
      one-update premise of CrashCost cannot be dropped. */
  lemma ManyUpdatesBound(theta: int, a: MaxArray, updates: seq<(nat, int)>)
    requires theta >= 0 && Bounded(theta, a) && |a.row| > 0 && Rising(a.row, updates)
    requires forall k :: 0 <= k < |updates| ==> updates[k].0 < |a.row|
    ensures var b := UpdatedAll(a, updates);
      Bounded(theta, Checked(theta, b)) <==>
      forall i, j :: 0 <= i < j < |b.row| ==> b.row[i] - b.backup[i] <= theta || b.row[j] - b.backup[j] <= theta
  {
    UpdatesTrack(theta, a, updates);
    var b := UpdatedAll(a, updates);
    var c := Checked(theta, b);
    if Bounded(theta, c) {
      forall i, j | 0 <= i < j < |b.row| ensures b.row[i] - b.backup[i] <= theta || b.row[j] - b.backup[j] <= theta {
        assert c.row[i] - c.backup[i] <= theta && c.row[j] - c.backup[j] <= theta;
      }
    }
    if forall i, j :: 0 <= i < j < |b.row| ==> b.row[i] - b.backup[i] <= theta || b.row[j] - b.backup[j] <= theta {
      forall i | 0 <= i < |c.row| ensures c.row[i] - c.backup[i] <= theta {
        var m := b.maxDiffIndex;
        if b.maxDiff > theta && i != m {
          assert i < m || m < i;
          assert b.row[m] - b.backup[m] > theta;
        }
      }
    }
  }

  /** A merged item with two large counters in one pass: cell 0 is saved, and a recovery would lose more than
      theta in cell 1. */
  lemma MergerCanLoseMore()
    ensures var a, b := NewMax(2), UpdatedAll(NewMax(2), [(0, 10), (1, 10)]);
      && Bounded(5, a) && MaxSaved(b) == BackupData(0, 10) && b.maxDiff == 10 && !Bounded(5, Checked(5, b))
  {
    var a := NewMax(2);
    var us: seq<(nat, int)> := [(0, 10), (1, 10)];
    assert us[1..] == [(1, 10)] && us[1..][1..] == [];
    var b := UpdatedAll(a, us);
    assert b == UpdatedAll(MaxUpdated(MaxUpdated(a, 0, 10), 1, 10), []);
    assert b.row == [10, 10] && b.maxDiffIndex == 0;
    assert Checked(5, b).row[1] - Checked(5, b).backup[1] == 10;
  }
}
