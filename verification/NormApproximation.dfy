/** What a crash costs with NumericArray_L1 and NumericArray_L2, whose backup picks the single
    cell of largest distance.  The events are those of module MaxApproximation. */
module NormApproximation {
  import opened Sums
  import opened NumericArrays
  import opened SavedCells

  datatype System = System(a: SumArray, saved: map<nat, int>, ideal: seq<int>, crashes: nat)

  datatype Event =
    | Idle                          // a pass in which the operator is not updated
    | Add(i: nat, d: int)           // a pass that adds d, of either sign, to cell i
    | Crash(reply: seq<BackupData>) // the operator is rebuilt from the server's reply

  predicate Shaped(a: SumArray) {
    |a.row| == |a.backup| > 0
  }

  function Victim(cost: int -> nat, a: SumArray): (k: nat)
    requires Shaped(a)
    ensures k < |a.row|
  {
    FirstMaxIndex(cost, a.row, a.backup, |a.row|)
  }

  /** The divergence check at the end of a pass: the new operator and the server's new cells. */
  function Checked(cost: int -> nat, theta: int, a: SumArray): SumArray
    requires Shaped(a)
  {
    if a.totDiff > theta then SumSerialized(cost, a, Victim(cost, a)) else a
  }

  function CheckedSaved(cost: int -> nat, theta: int, a: SumArray, saved: map<nat, int>): map<nat, int>
    requires Shaped(a)
  {
    if a.totDiff > theta then saved[Victim(cost, a) := a.row[Victim(cost, a)]] else saved
  }

  predicate Enabled(s: System, e: Event) {
    && Shaped(s.a) && |s.ideal| == |s.a.row|
    && (e.Add? ==> e.i < |s.ideal|)
    && (e.Crash? ==> Lists(e.reply, s.saved) && KeysBelow(e.reply, |s.ideal|))
  }

  function Apply(cost: int -> nat, theta: int, s: System, e: Event): System
    requires Enabled(s, e)
  {
    match e
    case Idle => s.(a := Checked(cost, theta, s.a), saved := CheckedSaved(cost, theta, s.a, s.saved))
    case Add(i, d) =>
      var up := SumUpdated(cost, s.a, i, s.a.row[i] + d);
      System(Checked(cost, theta, up), CheckedSaved(cost, theta, up, s.saved), s.ideal[i := s.ideal[i] + d], s.crashes)
    case Crash(reply) =>
      s.(a := SumRecoveredAll(NewSum(|s.a.row|), reply), crashes := s.crashes + 1)
  }

  function Init(length: nat): System {
    System(NewSum(length), map[], seq(length, _ => 0), 0)
  }

  predicate CanRun(cost: int -> nat, theta: int, s: System, events: seq<Event>)
    decreases |events|
  {
    events == [] || (Enabled(s, events[0]) && CanRun(cost, theta, Apply(cost, theta, s, events[0]), events[1..]))
  }

  function After(cost: int -> nat, theta: int, s: System, events: seq<Event>): System
    requires CanRun(cost, theta, s, events)
    decreases |events|
  {
    if events == [] then s else After(cost, theta, Apply(cost, theta, s, events[0]), events[1..])
  }

  // ---------------------------------------------------------------- the metrics

  lemma DistanceCons(cost: int -> nat, a: seq<int>, b: seq<int>)
    requires |a| == |b| > 0
    ensures Distance(cost, a, b) == cost(a[0] - b[0]) + Distance(cost, a[1..], b[1..])
  {
    assert Costs(cost, a, b)[1..] == Costs(cost, a[1..], b[1..]);
  }

  /** The sum of absolute differences obeys the triangle inequality. */
  lemma {:induction false} TriangleL1(a: seq<int>, b: seq<int>, c: seq<int>)
    requires |a| == |b| == |c|
    ensures Distance(Abs, a, c) <= Distance(Abs, a, b) + Distance(Abs, b, c)
    decreases |a|
  {
    if a != [] {
      DistanceCons(Abs, a, b);
      DistanceCons(Abs, b, c);
      DistanceCons(Abs, a, c);
      TriangleL1(a[1..], b[1..], c[1..]);
    }
  }

  /** k (x+y)^2 <= (k+1) x^2 + k (k+1) y^2, because (x - k y)^2 >= 0. */
  lemma SquareOfSum(k: nat, x: int, y: int)
    ensures k * Sqr(x + y) <= (k + 1) * Sqr(x) + k * (k + 1) * Sqr(y)
  {
    calc {
      (k + 1) * (x * x) + k * (k + 1) * (y * y) - k * ((x + y) * (x + y));
      == { assert (x + y) * (x + y) == x * x + 2 * (x * y) + y * y; }
      (k + 1) * (x * x) + k * (k + 1) * (y * y) - k * (x * x + 2 * (x * y) + y * y);
      == { assert k * (x * x + 2 * (x * y) + y * y) == k * (x * x) + 2 * (k * (x * y)) + k * (y * y);
           assert k * (k + 1) * (y * y) == k * k * (y * y) + k * (y * y);
           assert (k + 1) * (x * x) == k * (x * x) + x * x; }
      x * x + k * k * (y * y) - 2 * (k * (x * y));
      == { assert (x - k * y) * (x - k * y) == x * x - 2 * (k * (x * y)) + k * k * (y * y) by {
             assert (k * y) * (k * y) == k * k * (y * y);
             assert x * (k * y) == k * (x * y);
           } }
      (x - k * y) * (x - k * y);
    }
    Square(x - k * y);
  }

  /** The same for whole rows: the Minkowski inequality for squared distances of integer rows. */
  lemma {:induction false} TriangleL2(k: nat, a: seq<int>, b: seq<int>, c: seq<int>)
    requires |a| == |b| == |c|
    ensures k * Distance(Sqr, a, c) <= (k + 1) * Distance(Sqr, a, b) + k * (k + 1) * Distance(Sqr, b, c)
    decreases |a|
  {
    if a != [] {
      DistanceCons(Sqr, a, b);
      DistanceCons(Sqr, b, c);
      DistanceCons(Sqr, a, c);
      TriangleL2(k, a[1..], b[1..], c[1..]);
      SquareOfSum(k, a[0] - b[0], b[0] - c[0]);
      assert a[0] - c[0] == (a[0] - b[0]) + (b[0] - c[0]);
      Combine(k, Sqr(a[0] - c[0]), Distance(Sqr, a[1..], c[1..]), Sqr(a[0] - b[0]), Distance(Sqr, a[1..], b[1..]),
              Sqr(b[0] - c[0]), Distance(Sqr, b[1..], c[1..]));
    }
  }

  lemma Combine(k: nat, x: nat, xs: nat, y: nat, ys: nat, z: nat, zs: nat)
    requires k * x <= (k + 1) * y + k * (k + 1) * z
    requires k * xs <= (k + 1) * ys + k * (k + 1) * zs
    ensures k * (x + xs) <= (k + 1) * (y + ys) + k * (k + 1) * (z + zs)
  {
    assert k * (x + xs) == k * x + k * xs;
    assert (k + 1) * (y + ys) == (k + 1) * y + (k + 1) * ys;
    assert k * (k + 1) * (z + zs) == k * (k + 1) * z + k * (k + 1) * zs;
  }

  /** Adding the same amount to the same cell of both rows does not change their distance. */
  lemma DistanceShift(cost: int -> nat, a: seq<int>, b: seq<int>, i: nat, d: int)
    requires |a| == |b| && i < |a|
    ensures Distance(cost, a[i := a[i] + d], b[i := b[i] + d]) == Distance(cost, a, b)
  {
    assert Costs(cost, a[i := a[i] + d], b[i := b[i] + d]) == Costs(cost, a, b);
  }

  lemma DistanceSelf(cost: int -> nat, a: seq<int>)
    requires cost(0) == 0
    ensures Distance(cost, a, a) == 0
  {
    SumZero(Costs(cost, a, a), Id);
  }

  /** Changing one cell of the first row changes the distance by the difference of the two costs. */
  lemma DistanceUpdate(cost: int -> nat, a: seq<int>, b: seq<int>, i: nat, v: int)
    requires |a| == |b| && i < |a|
    ensures Distance(cost, a[i := v], b) + cost(a[i] - b[i]) == Distance(cost, a, b) + cost(v - b[i])
  {
    SumUpdate(Costs(cost, a, b), Id, i, cost(v - b[i]));
    assert Costs(cost, a[i := v], b) == Costs(cost, a, b)[i := cost(v - b[i])];
  }

  /** Backing up one cell removes its cost from the distance. */
  lemma DistanceBackup(cost: int -> nat, a: seq<int>, b: seq<int>, i: nat)
    requires |a| == |b| && i < |a| && cost(0) == 0
    ensures Distance(cost, a, b[i := a[i]]) + cost(a[i] - b[i]) == Distance(cost, a, b)
  {
    SumUpdate(Costs(cost, a, b), Id, i, 0);
    assert Costs(cost, a, b[i := a[i]]) == Costs(cost, a, b)[i := 0];
  }

  /** One cell's cost is part of the distance. */
  lemma DistanceBoundsCell(cost: int -> nat, a: seq<int>, b: seq<int>, i: nat)
    requires |a| == |b| && i < |a|
    ensures cost(a[i] - b[i]) <= Distance(cost, a, b)
  {
    SumBoundsElement(Costs(cost, a, b), Id, i);
  }

  // ---------------------------------------------------------------- invariants

  ghost predicate Mirrored(a: SumArray, saved: map<nat, int>) {
    Shaped(a) && a.backup == Row(saved, |a.row|) && forall k :: k in saved ==> k < |a.row|
  }

  lemma CheckKeepsMirror(cost: int -> nat, theta: int, a: SumArray, saved: map<nat, int>)
    requires Mirrored(a, saved)
    ensures Mirrored(Checked(cost, theta, a), CheckedSaved(cost, theta, a, saved))
  {
    var k := Victim(cost, a);
    RowOfSaved(saved, |a.row|, k, a.row[k]);
  }

  /** The kept total is the true distance to the backup copy, and at most theta. */
  ghost predicate Bounded(cost: int -> nat, theta: int, a: SumArray) {
    Shaped(a) && a.totDiff == Distance(cost, a.row, a.backup) <= theta
  }

  /** One update, then the check: the total is exact and back below theta, because the cell saved
      costs at least as much as the cell just changed. */
  lemma PassBounded(cost: int -> nat, theta: int, a: SumArray, i: nat, v: int)
    requires cost(0) == 0 && i < |a.row| && Bounded(cost, theta, a)
    ensures Bounded(cost, theta, Checked(cost, theta, SumUpdated(cost, a, i, v)))
    ensures Checked(cost, theta, SumUpdated(cost, a, i, v)).row == a.row[i := v]
  {
    DistanceUpdate(cost, a.row, a.backup, i, v);
    DistanceBoundsCell(cost, a.row, a.backup, i);
    CheckBounds(cost, theta, SumUpdated(cost, a, i, v), i);
  }

  /** The check brings the total below theta if all cells but one stay within it. */
  lemma CheckBounds(cost: int -> nat, theta: int, a: SumArray, i: nat)
    requires cost(0) == 0 && Shaped(a) && i < |a.row| && a.totDiff == Distance(cost, a.row, a.backup)
    requires Distance(cost, a.row, a.backup) - cost(a.row[i] - a.backup[i]) <= theta
    ensures Bounded(cost, theta, Checked(cost, theta, a)) && Checked(cost, theta, a).row == a.row
  {
    var k := Victim(cost, a);
    DistanceBackup(cost, a.row, a.backup, k);
    FirstMaxFound(cost, a.row, a.backup, |a.row|);
    assert cost(a.row[i] - a.backup[i]) <= cost(a.row[k] - a.backup[k]);
  }

  /** How far k crashes can move a row: k theta in absolute differences, k^2 theta in squares. */
  function CrashBound(norm: Norm, k: nat, theta: int): int {
    if norm.L1? then k * theta else k * k * theta
  }

  ghost predicate Inv(norm: Norm, theta: int, s: System) {
    && Mirrored(s.a, s.saved) && |s.ideal| == |s.a.row|
    && Bounded(Metric(norm), theta, s.a)
    && Distance(Metric(norm), s.ideal, s.a.row) <= CrashBound(norm, s.crashes, theta)
  }

  lemma AddMirrors(cost: int -> nat, theta: int, s: System, i: nat, d: int)
    requires Mirrored(s.a, s.saved) && Enabled(s, Add(i, d))
    ensures var s' := Apply(cost, theta, s, Add(i, d)); Mirrored(s'.a, s'.saved)
  {
    CheckKeepsMirror(cost, theta, SumUpdated(cost, s.a, i, s.a.row[i] + d), s.saved);
  }

  lemma AddBounds(cost: int -> nat, theta: int, s: System, i: nat, d: int)
    requires cost(0) == 0 && Bounded(cost, theta, s.a) && Enabled(s, Add(i, d))
    ensures Bounded(cost, theta, Apply(cost, theta, s, Add(i, d)).a)
  {
    PassBounded(cost, theta, s.a, i, s.a.row[i] + d);
  }

  lemma AddKeepsDistance(cost: int -> nat, theta: int, s: System, i: nat, d: int)
    requires Enabled(s, Add(i, d))
    ensures var s' := Apply(cost, theta, s, Add(i, d));
      && |s'.ideal| == |s'.a.row| && s'.crashes == s.crashes
      && Distance(cost, s'.ideal, s'.a.row) == Distance(cost, s.ideal, s.a.row)
  {
    CheckedRow(cost, theta, SumUpdated(cost, s.a, i, s.a.row[i] + d));
    DistanceShift(cost, s.ideal, s.a.row, i, d);
  }

  lemma CheckedRow(cost: int -> nat, theta: int, a: SumArray)
    requires Shaped(a)
    ensures Checked(cost, theta, a).row == a.row
  {
  }

  lemma AddKeepsInv(norm: Norm, theta: int, s: System, i: nat, d: int)
    requires theta >= 0 && Inv(norm, theta, s) && Enabled(s, Add(i, d))
    ensures Inv(norm, theta, Apply(Metric(norm), theta, s, Add(i, d)))
  {
    AddMirrors(Metric(norm), theta, s, i, d);
    AddBounds(Metric(norm), theta, s, i, d);
    AddKeepsDistance(Metric(norm), theta, s, i, d);
  }

  lemma CrashKeepsInv(norm: Norm, theta: int, s: System, reply: seq<BackupData>)
    requires theta >= 0 && Inv(norm, theta, s) && Enabled(s, Crash(reply))
    ensures Inv(norm, theta, Apply(Metric(norm), theta, s, Crash(reply)))
  {
    ReplyRebuildsRow(reply, s.saved, |s.a.row|);
    DistanceSelf(Metric(norm), s.a.backup);
    CrashAdds(norm, theta, s.crashes, s.ideal, s.a.row, s.a.backup);
  }

  lemma CrashAdds(norm: Norm, theta: int, k: nat, ideal: seq<int>, row: seq<int>, back: seq<int>)
    requires theta >= 0 && |ideal| == |row| == |back|
    requires Distance(Metric(norm), ideal, row) <= CrashBound(norm, k, theta)
    requires Distance(Metric(norm), row, back) <= theta
    ensures Distance(Metric(norm), ideal, back) <= CrashBound(norm, k + 1, theta)
  {
    if norm.L1? {
      TriangleL1(ideal, row, back);
      assert (k + 1) * theta == k * theta + theta;
    } else {
      SquaredCrashCost(theta, k, ideal, row, back);
    }
  }

  /** From k^2 theta before the crash and theta in the crash to (k+1)^2 theta after it. */
  lemma SquaredCrashCost(theta: int, k: nat, ideal: seq<int>, row: seq<int>, back: seq<int>)
    requires theta >= 0 && |ideal| == |row| == |back|
    requires Distance(Sqr, ideal, row) <= k * k * theta && Distance(Sqr, row, back) <= theta
    ensures Distance(Sqr, ideal, back) <= (k + 1) * (k + 1) * theta
  {
    if k == 0 {
      ZeroDistance(ideal, row);
    } else {
      TriangleL2(k, ideal, row, back);
      SquareArithmetic(k, theta, Distance(Sqr, ideal, row), Distance(Sqr, row, back), Distance(Sqr, ideal, back));
    }
  }

  lemma SquareArithmetic(k: nat, theta: int, x: nat, y: nat, d: nat)
    requires k > 0 && x <= k * k * theta && y <= theta
    requires k * d <= (k + 1) * x + k * (k + 1) * y
    ensures d <= (k + 1) * (k + 1) * theta
  {
    MulLe(k + 1, x, k * k * theta);
    MulLe(k * (k + 1), y, theta);
    Polynomial(k, theta);
    CancelFactor(k, d, (k + 1) * (k + 1) * theta);
  }

  lemma Polynomial(k: nat, theta: int)
    ensures (k + 1) * (k * k * theta) + k * (k + 1) * theta == k * ((k + 1) * (k + 1) * theta)
  {
  }

  lemma MulLe(k: nat, x: int, y: int)
    requires x <= y
    ensures k * x <= k * y
  {
  }

  lemma CancelFactor(k: nat, x: int, y: int)
    requires k > 0 && k * x <= k * y
    ensures x <= y
  {
    assert x >= y + 1 ==> k * x >= k * (y + 1);
  }

  lemma ZeroDistance(a: seq<int>, b: seq<int>)
    requires |a| == |b| && Distance(Sqr, a, b) == 0
    ensures a == b
  {
    forall i | 0 <= i < |a| ensures a[i] == b[i] {
      DistanceBoundsCell(Sqr, a, b, i);
      SquareZero(a[i] - b[i]);
    }
  }

  lemma SquareZero(x: int)
    ensures Sqr(x) == 0 ==> x == 0
  {
  }

  lemma {:induction false} RunKeepsInv(norm: Norm, theta: int, s: System, events: seq<Event>)
    requires theta >= 0 && Inv(norm, theta, s) && CanRun(Metric(norm), theta, s, events)
    ensures Inv(norm, theta, After(Metric(norm), theta, s, events))
    decreases |events|
  {
    if events != [] {
      if events[0].Crash? {
        CrashKeepsInv(norm, theta, s, events[0].reply);
      } else if events[0].Add? {
        AddKeepsInv(norm, theta, s, events[0].i, events[0].d);
      }
      RunKeepsInv(norm, theta, Apply(Metric(norm), theta, s, events[0]), events[1..]);
    }
  }

  // ---------------------------------------------------------------- main result

  /** With additions of either sign: the kept total is the true distance and at most theta at every
      pass boundary, so an idle pass never takes the backup branch; the row the server would rebuild is
      within theta of the live row; and after k crashes the live row is within k * theta (L1), or within
      k * k * theta in squares, that is k times the distance sqrt(theta) (L2), of the crash-free row. */
  lemma CrashCost(norm: Norm, theta: int, length: nat, events: seq<Event>)
    requires theta >= 0 && length > 0 && CanRun(Metric(norm), theta, Init(length), events)
    ensures var s := After(Metric(norm), theta, Init(length), events);
      && |s.ideal| == |s.a.row| == |s.a.backup|
      && s.a.totDiff == RowDistance(norm, s.a.row, s.a.backup) <= theta
      && RowDistance(norm, s.a.row, Row(s.saved, |s.ideal|)) <= theta
      && RowDistance(norm, s.ideal, s.a.row) <= (if norm.L1? then s.crashes * theta else s.crashes * s.crashes * theta)
      && Enabled(s, Idle) && Apply(Metric(norm), theta, s, Idle) == s
  {
    var s := Init(length);
    DistanceSelf(Metric(norm), s.a.row);
    RunKeepsInv(norm, theta, s, events);
    InvMeans(norm, theta, After(Metric(norm), theta, s, events));
  }

  lemma InvMeans(norm: Norm, theta: int, s: System)
    requires Inv(norm, theta, s)
    ensures |s.ideal| == |s.a.row| == |s.a.backup| && s.a.totDiff == RowDistance(norm, s.a.row, s.a.backup) <= theta
    ensures RowDistance(norm, s.a.row, Row(s.saved, |s.ideal|)) <= theta
    ensures RowDistance(norm, s.ideal, s.a.row) <= CrashBound(norm, s.crashes, theta)
  {
    DistanceIsRowDistance(norm, s.a.row, s.a.backup);
    DistanceIsRowDistance(norm, s.ideal, s.a.row);
  }

  /** What an addition of d to cell i does, when k is the first of the cells then furthest from their saved
      values: the server saves that cell if and only if the distance exceeds theta. */
  ghost predicate SavesIff(norm: Norm, theta: int, s: System, i: nat, d: int, k: nat, s': System)
    requires |s.a.row| == |s.a.backup| && i < |s.a.row|
  {
    var row := s.a.row[i := s.a.row[i] + d];
    && s'.a.row == row && k < |row|
    && s'.saved == if RowDistance(norm, row, s.a.backup) > theta then s.saved[k := row[k]] else s.saved
  }

  /** After any run. */
  lemma AdditionIsSavedIff(norm: Norm, theta: int, length: nat, events: seq<Event>, i: nat, d: int)
    returns (s: System, k: nat)
    requires theta >= 0 && CanRun(Metric(norm), theta, Init(length), events) && i < length
    ensures s == After(Metric(norm), theta, Init(length), events) && |s.a.row| == length
    ensures |s.a.row| == |s.a.backup| && s.a.backup == Row(s.saved, |s.a.row|) && Enabled(s, Add(i, d))
    ensures FirstMax(Metric(norm), s.a.row[i := s.a.row[i] + d], s.a.backup, |s.a.row|, k)
    ensures SavesIff(norm, theta, s, i, d, k, Apply(Metric(norm), theta, s, Add(i, d)))
  {
    s := Reached(norm, theta, length, events);
    k := AdditionSaves(norm, theta, s, i, d);
  }

  lemma Reached(norm: Norm, theta: int, length: nat, events: seq<Event>) returns (s: System)
    requires theta >= 0 && length > 0 && CanRun(Metric(norm), theta, Init(length), events)
    ensures s == After(Metric(norm), theta, Init(length), events) && Inv(norm, theta, s) && |s.a.row| == length
  {
    s := After(Metric(norm), theta, Init(length), events);
    DistanceSelf(Metric(norm), Init(length).a.row);
    RunKeepsInv(norm, theta, Init(length), events);
    RunKeepsLength(Metric(norm), theta, Init(length), events);
  }

  lemma {:induction false} RunKeepsLength(cost: int -> nat, theta: int, s: System, events: seq<Event>)
    requires CanRun(cost, theta, s, events)
    ensures |After(cost, theta, s, events).ideal| == |s.ideal|
    decreases |events|
  {
    if events != [] {
      RunKeepsLength(cost, theta, Apply(cost, theta, s, events[0]), events[1..]);
    }
  }

  lemma AdditionSaves(norm: Norm, theta: int, s: System, i: nat, d: int) returns (k: nat)
    requires Inv(norm, theta, s) && i < |s.a.row|
    ensures Enabled(s, Add(i, d))
    ensures FirstMax(Metric(norm), s.a.row[i := s.a.row[i] + d], s.a.backup, |s.a.row|, k)
    ensures SavesIff(norm, theta, s, i, d, k, Apply(Metric(norm), theta, s, Add(i, d)))
  {
    var up := SumUpdated(Metric(norm), s.a, i, s.a.row[i] + d);
    TotalIsDistance(norm, theta, s.a, i, s.a.row[i] + d, up);
    AddIsCheck(Metric(norm), theta, s, i, d, up);
    k := Victim(Metric(norm), up);
    FirstMaxFound(Metric(norm), up.row, s.a.backup, |up.row|);
    SavesVictim(norm, theta, s, i, d, up, k, Apply(Metric(norm), theta, s, Add(i, d)));
  }

  lemma SavesVictim(norm: Norm, theta: int, s: System, i: nat, d: int, up: SumArray, k: nat, s': System)
    requires |s.a.row| == |s.a.backup| && i < |s.a.row| && up.row == s.a.row[i := s.a.row[i] + d] && k < |up.row|
    requires up.totDiff == RowDistance(norm, up.row, s.a.backup)
    requires s'.a.row == up.row && s'.saved == if up.totDiff > theta then s.saved[k := up.row[k]] else s.saved
    ensures SavesIff(norm, theta, s, i, d, k, s')
  {
  }

  lemma AddIsCheck(cost: int -> nat, theta: int, s: System, i: nat, d: int, up: SumArray)
    requires Enabled(s, Add(i, d)) && up == SumUpdated(cost, s.a, i, s.a.row[i] + d)
    ensures var s', k := Apply(cost, theta, s, Add(i, d)), Victim(cost, up);
      s'.a.row == up.row && s'.saved == if up.totDiff > theta then s.saved[k := up.row[k]] else s.saved
  {
    CheckedRow(cost, theta, up);
  }

  lemma TotalIsDistance(norm: Norm, theta: int, a: SumArray, i: nat, v: int, up: SumArray)
    requires Bounded(Metric(norm), theta, a) && i < |a.row|
    requires up == SumUpdated(Metric(norm), a, i, v)
    ensures up.totDiff == RowDistance(norm, up.row, a.backup)
  {
    DistanceUpdate(Metric(norm), a.row, a.backup, i, v);
    DistanceIsRowDistance(norm, up.row, a.backup);
  }
}
