/** One operator of either kind with the cells the server has saved for it: what modules
    MaxApproximation and NormApproximation prove, under one roof. */
module Operators {
  import opened NumericArrays
  import opened Optional
  import opened SavedCells
  import M = MaxApproximation
  import N = NormApproximation

  predicate Shaped(o: Operator) {
    match o
    case Max(a) => M.Shaped(a)
    case Sum(_, a) => N.Shaped(a)
  }

  /** CalculateDivergence */
  function Divergence(o: Operator): int {
    if o.Max? then o.max.maxDiff else o.sum.totDiff
  }

  /** What SerializeState returns. */
  function Data(o: Operator): BackupData
    requires Shaped(o)
  {
    match o
    case Max(a) => MaxSaved(a)
    case Sum(norm, a) => BackupData(N.Victim(Metric(norm), a), a.row[N.Victim(Metric(norm), a)])
  }

  /** What it leaves behind. */
  function Serialized(o: Operator): Operator
    requires Shaped(o)
  {
    match o
    case Max(a) => Max(MaxSerialized(a))
    case Sum(norm, a) => Sum(norm, SumSerialized(Metric(norm), a, N.Victim(Metric(norm), a)))
  }

  /** The result of a check: the operator, and what is to be saved, if anything. */
  datatype Outcome = Outcome(o: Operator, data: Option<BackupData>)

  function Check(theta: int, o: Operator): Outcome
    requires Shaped(o)
  {
    if Divergence(o) > theta then Outcome(Serialized(o), Some(Data(o))) else Outcome(o, None)
  }

  /** The server's cells after that. */
  function Noted(saved: map<nat, int>, data: Option<BackupData>): map<nat, int> {
    if data.Some? then saved[data.value.key := data.value.value] else saved
  }

  function Updated(o: Operator, i: nat, v: int): Operator
    requires Shaped(o) && i < |RowOf(o)|
  {
    match o
    case Max(a) => Max(MaxUpdated(a, i, v))
    case Sum(norm, a) => Sum(norm, SumUpdated(Metric(norm), a, i, v))
  }

  /** An operator, its saved cells, its row in the run without crashes, and the number of crashes. */
  datatype Single = Single(o: Operator, saved: map<nat, int>, ideal: seq<int>, crashes: nat)

  ghost predicate Inv(theta: int, s: Single) {
    match s.o
    case Max(a) => M.Inv(theta, s.crashes * theta, M.System(a, s.saved, s.ideal, s.crashes))
    case Sum(norm, a) => N.Inv(norm, theta, N.System(a, s.saved, s.ideal, s.crashes))
  }

  /** Additions to a MAX array are non-negative; those to the others are of either sign. */
  predicate CanAdd(o: Operator, i: nat, d: int) {
    Shaped(o) && i < |RowOf(o)| && (o.Max? ==> d >= 0)
  }

  /** The operator's system after a check with this outcome, when the run without crashes is at this row. */
  function Stepped(s: Single, c: Outcome, row: seq<int>): Single {
    Single(c.o, Noted(s.saved, c.data), row, s.crashes)
  }

  /** A pass that adds d to cell i. */
  function Added(theta: int, s: Single, i: nat, d: int): Single
    requires CanAdd(s.o, i, d) && |s.ideal| == |RowOf(s.o)|
  {
    Stepped(s, Check(theta, Updated(s.o, i, RowOf(s.o)[i] + d)), s.ideal[i := s.ideal[i] + d])
  }

  lemma AddedSteps(theta: int, s: Single, i: nat, d: int, c: Outcome, row: seq<int>)
    requires CanAdd(s.o, i, d) && |s.ideal| == |RowOf(s.o)| && row == s.ideal[i := s.ideal[i] + d]
    requires c == Check(theta, Updated(s.o, i, RowOf(s.o)[i] + d))
    ensures Added(theta, s, i, d) == Stepped(s, c, row)
  {
  }

  function Crashed(s: Single, reply: seq<BackupData>): Single
    requires KeysBelow(reply, |RowOf(s.o)|)
  {
    s.(o := RecoverAll(Fresh(s.o), reply), crashes := s.crashes + 1)
  }

  lemma InvShapes(theta: int, s: Single)
    requires Inv(theta, s)
    ensures Shaped(s.o) && |s.ideal| == |RowOf(s.o)| == |BackupOf(s.o)| && Divergence(s.o) <= theta
    ensures forall k :: k in s.saved ==> k < |s.ideal|
  {
  }

  lemma AddKeepsInv(theta: int, s: Single, i: nat, d: int)
    requires theta >= 0 && Inv(theta, s) && CanAdd(s.o, i, d) && |s.ideal| == |RowOf(s.o)|
    ensures Inv(theta, Added(theta, s, i, d))
  {
    match s.o
    case Max(a) => MaxAddKeepsInv(theta, s, i, d);
    case Sum(norm, a) => SumAddKeepsInv(theta, s, i, d);
  }

  lemma MaxAddKeepsInv(theta: int, s: Single, i: nat, d: nat)
    requires theta >= 0 && s.o.Max? && Inv(theta, s) && CanAdd(s.o, i, d) && |s.ideal| == |RowOf(s.o)|
    ensures Inv(theta, Added(theta, s, i, d))
  {
    var m := M.System(s.o.max, s.saved, s.ideal, s.crashes);
    M.AddKeepsInv(theta, s.crashes * theta, m, i, d);
    var s', m' := Added(theta, s, i, d), M.Apply(theta, m, M.Add(i, d));
    assert m' == M.System(s'.o.max, s'.saved, s'.ideal, s'.crashes);
  }

  lemma SumAddKeepsInv(theta: int, s: Single, i: nat, d: int)
    requires theta >= 0 && s.o.Sum? && Inv(theta, s) && CanAdd(s.o, i, d) && |s.ideal| == |RowOf(s.o)|
    ensures Inv(theta, Added(theta, s, i, d))
  {
    var n, up := N.System(s.o.sum, s.saved, s.ideal, s.crashes), Updated(s.o, i, RowOf(s.o)[i] + d);
    var c, row := Check(theta, up), s.ideal[i := s.ideal[i] + d];
    AddedSteps(theta, s, i, d, c, row);
    SumAddApplies(theta, s.o.norm, n, i, d, up.sum, c);
    N.AddKeepsInv(s.o.norm, theta, n, i, d);
  }

  lemma SumAddApplies(theta: int, norm: Norm, n: N.System, i: nat, d: int, up: SumArray, c: Outcome)
    requires N.Enabled(n, N.Add(i, d)) && up == SumUpdated(Metric(norm), n.a, i, n.a.row[i] + d)
    requires N.Shaped(up) && c == Check(theta, Sum(norm, up))
    ensures c.o.Sum? && c.o.norm == norm
    ensures N.Apply(Metric(norm), theta, n, N.Add(i, d))
         == N.System(c.o.sum, Noted(n.saved, c.data), n.ideal[i := n.ideal[i] + d], n.crashes)
  {
    SumChecked(theta, norm, up, n.saved);
  }

  lemma SumChecked(theta: int, norm: Norm, a: SumArray, saved: map<nat, int>)
    requires N.Shaped(a)
    ensures Check(theta, Sum(norm, a)).o == Sum(norm, N.Checked(Metric(norm), theta, a))
    ensures Noted(saved, Check(theta, Sum(norm, a)).data) == N.CheckedSaved(Metric(norm), theta, a, saved)
  {
  }

  lemma CrashKeepsInv(theta: int, s: Single, reply: seq<BackupData>)
    requires theta >= 0 && Inv(theta, s) && Lists(reply, s.saved) && KeysBelow(reply, |RowOf(s.o)|)
    ensures Inv(theta, Crashed(s, reply))
  {
    InvShapes(theta, s);
    if s.o.Max? {
      MaxCrashKeepsInv(theta, s, reply, s.crashes * theta);
    } else {
      SumCrashKeepsInv(theta, s, reply);
    }
  }

  lemma MaxCrashKeepsInv(theta: int, s: Single, reply: seq<BackupData>, loss: int)
    requires theta >= 0 && s.o.Max? && loss == s.crashes * theta && Lists(reply, s.saved)
    requires M.Inv(theta, loss, M.System(s.o.max, s.saved, s.ideal, s.crashes)) && KeysBelow(reply, |s.o.max.row|)
    ensures Inv(theta, Crashed(s, reply))
  {
    M.CrashKeepsInv(theta, loss, M.System(s.o.max, s.saved, s.ideal, s.crashes), reply);
    assert (s.crashes + 1) * theta == loss + theta;
  }

  lemma SumCrashKeepsInv(theta: int, s: Single, reply: seq<BackupData>)
    requires theta >= 0 && s.o.Sum? && Inv(theta, s) && Lists(reply, s.saved)
    requires KeysBelow(reply, |s.o.sum.row|) && N.Shaped(s.o.sum) && |s.ideal| == |s.o.sum.row|
    ensures Inv(theta, Crashed(s, reply))
  {
    N.CrashKeepsInv(s.o.norm, theta, N.System(s.o.sum, s.saved, s.ideal, s.crashes), reply);
  }

  lemma FreshInv(theta: int, o: Operator)
    requires theta >= 0 && |RowOf(o)| > 0
    ensures Inv(theta, Single(Fresh(o), map[], seq(|RowOf(o)|, _ => 0), 0))
  {
    if o.Sum? {
      N.DistanceSelf(Metric(o.norm), seq(|RowOf(o)|, _ => 0));
    }
  }

  // ---------------------------------------------------------------- what the invariant means

  /** Every cell of row is at most that of ref, and below it by at most gap. */
  ghost predicate Within(row: seq<int>, ref: seq<int>, gap: int) {
    |row| == |ref| && forall i :: 0 <= i < |row| ==> 0 <= ref[i] - row[i] <= gap
  }

  /** How far k crashes have moved the live row from the crash-free one: k theta in every cell (MAX) or in
      the sum of differences (L1), k squared theta in the sum of squares (L2). */
  ghost predicate Close(theta: int, o: Operator, ideal: seq<int>, k: nat) {
    |ideal| == |RowOf(o)| &&
    match o
    case Max(a) => Within(a.row, ideal, k * theta)
    case Sum(norm, a) => RowDistance(norm, ideal, a.row) <= if norm.L1? then k * theta else k * k * theta
  }

  /** A rebuilt operator is within theta of the live one, in its own measure. */
  ghost predicate Rebuilds(theta: int, rebuilt: Operator, live: Operator) {
    |RowOf(rebuilt)| == |RowOf(live)| &&
    match live
    case Max(a) => Within(RowOf(rebuilt), a.row, theta)
    case Sum(norm, a) => RowDistance(norm, a.row, RowOf(rebuilt)) <= theta
  }

  lemma InvMeans(theta: int, s: Single, reply: seq<BackupData>)
    requires Inv(theta, s) && Lists(reply, s.saved) && KeysBelow(reply, |RowOf(s.o)|)
    ensures Close(theta, s.o, s.ideal, s.crashes)
    ensures Rebuilds(theta, Crashed(s, reply).o, s.o)
  {
    RecoveredFresh(s.o, reply, s.saved);
    if s.o.Sum? {
      N.InvMeans(s.o.norm, theta, N.System(s.o.sum, s.saved, s.ideal, s.crashes));
    }
  }

  // ---------------------------------------------------------------- the invariant without its contents

  /** Shapes agree, nothing is to be saved, and only existing cells have been. */
  ghost predicate Settled(theta: int, s: Single) {
    && Shaped(s.o) && |s.ideal| == |RowOf(s.o)| == |BackupOf(s.o)| && Divergence(s.o) <= theta
    && forall k :: k in s.saved ==> k < |s.ideal|
  }

  /** A reply that lists what is saved. */
  predicate Answers(s: Single, reply: seq<BackupData>) {
    Lists(reply, s.saved) && KeysBelow(reply, |RowOf(s.o)|)
  }

  /** What the users of an invariant P need to know of it: it settles, it survives additions and crashes,
      and it means what is to be proved. */
  ghost predicate Inductive(theta: int, P: Single -> bool) {
    && (forall s :: P(s) ==> Settled(theta, s))
    && (forall s, i: nat, d :: P(s) && CanAdd(s.o, i, d) && |s.ideal| == |RowOf(s.o)| ==> P(Added(theta, s, i, d)))
    && (forall s, reply :: P(s) && Answers(s, reply) ==>
          P(Crashed(s, reply)) && Close(theta, s.o, s.ideal, s.crashes) && Rebuilds(theta, Crashed(s, reply).o, s.o))
    && (forall o :: |RowOf(o)| > 0 ==> P(Start(o)))
  }

  lemma Settles(theta: int, P: Single -> bool, s: Single)
    requires Inductive(theta, P) && P(s)
    ensures Settled(theta, s)
  {
  }

  lemma SurvivesAdd(theta: int, P: Single -> bool, s: Single, i: nat, d: int)
    requires Inductive(theta, P) && P(s) && CanAdd(s.o, i, d) && |s.ideal| == |RowOf(s.o)|
    ensures P(Added(theta, s, i, d))
  {
  }

  lemma SurvivesCrash(theta: int, P: Single -> bool, s: Single, reply: seq<BackupData>)
    requires Inductive(theta, P) && P(s) && Answers(s, reply)
    ensures P(Crashed(s, reply))
    ensures Close(theta, s.o, s.ideal, s.crashes) && Rebuilds(theta, Crashed(s, reply).o, s.o)
  {
  }

  function Start(o: Operator): Single {
    Single(Fresh(o), map[], seq(|RowOf(o)|, _ => 0), 0)
  }

  lemma InvIsInductive(theta: int)
    requires theta >= 0
    ensures Inductive(theta, s => Inv(theta, s))
  {
    forall s | Inv(theta, s) ensures Settled(theta, s) {
      InvShapes(theta, s);
    }
    forall s, i: nat, d | Inv(theta, s) && CanAdd(s.o, i, d) && |s.ideal| == |RowOf(s.o)|
      ensures Inv(theta, Added(theta, s, i, d))
    {
      AddKeepsInv(theta, s, i, d);
    }
    forall s, reply | Inv(theta, s) && Answers(s, reply)
      ensures Inv(theta, Crashed(s, reply))
      ensures Close(theta, s.o, s.ideal, s.crashes) && Rebuilds(theta, Crashed(s, reply).o, s.o)
    {
      CrashKeepsInv(theta, s, reply);
      InvMeans(theta, s, reply);
    }
    forall o | |RowOf(o)| > 0 ensures Inv(theta, Start(o)) {
      FreshInv(theta, o);
    }
  }
}
