/** A whole worker against the real server: all its operators of any kind, the saves they cause, saves of
    other workers in between, and crashes after which every operator is rebuilt from one reply. */
module WorkerRecovery {
  import opened NumericArrays
  import opened Optional
  import opened SavedCells
  import opened BackupServer
  import S = Operators

  /** An operator of the worker: the index of its compute thread and its index there. */
  datatype OpId = OpId(thread: u16, op: u16)

  datatype World = World(
    worker: u32,
    ops: map<OpId, Operator>,
    ideal: map<OpId, seq<int>>,   // the rows of the run without crashes
    history: seq<Item>,           // everything the server was asked to save
    crashes: nat)

  datatype Event =
    | Idle(id: OpId)                  // the check of an operator not updated in this pass
    | Add(id: OpId, i: nat, d: int)   // an addition to one cell and the check of that operator
    | Foreign(item: Item)             // a save of some other worker
    | Crash                           // a crash whose recovery goes through

  function Key(worker: u32, id: OpId): nat {
    MakeOpKey(Narrow(worker), id.thread, id.op)
  }

  predicate Shaped(w: World) {
    && w.ideal.Keys == w.ops.Keys
    && forall id :: id in w.ops ==> S.Shaped(w.ops[id]) && |w.ideal[id]| == |RowOf(w.ops[id])|
  }

  predicate CanAdd(w: World, id: OpId, i: nat, d: int) {
    Shaped(w) && id in w.ops && S.CanAdd(w.ops[id], i, d)
  }

  /** Every item of the reply belongs to an existing cell. */
  ghost predicate RepliesFit(w: World) {
    Shaped(w) && forall id :: id in w.ops ==> KeysBelow(Mine(w, id), |RowOf(w.ops[id])|)
  }

  /** And none carries an id the recovering worker's tracker refuses. */
  ghost predicate CanCrash(w: World) {
    RepliesFit(w) && !Refused(Reply(w.history, w.worker), w.worker)
  }

  ghost predicate Enabled(w: World, e: Event) {
    match e
    case Idle(id) => Shaped(w) && id in w.ops
    case Add(id, i, d) => CanAdd(w, id, i, d)
    case Foreign(item) => Narrow(item.worker) != Narrow(w.worker)
    case Crash => CanCrash(w)
  }

  /** The part of the server's reply that concerns one operator. */
  ghost function Mine(w: World, id: OpId): seq<BackupData> {
    Select(Reply(w.history, w.worker), Key(w.worker, id))
  }

  /** The request a check sends, if any. */
  function Requests(worker: u32, id: OpId, data: Option<BackupData>): seq<Item> {
    if data.Some? then [Item(worker, id.thread, id.op, data.value.key, data.value.value)] else []
  }

  /** A check of operator id with this outcome, while the run without crashes gets to this row. */
  function Stepped(w: World, id: OpId, c: S.Outcome, row: seq<int>): World {
    w.(ops := w.ops[id := c.o], history := w.history + Requests(w.worker, id, c.data), ideal := w.ideal[id := row])
  }

  ghost function Crashed(w: World): World
    requires RepliesFit(w)
  {
    w.(ops := map id | id in w.ops :: RecoverAll(Fresh(w.ops[id]), Mine(w, id)), crashes := w.crashes + 1)
  }

  ghost function Apply(theta: int, w: World, e: Event): World
    requires Enabled(w, e)
  {
    match e
    case Idle(id) => Stepped(w, id, S.Check(theta, w.ops[id]), w.ideal[id])
    case Add(id, i, d) =>
      var o := S.Updated(w.ops[id], i, RowOf(w.ops[id])[i] + d);
      Stepped(w, id, S.Check(theta, o), w.ideal[id][i := w.ideal[id][i] + d])
    case Foreign(item) => w.(history := w.history + [item])
    case Crash => Crashed(w)
  }

  ghost predicate CanRun(theta: int, w: World, events: seq<Event>)
    decreases |events|
  {
    events == [] || (Enabled(w, events[0]) && CanRun(theta, Apply(theta, w, events[0]), events[1..]))
  }

  ghost function After(theta: int, w: World, events: seq<Event>): World
    requires CanRun(theta, w, events)
    decreases |events|
  {
    if events == [] then w else After(theta, Apply(theta, w, events[0]), events[1..])
  }

  // ---------------------------------------------------------------- invariant

  /** Operator id of the world by itself. */
  ghost function Project(w: World, id: OpId): S.Single
    requires id in w.ops && id in w.ideal
  {
    S.Single(w.ops[id], CellsOf(w.history, Key(w.worker, id)), w.ideal[id], w.crashes)
  }

  /** Items at the worker's addresses are its own. */
  ghost predicate OwnItems(w: World) {
    forall x :: x in w.history && Narrow(x.worker) == Narrow(w.worker) ==> x.worker == w.worker
  }

  /** Every operator by itself satisfies P, and the history holds no foreign items at the worker's addresses. */
  ghost predicate Holds(P: S.Single -> bool, w: World) {
    && w.ideal.Keys == w.ops.Keys
    && (forall id :: id in w.ops ==> P(Project(w, id)))
    && OwnItems(w)
  }

  /** A check of one operator is a step of its own system and invisible to all others. */
  lemma StepProjects(w: World, id: OpId, c: S.Outcome, row: seq<int>, other: OpId)
    requires id in w.ops && other in w.ops && w.ideal.Keys == w.ops.Keys
    ensures var w' := Stepped(w, id, c, row);
      Project(w', other) == if other == id then S.Stepped(Project(w, id), c, row) else Project(w, other)
  {
    if c.data.Some? {
      var item := Requests(w.worker, id, c.data)[0];
      SaveChangesOneCell(w.history, item, Key(w.worker, other));
      OpKeyInjective(Narrow(w.worker), id.thread, id.op, Narrow(w.worker), other.thread, other.op);
    } else {
      assert w.history + [] == w.history;
    }
  }

  /** So a step that keeps a property of its own operator keeps that of all. */
  lemma StepKeepsAll(P: S.Single -> bool, w: World, id: OpId, c: S.Outcome, row: seq<int>)
    requires Holds(P, w) && id in w.ops && P(S.Stepped(Project(w, id), c, row))
    ensures Holds(P, Stepped(w, id, c, row))
  {
    var w' := Stepped(w, id, c, row);
    forall x | x in w'.ops ensures P(Project(w', x)) {
      StepProjects(w, id, c, row, x);
      assert x != id ==> P(Project(w, x));
    }
  }

  lemma AddIsStep(theta: int, w: World, id: OpId, i: nat, d: int, s: S.Single, w': World)
    requires CanAdd(w, id, i, d) && s.o == w.ops[id] && s.ideal == w.ideal[id] && w' == Apply(theta, w, Add(id, i, d))
    ensures w' == Stepped(w, id, S.Check(theta, S.Updated(s.o, i, RowOf(s.o)[i] + d)), s.ideal[i := s.ideal[i] + d])
  {
  }

  lemma AddKeeps(theta: int, P: S.Single -> bool, w: World, id: OpId, i: nat, d: int, s: S.Single, w': World)
    requires Holds(P, w) && id in w.ops && s == Project(w, id) && S.CanAdd(s.o, i, d) && |s.ideal| == |RowOf(s.o)|
    requires P(S.Added(theta, s, i, d))
    requires w' == Stepped(w, id, S.Check(theta, S.Updated(s.o, i, RowOf(s.o)[i] + d)), s.ideal[i := s.ideal[i] + d])
    ensures Holds(P, w')
  {
    var c, row := S.Check(theta, S.Updated(s.o, i, RowOf(s.o)[i] + d)), s.ideal[i := s.ideal[i] + d];
    S.AddedSteps(theta, s, i, d, c, row);
    StepKeepsAll(P, w, id, c, row);
  }

  lemma CrashKeeps(P: S.Single -> bool, w: World)
    requires Holds(P, w) && RepliesFit(w) && forall id :: id in w.ops ==> P(S.Crashed(Project(w, id), Mine(w, id)))
    ensures Holds(P, Crashed(w))
  {
    var w' := Crashed(w);
    assert w'.ops.Keys == w.ops.Keys && OwnItems(w');
    forall id | id in w'.ops ensures P(Project(w', id)) {
      assert Project(w', id) == S.Crashed(Project(w, id), Mine(w, id));
    }
  }

  lemma ForeignKeeps(theta: int, P: S.Single -> bool, w: World, item: Item)
    requires Holds(P, w) && Enabled(w, Foreign(item))
    ensures Holds(P, Apply(theta, w, Foreign(item)))
  {
    var w' := Apply(theta, w, Foreign(item));
    forall id | id in w'.ops ensures Project(w', id) == Project(w, id) {
      SaveChangesOneCell(w.history, item, Key(w.worker, id));
      OpKeyInjective(Narrow(item.worker), item.thread, item.op, Narrow(w.worker), id.thread, id.op);
    }
  }

  /** A check of an operator that was not updated changes nothing. */
  lemma IdleIsQuiet(theta: int, w: World, id: OpId)
    requires Enabled(w, Idle(id)) && S.Divergence(w.ops[id]) <= theta
    ensures Apply(theta, w, Idle(id)) == w
  {
    assert w.ops[id := w.ops[id]] == w.ops && w.ideal[id := w.ideal[id]] == w.ideal && w.history + [] == w.history;
  }

  lemma StepKeeps(theta: int, P: S.Single -> bool, w: World, e: Event)
    requires S.Inductive(theta, P) && Holds(P, w) && Enabled(w, e)
    ensures Holds(P, Apply(theta, w, e))
  {
    match e
    case Idle(id) =>
      S.Settles(theta, P, Project(w, id));
      IdleIsQuiet(theta, w, id);
    case Add(id, i, d) =>
      var s := Project(w, id);
      S.SurvivesAdd(theta, P, s, i, d);
      AddIsStep(theta, w, id, i, d, s, Apply(theta, w, e));
      AddKeeps(theta, P, w, id, i, d, s, Apply(theta, w, e));
    case Foreign(item) => ForeignKeeps(theta, P, w, item);
    case Crash => RecoveryKeeps(theta, P, w);
  }

  lemma RecoveryKeeps(theta: int, P: S.Single -> bool, w: World)
    requires S.Inductive(theta, P) && Holds(P, w) && RepliesFit(w)
    ensures Holds(P, Crashed(w))
  {
    forall id | id in w.ops ensures P(S.Crashed(Project(w, id), Mine(w, id))) {
      ReplyListsCells(w.history, w.worker, id.thread, id.op);
      S.SurvivesCrash(theta, P, Project(w, id), Mine(w, id));
    }
    CrashKeeps(P, w);
  }

  // ---------------------------------------------------------------- when a recovery goes through

  /** Only existing cells are ever saved, so a reply always fits. */
  lemma RepliesAlwaysFit(theta: int, P: S.Single -> bool, w: World)
    requires S.Inductive(theta, P) && Holds(P, w)
    ensures RepliesFit(w)
  {
    forall id | id in w.ops
      ensures S.Shaped(w.ops[id]) && |w.ideal[id]| == |RowOf(w.ops[id])| && KeysBelow(Mine(w, id), |RowOf(w.ops[id])|)
    {
      S.Settles(theta, P, Project(w, id));
      ReplyListsCells(w.history, w.worker, id.thread, id.op);
    }
  }

  /** The worker has saved something. */
  ghost predicate HasSaved(w: World) {
    exists x :: x in w.history && x.worker == w.worker
  }

  /** A recovery goes through if and only if the worker's id is below 65536 or it has saved nothing yet. */
  lemma CrashIsPossibleIff(w: World)
    requires OwnItems(w) && RepliesFit(w)
    ensures CanCrash(w) <==> w.worker < 0x10000 || !HasSaved(w)
  {
    RecoveryGoesThroughIff(w.history, w.worker);
    if HasSaved(w) {
      var x :| x in w.history && x.worker == w.worker;
      OwnLastCarries(w, x);
    } else {
      NothingToCarry(w);
    }
  }

  lemma NothingToCarry(w: World)
    requires OwnItems(w) && !HasSaved(w)
    ensures LastCarry(Last(w.history), Narrow(w.worker))
  {
    var last := Last(w.history);
    forall a | a in last ensures Narrow(last[a].worker) != Narrow(w.worker) {
      LastIsSaved(w.history, a);
    }
  }

  /** Something of the worker's own is among the last items, and all of those carry its full id. */
  lemma OwnLastCarries(w: World, x: Item)
    requires OwnItems(w) && x in w.history && x.worker == w.worker
    ensures LastCarry(Last(w.history), Narrow(w.worker)) <==> w.worker < 0x10000
  {
    var last := Last(w.history);
    forall a | a in last && Narrow(last[a].worker) == Narrow(w.worker) ensures last[a].worker == w.worker {
      LastIsSaved(w.history, a);
    }
    LastReplaces(w.history, x);
    SameWorker(x, last[AddrOf(x)]);
    CarryIff(last, w.worker, AddrOf(x));
  }

  lemma CarryIff(last: map<Addr, Item>, worker: u32, a: Addr)
    requires forall b :: b in last && Narrow(last[b].worker) == Narrow(worker) ==> last[b].worker == worker
    requires a in last && Narrow(last[a].worker) == Narrow(worker)
    ensures LastCarry(last, Narrow(worker)) <==> worker < 0x10000
  {
  }

  /** At the address of a saved item there is a last item. */
  lemma {:induction false} LastReplaces(history: seq<Item>, x: Item)
    requires x in history
    ensures AddrOf(x) in Last(history) && AddrOf(Last(history)[AddrOf(x)]) == AddrOf(x)
  {
    var n := |history| - 1;
    if x != history[n] {
      LastReplaces(history[..n], x);
    }
  }

  lemma SameWorker(x: Item, y: Item)
    requires AddrOf(x) == AddrOf(y)
    ensures Narrow(x.worker) == Narrow(y.worker)
  {
    OpKeyInjective(Narrow(x.worker), x.thread, x.op, Narrow(y.worker), y.thread, y.op);
  }

  // ---------------------------------------------------------------- main result

  /** A worker whose operators have these kinds and lengths, at its start. */
  function Start(worker: u32, kinds: map<OpId, Operator>): World {
    World(worker, map id | id in kinds :: Fresh(kinds[id]),
          map id | id in kinds :: seq(|RowOf(kinds[id])|, _ => 0), [], 0)
  }

  /** Operator id is as close to the run without the k crashes so far as its kind allows; a recovery goes
      through exactly if the worker's id is below 65536 or it has saved nothing, and then rebuilds the
      operator within theta of the live one. */
  ghost predicate Bounded(theta: int, w: World, id: OpId) {
    && id in w.ops && id in w.ideal && RepliesFit(w)
    && S.Close(theta, w.ops[id], w.ideal[id], w.crashes)
    && (CanCrash(w) <==> w.worker < 0x10000 || !HasSaved(w))
    && S.Rebuilds(theta, Crashed(w).ops[id], w.ops[id])
  }

  /** With theta >= 0 and at most one addition per operator and pass, this holds at every pass boundary of
      every run, for every operator of the worker, MAX, L1 or L2. */
  lemma WorkerCrashCost(theta: int, worker: u32, kinds: map<OpId, Operator>, events: seq<Event>, w: World, id: OpId)
    requires theta >= 0 && (forall x :: x in kinds ==> |RowOf(kinds[x])| > 0) && id in kinds
    requires CanRun(theta, Start(worker, kinds), events) && w == After(theta, Start(worker, kinds), events)
    ensures w.worker == worker && w.crashes == Crashes(events) && Bounded(theta, w, id)
  {
    S.InvIsInductive(theta);
    RunIsBounded(theta, s => S.Inv(theta, s), worker, kinds, events, w, id);
  }

  lemma RunIsBounded(theta: int, P: S.Single -> bool, worker: u32, kinds: map<OpId, Operator>, events: seq<Event>,
                     w: World, id: OpId)
    requires S.Inductive(theta, P) && (forall x :: x in kinds ==> |RowOf(kinds[x])| > 0) && id in kinds
    requires CanRun(theta, Start(worker, kinds), events) && w == After(theta, Start(worker, kinds), events)
    ensures w.worker == worker && w.crashes == Crashes(events) && Bounded(theta, w, id)
  {
    StartHolds(theta, P, worker, kinds);
    RunKeeps(theta, P, Start(worker, kinds), events);
    HoldsGives(theta, P, w, id);
  }

  lemma {:induction false} RunKeeps(theta: int, P: S.Single -> bool, w: World, events: seq<Event>)
    requires S.Inductive(theta, P) && Holds(P, w) && CanRun(theta, w, events)
    ensures var w' := After(theta, w, events);
      && Holds(P, w') && w'.ops.Keys == w.ops.Keys && w'.worker == w.worker
      && w'.crashes == w.crashes + Crashes(events)
    decreases |events|
  {
    if events != [] {
      StepKeeps(theta, P, w, events[0]);
      StepConstants(theta, w, events[0]);
      RunKeeps(theta, P, Apply(theta, w, events[0]), events[1..]);
    }
  }

  lemma StepConstants(theta: int, w: World, e: Event)
    requires Enabled(w, e)
    ensures var w' := Apply(theta, w, e);
      w'.ops.Keys == w.ops.Keys && w'.worker == w.worker && w'.crashes == w.crashes + if e.Crash? then 1 else 0
  {
  }

  lemma HoldsGives(theta: int, P: S.Single -> bool, w: World, id: OpId)
    requires S.Inductive(theta, P) && Holds(P, w) && id in w.ops
    ensures Bounded(theta, w, id)
  {
    RepliesAlwaysFit(theta, P, w);
    CrashIsPossibleIff(w);
    ReplyListsCells(w.history, w.worker, id.thread, id.op);
    S.SurvivesCrash(theta, P, Project(w, id), Mine(w, id));
  }

  lemma StartHolds(theta: int, P: S.Single -> bool, worker: u32, kinds: map<OpId, Operator>)
    requires S.Inductive(theta, P) && forall x :: x in kinds ==> |RowOf(kinds[x])| > 0
    ensures Holds(P, Start(worker, kinds)) && Start(worker, kinds).ops.Keys == kinds.Keys
  {
    var w := Start(worker, kinds);
    forall id | id in w.ops ensures P(Project(w, id)) {
      assert P(S.Start(kinds[id]));
      assert Project(w, id) == S.Start(kinds[id]);
    }
  }

  function Crashes(events: seq<Event>): nat {
    if events == [] then 0 else (if events[0].Crash? then 1 else 0) + Crashes(events[1..])
  }

  // ---------------------------------------------------------------- the check loop of one pass

  ghost predicate Known(w: World, thread: u16, n: nat) {
    n <= 65536 && forall k: u16 :: k < n ==> OpId(thread, k) in w.ops
  }

  ghost function IdleCheck(theta: int, w: World, id: OpId): (r: World)
    requires Shaped(w) && id in w.ops
    ensures r.ops.Keys == w.ops.Keys && r.ideal == w.ideal && r.worker == w.worker && Shaped(r)
  {
    Apply(theta, w, Idle(id))
  }

  /** The world after the checks of a thread's operators 0 to n - 1. */
  ghost function IdlePass(theta: int, w: World, thread: u16, n: nat): (r: World)
    requires Shaped(w) && Known(w, thread, n)
    ensures r.ops.Keys == w.ops.Keys && r.ideal == w.ideal && r.worker == w.worker && Shaped(r)
  {
    if n == 0 then w else IdleCheck(theta, IdlePass(theta, w, thread, n - 1), OpId(thread, n - 1))
  }

  /** The operators in the array are the thread's in the world. */
  ghost predicate Mirrors(w: World, thread: u16, operators: seq<Operator>) {
    && |operators| <= 65536
    && forall k: u16 :: k < |operators| ==> OpId(thread, k) in w.ops && w.ops[OpId(thread, k)] == operators[k]
  }

  lemma CheckKeepsMirror(theta: int, w: World, thread: u16, row: seq<Operator>, i: u16, c: S.Outcome, w': World)
    requires Shaped(w) && Mirrors(w, thread, row) && i < |row| && OpId(thread, i) in w.ops
    requires S.Shaped(row[i]) && c == S.Check(theta, row[i]) && w' == IdleCheck(theta, w, OpId(thread, i))
    ensures Mirrors(w', thread, row[i := c.o])
    ensures w'.history == w.history + Requests(w.worker, OpId(thread, i), c.data)
  {
  }

  method CheckOperator(theta: int, worker: u32, id: OpId, o: Operator) returns (o': Operator, sent: seq<Item>)
    requires S.Shaped(o)
    ensures o' == S.Check(theta, o).o && sent == Requests(worker, id, S.Check(theta, o).data)
  {
    o', sent := o, [];
    if S.Divergence(o) > theta {
      var data := S.Data(o);
      o' := S.Serialized(o);
      sent := [Item(worker, id.thread, id.op, data.key, data.value)];
    }
  }

  /** The operators in the array and the requests sent so far are those of the first n checks. */
  ghost predicate Checked(
    theta: int, w: World, thread: u16, n: nat, v: World, operators: seq<Operator>, sent: seq<Item>)
    requires Shaped(w) && Known(w, thread, n)
  {
    v == IdlePass(theta, w, thread, n) && Mirrors(v, thread, operators) && v.history == w.history + sent
  }

  lemma NextChecked(theta: int, w: World, thread: u16, i: u16, v: World, row: seq<Operator>, sent: seq<Item>,
                    c: S.Outcome)
    requires Shaped(w) && Known(w, thread, i + 1) && i < |row| && Checked(theta, w, thread, i, v, row, sent)
    requires S.Shaped(row[i]) && c == S.Check(theta, row[i])
    ensures Checked(theta, w, thread, i + 1, IdleCheck(theta, v, OpId(thread, i)), row[i := c.o],
                    sent + Requests(w.worker, OpId(thread, i), c.data))
  {
    CheckKeepsMirror(theta, v, thread, row, i, c, IdleCheck(theta, v, OpId(thread, i)));
  }

  /** One turn of the loop. */
  method CheckNext(theta: int, worker: u32, thread: u16, operators: array<Operator>, i: u16, sent: seq<Item>,
                   ghost w: World, ghost v: World) returns (sent': seq<Item>, ghost v': World)
    requires Shaped(w) && w.worker == worker && Known(w, thread, i + 1) && i < operators.Length
    requires Checked(theta, w, thread, i, v, operators[..], sent)
    modifies operators
    ensures Checked(theta, w, thread, i + 1, v', operators[..], sent')
  {
    ghost var row := operators[..];
    ShapedOperator(v, thread, row, i);
    NextChecked(theta, w, thread, i, v, row, sent, S.Check(theta, row[i]));
    v' := IdleCheck(theta, v, OpId(thread, i));
    var o, s := CheckOperator(theta, worker, OpId(thread, i), operators[i]);
    operators[i] := o;
    assert operators[..] == row[i := o];
    sent' := sent + s;
  }

  /** The loop in the source does what the checks of the world do, one by one: the operators in the
      array change alike, and the requests sent are what the server's history grows by. */
  method CheckOperators(theta: int, worker: u32, thread: u16, operators: array<Operator>, ghost w: World)
    returns (sent: seq<Item>)
    requires Shaped(w) && w.worker == worker && Mirrors(w, thread, operators[..])
    modifies operators
    ensures var w' := IdlePass(theta, w, thread, operators.Length);
            Mirrors(w', thread, operators[..]) && w'.history == w.history + sent
  {
    ghost var v;
    assert w.history + [] == w.history;
    sent, v := CheckAll(theta, worker, thread, operators, w);
  }

  method CheckAll(theta: int, worker: u32, thread: u16, operators: array<Operator>, ghost w: World)
    returns (sent: seq<Item>, ghost v: World)
    requires Shaped(w) && w.worker == worker && Known(w, thread, operators.Length)
    requires Checked(theta, w, thread, 0, w, operators[..], [])
    modifies operators
    ensures Checked(theta, w, thread, operators.Length, v, operators[..], sent)
  {
    sent, v := [], w;
    for i := 0 to operators.Length
      invariant Checked(theta, w, thread, i, v, operators[..], sent)
    {
      sent, v := CheckNext(theta, worker, thread, operators, i, sent, w, v);
    }
  }

  lemma ShapedOperator(w: World, thread: u16, operators: seq<Operator>, i: u16)
    requires Shaped(w) && Mirrors(w, thread, operators) && i < |operators|
    ensures OpId(thread, i) in w.ops && S.Shaped(operators[i])
  {
  }
}
