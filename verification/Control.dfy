/** The control protocol between a worker and its threads: src/thread/thread.cpp:132-156 on the thread
    side, src/thread/worker.hpp:263-385 on the worker side, over two FIFO mailboxes per thread (module
    Mailbox).  Thread 0 is the up thread, threads 1..n are the compute threads, and thread n+1, if
    present, is the down thread.  A failed command-type assertion is a program counter of its own. */
module Control {
  import opened Sums

  datatype Command = CReady | CBackup | CFinish | CClean

  datatype ThreadPc =
    | TNotCreated
    | TInit        // in ThreadInitHandler
    | TWaitReady
    | TMain        // in ThreadMainHandler
    | TWaitBackup
    | TWaitClean
    | TCleaning    // in ThreadFinishHandler
    | TDone
    | TFailed

  /** How far the worker has got with a thread (history). */
  datatype Stage = Fresh | Created | Greeted | Running | Finished | Cleaning | Gone

  datatype Link = Link(
    pc: ThreadPc,
    toWorker: seq<Command>,
    toThread: seq<Command>,
    budget: nat,          // backup requests the main handler may still make
    stage: Stage)

  datatype WorkerPc =
    | WCreate(i: nat)
    | WWaitReady(i: nat)
    | WNotify(i: nat)
    | WPoll(i: nat)
    | WWaitDown
    | WClean(i: nat)
    | WWaitFinish(i: nat)
    | WDone
    | WFailed

  /** `polled` is num_compute_thread_ + 1, the number of threads the relay loop polls. */
  datatype State = State(links: seq<Link>, worker: WorkerPc, stop: nat, polled: nat)

  datatype Event =
    | SendReady(i: nat)
    | Receive(i: nat)
    | Request(i: nat)   // a backup request: a compute thread waits for the answer, the up thread does not
    | EndMain(i: nat)
    | EndClean(i: nat)
    | Create
    | AwaitReady
    | Notify
    | PollEmpty
    | PollTake
    | SweepEnd
    | AwaitDown
    | Clean
    | AwaitFinish

  function Init(compute: nat, down: bool, budgets: seq<nat>): State
    requires |budgets| == compute + 1 + (if down then 1 else 0)
  {
    State(
      seq(|budgets|, i requires 0 <= i < |budgets| => Link(TNotCreated, [], [], budgets[i], Fresh)),
      WCreate(0), 0, compute + 1)
  }

  predicate Enabled(s: State, e: Event) {
    match e
    case SendReady(i) => i < |s.links| && s.links[i].pc.TInit?
    case Receive(i) =>
      i < |s.links| && s.links[i].toThread != []
      && (s.links[i].pc.TWaitReady? || s.links[i].pc.TWaitBackup? || s.links[i].pc.TWaitClean?)
    case Request(i) => i < s.polled && i < |s.links| && s.links[i].pc.TMain? && s.links[i].budget > 0
    case EndMain(i) => i < |s.links| && s.links[i].pc.TMain?
    case EndClean(i) => i < |s.links| && s.links[i].pc.TCleaning?
    case Create => s.worker.WCreate? && s.worker.i < |s.links|
    case AwaitReady => s.worker.WWaitReady? && s.worker.i < |s.links| && s.links[s.worker.i].toWorker != []
    case Notify => s.worker.WNotify? && s.worker.i < |s.links|
    case PollEmpty =>
      s.worker.WPoll? && s.worker.i < s.polled && s.worker.i < |s.links| && s.links[s.worker.i].toWorker == []
    case PollTake =>
      s.worker.WPoll? && s.worker.i < s.polled && s.worker.i < |s.links| && s.links[s.worker.i].toWorker != []
    case SweepEnd => s.worker.WPoll? && s.worker.i >= s.polled
    case AwaitDown => s.worker.WWaitDown? && s.polled < |s.links| && s.links[s.polled].toWorker != []
    case Clean => s.worker.WClean? && s.worker.i < |s.links|
    case AwaitFinish => s.worker.WWaitFinish? && s.worker.i < |s.links| && s.links[s.worker.i].toWorker != []
  }

  /** The thread side. */
  function ThreadStep(k: Link, e: Event): Link
    requires e.SendReady? || e.Request? || e.EndMain? || e.EndClean? || (e.Receive? && k.toThread != [])
    requires e.Request? ==> k.budget > 0
  {
    match e
    case SendReady(_) => k.(pc := TWaitReady, toWorker := k.toWorker + [CReady])
    case Receive(_) =>
      var c := k.toThread[0];
      k.(toThread := k.toThread[1..],
         pc := if k.pc.TWaitReady? && c.CReady? then TMain
               else if k.pc.TWaitBackup? && c.CBackup? then TMain
               else if k.pc.TWaitClean? && c.CClean? then TCleaning
               else TFailed)
    case Request(i) =>
      k.(pc := if i == 0 then k.pc else TWaitBackup, toWorker := k.toWorker + [CBackup], budget := k.budget - 1)
    case EndMain(_) => k.(pc := TWaitClean, toWorker := k.toWorker + [CFinish])
    case EndClean(_) => k.(pc := TDone, toWorker := k.toWorker + [CFinish])
  }

  /** The relay loop's treatment of one command. */
  function Relayed(s: State, i: nat): State
    requires i < |s.links| && s.links[i].toWorker != []
  {
    var k := s.links[i];
    var rest := k.(toWorker := k.toWorker[1..]);
    match k.toWorker[0]
    case CFinish => s.(links := s.links[i := rest.(stage := Finished)], stop := s.stop + 1, worker := WPoll(i + 1))
    case CBackup =>
      // the up thread's data backups are saved without an answer
      s.(links := s.links[i := if i == 0 then rest else rest.(toThread := k.toThread + [CBackup])],
         worker := WPoll(i + 1))
    case _ => s.(links := s.links[i := rest], worker := WFailed)
  }

  function Apply(s: State, e: Event): State
    requires Enabled(s, e)
  {
    var n := |s.links|;
    match e
    case SendReady(i) => s.(links := s.links[i := ThreadStep(s.links[i], e)])
    case Receive(i) => s.(links := s.links[i := ThreadStep(s.links[i], e)])
    case Request(i) => s.(links := s.links[i := ThreadStep(s.links[i], e)])
    case EndMain(i) => s.(links := s.links[i := ThreadStep(s.links[i], e)])
    case EndClean(i) => s.(links := s.links[i := ThreadStep(s.links[i], e)])
    case Create =>
      var i := s.worker.i;
      s.(links := s.links[i := s.links[i].(pc := TInit, stage := Created)], worker := WWaitReady(i))
    case AwaitReady =>
      var i := s.worker.i;
      var k := s.links[i];
      s.(links := s.links[i := k.(toWorker := k.toWorker[1..], stage := Greeted)],
         worker := if k.toWorker[0].CReady? then (if i + 1 < n then WCreate(i + 1) else WNotify(0)) else WFailed)
    case Notify =>
      var i := s.worker.i;
      s.(links := s.links[i := s.links[i].(toThread := s.links[i].toThread + [CReady], stage := Running)],
         worker := if i + 1 < n then WNotify(i + 1) else WPoll(0))
    case PollEmpty => s.(worker := WPoll(s.worker.i + 1))
    case PollTake => Relayed(s, s.worker.i)
    case SweepEnd =>
      s.(worker := if s.stop != s.polled then WPoll(0) else if s.polled < n then WWaitDown else WClean(0))
    case AwaitDown =>
      var k := s.links[s.polled];
      s.(links := s.links[s.polled := k.(toWorker := k.toWorker[1..], stage := Finished)],
         worker := if k.toWorker[0].CFinish? then WClean(0) else WFailed)
    case Clean =>
      var i := s.worker.i;
      s.(links := s.links[i := s.links[i].(toThread := s.links[i].toThread + [CClean], stage := Cleaning)],
         worker := WWaitFinish(i))
    case AwaitFinish =>
      var i := s.worker.i;
      var k := s.links[i];
      s.(links := s.links[i := k.(toWorker := k.toWorker[1..], stage := Gone)],
         worker := if !k.toWorker[0].CFinish? then WFailed else if i + 1 < n then WClean(i + 1) else WDone)
  }

  predicate CanRun(s: State, events: seq<Event>)
    decreases |events|
  {
    events == [] || (Enabled(s, events[0]) && CanRun(Apply(s, events[0]), events[1..]))
  }

  function After(s: State, events: seq<Event>): State
    requires CanRun(s, events)
    decreases |events|
  {
    if events == [] then s else After(Apply(s, events[0]), events[1..])
  }

  // ---------------------------------------------------------------- invariant

  /** Nothing but data backups. */
  predicate Backups(commands: seq<Command>) {
    forall i :: 0 <= i < |commands| ==> commands[i].CBackup?
  }

  /** What a thread and its mailboxes can look like at each stage; data backups pile up before the finish. */
  predicate LinkOk(k: Link) {
    match k.stage
    case Fresh => k.pc.TNotCreated? && k.toWorker == [] && k.toThread == []
    case Created =>
      k.toThread == [] && ((k.pc.TInit? && k.toWorker == []) || (k.pc.TWaitReady? && k.toWorker == [CReady]))
    case Greeted => k.pc.TWaitReady? && k.toWorker == [] && k.toThread == []
    case Running =>
      || (k.pc.TWaitReady? && k.toWorker == [] && k.toThread == [CReady])
      || (k.pc.TMain? && Backups(k.toWorker) && k.toThread == [])
      || (k.pc.TWaitBackup? && k.toWorker == [CBackup] && k.toThread == [])
      || (k.pc.TWaitBackup? && k.toWorker == [] && k.toThread == [CBackup])
      || (k.pc.TWaitClean? && Finishing(k.toWorker) && k.toThread == [])
    case Finished => k.pc.TWaitClean? && k.toWorker == [] && k.toThread == []
    case Cleaning =>
      || (k.pc.TWaitClean? && k.toWorker == [] && k.toThread == [CClean])
      || (k.pc.TCleaning? && k.toWorker == [] && k.toThread == [])
      || (k.pc.TDone? && k.toWorker == [CFinish] && k.toThread == [])
    case Gone => k.pc.TDone? && k.toWorker == [] && k.toThread == []
  }

  predicate Finishing(commands: seq<Command>) {
    |commands| > 0 && commands[|commands| - 1].CFinish? && Backups(commands[..|commands| - 1])
  }

  /** Threads that wait for their answers have at most one command under way. */
  predicate Prompt(k: Link) {
    k.stage.Running? ==> |k.toWorker| <= 1 && (k.pc.TMain? ==> k.toWorker == [])
  }

  /** Which stage thread i is in, given where the worker is. */
  predicate StageOk(w: WorkerPc, polled: nat, i: nat, g: Stage) {
    match w
    case WCreate(j) => g == if i < j then Greeted else Fresh
    case WWaitReady(j) => g == if i < j then Greeted else if i == j then Created else Fresh
    case WNotify(j) => g == if i < j then Running else Greeted
    case WPoll(_) => g.Running? || (i < polled && g.Finished?)
    case WWaitDown => g == if i < polled then Finished else Running
    case WClean(j) => g == if i < j then Gone else Finished
    case WWaitFinish(j) => g == if i < j then Gone else if i == j then Cleaning else Finished
    case WDone => g.Gone?
    case WFailed => false
  }

  function IsFinished(k: Link): nat {
    if k.stage.Finished? then 1 else 0
  }

  /** The worker walks over all threads. */
  predicate Counting(w: WorkerPc) {
    w.WCreate? || w.WWaitReady? || w.WNotify? || w.WClean? || w.WWaitFinish?
  }

  ghost predicate Inv(s: State) {
    && 0 < s.polled <= |s.links| <= s.polled + 1
    && !s.worker.WFailed?
    && (forall i :: 0 <= i < |s.links| ==> LinkOk(s.links[i]) && StageOk(s.worker, s.polled, i, s.links[i].stage))
    && (forall i :: 0 <= i < |s.links| && s.links[i].pc.TWaitBackup? ==> 0 < i < s.polled)
    && (forall i :: 0 < i < |s.links| ==> Prompt(s.links[i]))
    && (Counting(s.worker) ==> s.worker.i < |s.links|)
    && (s.worker.WWaitDown? ==> s.polled < |s.links|)
    && (s.worker.WPoll? ==> s.worker.i <= s.polled && s.stop == Sum(s.links, IsFinished))
    && (s.worker.WCreate? || s.worker.WWaitReady? || s.worker.WNotify? ==> s.stop == 0)
  }

  lemma InitInv(compute: nat, down: bool, budgets: seq<nat>)
    requires |budgets| == compute + 1 + (if down then 1 else 0)
    ensures Inv(Init(compute, down, budgets))
  {
  }

  predicate ThreadEvent(e: Event) {
    e.SendReady? || e.Receive? || e.Request? || e.EndMain? || e.EndClean?
  }

  /** What a thread needs for its own step. */
  predicate CanStep(k: Link, e: Event) {
    match e
    case SendReady(_) => k.pc.TInit?
    case Receive(_) => k.toThread != []
    case Request(_) => k.pc.TMain? && k.budget > 0
    case EndMain(_) => k.pc.TMain?
    case EndClean(_) => k.pc.TCleaning?
    case _ => false
  }

  /** A thread's own step keeps its link consistent and its stage; in particular it receives what it expects. */
  lemma ThreadKeepsLink(k: Link, e: Event, k': Link)
    requires LinkOk(k) && CanStep(k, e) && k' == ThreadStep(k, e) && (e.i > 0 ==> Prompt(k))
    ensures LinkOk(k') && k'.stage == k.stage && (e.i > 0 ==> Prompt(k'))
    ensures k'.pc.TWaitBackup? ==> k.pc.TWaitBackup? || (e.Request? && e.i > 0)
  {
    if k.pc.TMain? {
      MainKeepsLink(k, e, k');
    } else {
      assert !(e.Request? || e.EndMain?);
    }
  }

  lemma MainKeepsLink(k: Link, e: Event, k': Link)
    requires LinkOk(k) && k.pc.TMain? && CanStep(k, e) && k' == ThreadStep(k, e) && (e.i > 0 ==> Prompt(k))
    ensures LinkOk(k') && k'.stage == k.stage && (e.i > 0 ==> Prompt(k'))
  {
    assert k.stage.Running? && k.toThread == [] && Backups(k.toWorker);
    assert k'.toWorker[..|k.toWorker|] == k.toWorker;
  }

  lemma ThreadKeepsInv(s: State, e: Event)
    requires Inv(s) && Enabled(s, e) && ThreadEvent(e)
    ensures Inv(Apply(s, e))
  {
    var k, k' := s.links[e.i], ThreadStep(s.links[e.i], e);
    assert LinkOk(k) && (e.i > 0 ==> Prompt(k)) && (k.pc.TWaitBackup? ==> 0 < e.i < s.polled);
    ThreadKeepsLink(k, e, k');
    LinkKeepsInv(s, e.i, k');
    assert Apply(s, e) == s.(links := s.links[e.i := k']);
  }

  lemma LinkKeepsInv(s: State, i: nat, k': Link)
    requires Inv(s) && i < |s.links| && LinkOk(k') && k'.stage == s.links[i].stage && (i > 0 ==> Prompt(k'))
    requires k'.pc.TWaitBackup? ==> 0 < i < s.polled
    ensures Inv(s.(links := s.links[i := k']))
  {
    SumUpdate(s.links, IsFinished, i, k');
  }

  lemma CreateKeepsInv(s: State)
    requires Inv(s) && Enabled(s, Create)
    ensures Inv(Apply(s, Create))
  {
    assert LinkOk(s.links[s.worker.i]);
  }

  lemma ReadyKeepsInv(s: State)
    requires Inv(s) && Enabled(s, AwaitReady)
    ensures Inv(Apply(s, AwaitReady))
  {
    assert LinkOk(s.links[s.worker.i]);
  }

  lemma NotifyKeepsInv(s: State)
    requires Inv(s) && Enabled(s, Notify)
    ensures Inv(Apply(s, Notify))
  {
    var s' := Apply(s, Notify);
    assert LinkOk(s.links[s.worker.i]);
    if s'.worker.WPoll? {
      SumZero(s'.links, IsFinished);
    }
  }

  lemma PollEmptyKeepsInv(s: State)
    requires Inv(s) && Enabled(s, PollEmpty)
    ensures Inv(Apply(s, PollEmpty))
  {
  }

  /** What the relay loop takes from a thread is a backup or the finish, and leaves a consistent link. */
  lemma TakenLink(k: Link, i: nat, rest: Link)
    requires LinkOk(k) && (k.stage.Running? || k.stage.Finished?) && k.toWorker != []
    requires (i > 0 ==> Prompt(k)) && (k.pc.TWaitBackup? ==> i > 0) && rest == k.(toWorker := k.toWorker[1..])
    ensures k.stage.Running? && (k.toWorker[0].CBackup? || k.toWorker[0].CFinish?)
    ensures k.toWorker[0].CFinish? ==> LinkOk(rest.(stage := Finished)) && k.pc.TWaitClean?
    ensures k.toWorker[0].CBackup? && i == 0 ==> LinkOk(rest)
    ensures k.toWorker[0].CBackup? && i > 0 ==> LinkOk(rest.(toThread := k.toThread + [CBackup]))
    ensures i > 0 ==> rest.toWorker == []
  {
    if k.pc.TWaitClean? {
      FirstOfFinishing(k.toWorker);
    }
  }

  /** In front of the finish there are data backups only. */
  lemma FirstOfFinishing(commands: seq<Command>)
    requires Finishing(commands)
    ensures commands[0].CFinish? ==> commands[1..] == []
    ensures !commands[0].CFinish? ==> commands[0].CBackup? && Finishing(commands[1..])
  {
    var n := |commands| - 1;
    if n > 0 {
      assert commands[0] == commands[..n][0];
      assert commands[1..][n - 1] == commands[n];
      assert commands[1..][..n - 1] == commands[..n][1..];
    }
  }

  lemma PollTakeKeepsInv(s: State)
    requires Inv(s) && Enabled(s, PollTake)
    ensures Inv(Apply(s, PollTake))
  {
    var i, s' := s.worker.i, Apply(s, PollTake);
    var k := s.links[i];
    assert LinkOk(k) && StageOk(s.worker, s.polled, i, k.stage);
    TakenLink(k, i, k.(toWorker := k.toWorker[1..]));
    SumUpdate(s.links, IsFinished, i, s'.links[i]);
    TakeKeepsInv(s, s', i);
  }

  lemma TakeKeepsInv(s: State, s': State, i: nat)
    requires Inv(s) && s.worker == WPoll(i) && i < s.polled && s'.worker == WPoll(i + 1) && s'.polled == s.polled
    requires |s'.links| == |s.links| && s'.links == s.links[i := s'.links[i]] && LinkOk(s'.links[i])
    requires (s'.links[i].stage.Running? || s'.links[i].stage.Finished?) && (i > 0 ==> Prompt(s'.links[i]))
    requires s'.stop == Sum(s'.links, IsFinished) && (s'.links[i].pc.TWaitBackup? ==> i > 0)
    ensures Inv(s')
  {
  }

  /** Only polled threads can be finished during the relay loop; if all are counted, all are finished. */
  lemma {:induction false} CountedAll(links: seq<Link>, polled: nat)
    requires polled <= |links|
    requires forall i :: polled <= i < |links| ==> !links[i].stage.Finished?
    ensures Sum(links, IsFinished) <= polled
    ensures Sum(links, IsFinished) == polled <==> forall i :: 0 <= i < polled ==> links[i].stage.Finished?
    decreases |links|
  {
    if links != [] {
      var rest := links[1..];
      assert forall i :: 0 <= i < |rest| ==> rest[i] == links[i + 1];
      if polled == 0 {
        SumZero(links, IsFinished);
      } else {
        CountedAll(rest, polled - 1);
        if forall i :: 0 <= i < polled ==> links[i].stage.Finished? {
          assert forall i :: 0 <= i < polled - 1 ==> rest[i].stage.Finished?;
        }
        if Sum(links, IsFinished) == polled {
          forall i | 0 <= i < polled ensures links[i].stage.Finished? {
            if i > 0 {
              assert rest[i - 1] == links[i];
            }
          }
        }
      }
    }
  }

  lemma SweepKeepsInv(s: State)
    requires Inv(s) && Enabled(s, SweepEnd)
    ensures Inv(Apply(s, SweepEnd))
  {
    CountedAll(s.links, s.polled);
  }

  lemma DownKeepsInv(s: State)
    requires Inv(s) && Enabled(s, AwaitDown)
    ensures Inv(Apply(s, AwaitDown))
  {
    assert LinkOk(s.links[s.polled]);
  }

  lemma CleanKeepsInv(s: State)
    requires Inv(s) && Enabled(s, Clean)
    ensures Inv(Apply(s, Clean))
  {
    assert LinkOk(s.links[s.worker.i]);
  }

  lemma FinishKeepsInv(s: State)
    requires Inv(s) && Enabled(s, AwaitFinish)
    ensures Inv(Apply(s, AwaitFinish))
  {
    assert LinkOk(s.links[s.worker.i]);
  }

  lemma StepKeepsInv(s: State, e: Event)
    requires Inv(s) && Enabled(s, e)
    ensures Inv(Apply(s, e))
  {
    if ThreadEvent(e) {
      ThreadKeepsInv(s, e);
    } else {
      match e
      case Create => CreateKeepsInv(s);
      case AwaitReady => ReadyKeepsInv(s);
      case Notify => NotifyKeepsInv(s);
      case PollEmpty => PollEmptyKeepsInv(s);
      case PollTake => PollTakeKeepsInv(s);
      case SweepEnd => SweepKeepsInv(s);
      case AwaitDown => DownKeepsInv(s);
      case Clean => CleanKeepsInv(s);
      case AwaitFinish => FinishKeepsInv(s);
    }
  }

  lemma {:induction false} RunKeepsInv(s: State, events: seq<Event>)
    requires Inv(s) && CanRun(s, events)
    ensures Inv(After(s, events))
    decreases |events|
  {
    if events != [] {
      StepKeepsInv(s, events[0]);
      RunKeepsInv(Apply(s, events[0]), events[1..]);
    }
  }

  // ---------------------------------------------------------------- progress

  /** Events that remain for a thread, the worker's part included. */
  function LinkWork(k: Link): nat {
    var b := 3 * k.budget;
    match k.stage
    case Fresh => 11 + b
    case Created => if k.pc.TInit? then 10 + b else 9 + b
    case Greeted => 8 + b
    case Running =>
      (match k.pc
       case TWaitReady => 7 + b
       case TMain => 6 + b + |k.toWorker|
       case TWaitBackup => if k.toWorker != [] then 8 + b else 7 + b
       case _ => 4 + |k.toWorker|)
    case Finished => 4
    case Cleaning => if k.pc.TWaitClean? then 3 else if k.pc.TCleaning? then 2 else 1
    case Gone => 0
  }

  /** The relay loop has not been left yet. */
  predicate Relaying(w: WorkerPc) {
    w.WCreate? || w.WWaitReady? || w.WNotify? || w.WPoll?
  }

  function Work(s: State): nat {
    Sum(s.links, LinkWork) + if Relaying(s.worker) then 1 else 0
  }

  /** Everything but finding a mailbox empty or starting the next sweep. */
  predicate Productive(s: State, e: Event) {
    !e.PollEmpty? && !(e.SweepEnd? && s.stop != s.polled)
  }

  /** The link an event changes. */
  function Touched(s: State, e: Event): nat {
    if ThreadEvent(e) then e.i
    else if e.AwaitDown? then s.polled
    else if Counting(s.worker) || s.worker.WPoll? then s.worker.i
    else 0
  }

  lemma ThreadWorks(s: State, e: Event)
    requires Inv(s) && Enabled(s, e) && ThreadEvent(e)
    ensures LinkWork(Apply(s, e).links[e.i]) < LinkWork(s.links[e.i])
  {
    assert LinkOk(s.links[e.i]);
  }

  lemma WorkerWorks(s: State, e: Event)
    requires Inv(s) && Enabled(s, e) && !ThreadEvent(e) && !e.PollEmpty? && !e.SweepEnd?
    ensures Touched(s, e) < |s.links|
    ensures LinkWork(Apply(s, e).links[Touched(s, e)]) < LinkWork(s.links[Touched(s, e)])
  {
    assert LinkOk(s.links[Touched(s, e)]);
    assert StageOk(s.worker, s.polled, Touched(s, e), s.links[Touched(s, e)].stage);
  }

  /** Every productive event uses up work, and idle polling adds none. */
  lemma EventWorks(s: State, e: Event)
    requires Inv(s) && Enabled(s, e)
    ensures Work(Apply(s, e)) <= Work(s) && (Productive(s, e) ==> Work(Apply(s, e)) < Work(s))
  {
    if !e.PollEmpty? && !e.SweepEnd? {
      var i := Touched(s, e);
      if ThreadEvent(e) {
        ThreadWorks(s, e);
      } else {
        WorkerWorks(s, e);
      }
      WorkOfUpdate(s, Apply(s, e), i);
    }
  }

  lemma WorkOfUpdate(s: State, s': State, i: nat)
    requires i < |s.links| && |s'.links| == |s.links| && s'.links == s.links[i := s'.links[i]]
    requires LinkWork(s'.links[i]) < LinkWork(s.links[i]) && (Relaying(s'.worker) ==> Relaying(s.worker))
    ensures Work(s') < Work(s)
  {
    SumUpdate(s.links, LinkWork, i, s'.links[i]);
  }

  function Productives(s: State, events: seq<Event>): nat
    requires CanRun(s, events)
    decreases |events|
  {
    if events == [] then 0
    else (if Productive(s, events[0]) then 1 else 0) + Productives(Apply(s, events[0]), events[1..])
  }

  lemma {:induction false} RunWorks(s: State, events: seq<Event>)
    requires Inv(s) && CanRun(s, events)
    ensures Productives(s, events) + Work(After(s, events)) <= Work(s)
    decreases |events|
  {
    if events != [] {
      EventWorks(s, events[0]);
      StepKeepsInv(s, events[0]);
      RunWorks(Apply(s, events[0]), events[1..]);
    }
  }

  /** The relay loop has something to do: a command is waiting, or all have finished. */
  ghost predicate Pending(s: State) {
    s.stop == s.polled || exists i :: 0 <= i < s.polled && i < |s.links| && s.links[i].toWorker != []
  }

  /** A running thread can take a step of its own or has a command waiting for the worker. */
  lemma RunningMoves(s: State, i: nat) returns (e: Event)
    requires Inv(s) && i < |s.links| && s.links[i].stage.Running? && s.links[i].toWorker == []
    ensures ThreadEvent(e) && Enabled(s, e)
  {
    assert LinkOk(s.links[i]);
    e := if s.links[i].pc.TMain? then EndMain(i) else Receive(i);
  }

  /** No reachable state but the final one is stuck: an event other than idle polling is possible, or the
      worker is polling and has something to find. */
  lemma NeverStuck(s: State) returns (e: Event)
    requires Inv(s) && !s.worker.WDone?
    ensures (Enabled(s, e) && Productive(s, e)) || (s.worker.WPoll? && Pending(s))
  {
    e := SweepEnd;
    if s.worker.WPoll? {
      if !Pending(s) {
        e := PollingThreadMoves(s);
      }
    } else if s.worker.WWaitDown? {
      if s.links[s.polled].toWorker == [] {
        e := RunningMoves(s, s.polled);
      } else {
        e := AwaitDown;
      }
    } else {
      e := WalkMoves(s);
    }
  }

  lemma PollingThreadMoves(s: State) returns (e: Event)
    requires Inv(s) && s.worker.WPoll? && !Pending(s)
    ensures ThreadEvent(e) && Enabled(s, e)
  {
    CountedAll(s.links, s.polled);
    var i :| 0 <= i < s.polled && !s.links[i].stage.Finished?;
    e := RunningMoves(s, i);
  }

  /** While the worker walks over the threads, it or the thread it waits for can move. */
  lemma WalkMoves(s: State) returns (e: Event)
    requires Inv(s) && Counting(s.worker)
    ensures Enabled(s, e) && !e.PollEmpty? && !e.SweepEnd?
  {
    var i := s.worker.i;
    assert LinkOk(s.links[i]) && StageOk(s.worker, s.polled, i, s.links[i].stage);
    match s.worker
    case WCreate(_) => e := Create;
    case WWaitReady(_) => e := if s.links[i].pc.TInit? then SendReady(i) else AwaitReady;
    case WNotify(_) => e := Notify;
    case WClean(_) => e := Clean;
    case WWaitFinish(_) =>
      e := if s.links[i].toWorker != [] then AwaitFinish
           else if s.links[i].pc.TCleaning? then EndClean(i)
           else Receive(i);
  }

  /** Only the position of the worker differs. */
  predicate SameBut(s: State, t: State) {
    t == s.(worker := t.worker)
  }

  /** What is pending is found within the current and the next sweep, if no thread moves meanwhile. */
  lemma {:induction false} SweepFinds(s: State, wrapped: bool) returns (events: seq<Event>)
    requires Inv(s) && s.worker.WPoll? && Pending(s)
    requires wrapped ==> forall i :: 0 <= i < s.worker.i && i < |s.links| ==> s.links[i].toWorker == []
    ensures CanRun(s, events) && SameBut(s, After(s, events))
    ensures |events| <= (if wrapped then 0 else s.polled + 1) + s.polled - s.worker.i
    ensures var t := After(s, events);
      Enabled(t, PollTake) || (Enabled(t, SweepEnd) && t.stop == t.polled)
    decreases if wrapped then 0 else 1, s.polled - s.worker.i
  {
    var j := s.worker.i;
    if j < s.polled {
      if s.links[j].toWorker != [] {
        events := [];
      } else {
        PollEmptyKeepsInv(s);
        var next := Apply(s, PollEmpty);
        assert next == s.(worker := WPoll(j + 1));
        events := SweepFinds(next, wrapped);
        events := [PollEmpty] + events;
      }
    } else if s.stop == s.polled {
      events := [];
    } else {
      SweepKeepsInv(s);
      var next := Apply(s, SweepEnd);
      assert next == s.(worker := WPoll(0));
      events := SweepFinds(next, true);
      events := [SweepEnd] + events;
    }
  }

  // ---------------------------------------------------------------- main results

  /** In every run no command-type assertion fails, on either side. */
  lemma NoWrongCommand(compute: nat, down: bool, budgets: seq<nat>, events: seq<Event>)
    requires |budgets| == compute + 1 + (if down then 1 else 0)
    requires CanRun(Init(compute, down, budgets), events)
    ensures var s := After(Init(compute, down, budgets), events);
      !s.worker.WFailed? && forall i :: 0 <= i < |s.links| ==> !s.links[i].pc.TFailed?
  {
    InitInv(compute, down, budgets);
    RunKeepsInv(Init(compute, down, budgets), events);
    var s := After(Init(compute, down, budgets), events);
    forall i | 0 <= i < |s.links| ensures !s.links[i].pc.TFailed? {
      assert LinkOk(s.links[i]);
    }
  }

  /** The relay loop is left exactly when every up and compute thread has sent its finish and the worker
      has taken it. */
  lemma RelayEndsExactly(compute: nat, down: bool, budgets: seq<nat>, events: seq<Event>)
    requires |budgets| == compute + 1 + (if down then 1 else 0)
    requires CanRun(Init(compute, down, budgets), events)
    requires Enabled(After(Init(compute, down, budgets), events), SweepEnd)
    ensures var s := After(Init(compute, down, budgets), events);
      !Apply(s, SweepEnd).worker.WPoll? <==>
      forall i :: 0 <= i < s.polled && i < |s.links| ==> s.links[i].stage.Finished? && s.links[i].pc.TWaitClean?
  {
    InitInv(compute, down, budgets);
    RunKeepsInv(Init(compute, down, budgets), events);
    var s := After(Init(compute, down, budgets), events);
    CountedAll(s.links, s.polled);
    forall i | 0 <= i < |s.links| && s.links[i].stage.Finished? ensures s.links[i].pc.TWaitClean? {
      assert LinkOk(s.links[i]);
    }
  }

  /** However many backup requests the threads make, the number of events other than idle polling is
      bounded, and unless the worker is done one of them is possible or is found by polling on. */
  lemma ProtocolCompletes(compute: nat, down: bool, budgets: seq<nat>, events: seq<Event>)
      returns (e: Event)
    requires |budgets| == compute + 1 + (if down then 1 else 0)
    requires CanRun(Init(compute, down, budgets), events)
    ensures Productives(Init(compute, down, budgets), events) <= Work(Init(compute, down, budgets))
    ensures var s := After(Init(compute, down, budgets), events);
      s.worker.WDone? || (Enabled(s, e) && Productive(s, e)) || (s.worker.WPoll? && Pending(s))
  {
    var s0 := Init(compute, down, budgets);
    InitInv(compute, down, budgets);
    RunWorks(s0, events);
    RunKeepsInv(s0, events);
    e := Create;
    if !After(s0, events).worker.WDone? {
      e := NeverStuck(After(s0, events));
    }
  }
}
