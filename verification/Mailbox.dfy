/** The inter-thread mailbox of src/control_channel/mailbox.cpp as a state machine over the atomic
    steps of any number of senders and one receiver, with the eventfd counter of signaler.cpp.

    Each shared access (mutex, compare-and-swap, store to c, eventfd read and write, poll) is one
    step; steps of different threads interleave freely.  A failed assertion of the source is the
    receiver program counter RFailed. */
module Mailbox {
  import opened Sums
  import opened Pipe

  /** mailbox_t::send, one constructor per point where another thread can run. */
  datatype SenderPc<T> =
    | SIdle
    | SWrite(cmd: T) // holds sync, about to write the command
    | SCas        // holds sync, command written, about to compare-and-swap c
    | SSet        // holds sync, the swap found Null, about to store c
    | SUnlock     // holds sync, the reader was awake
    | SUnlockWake // holds sync, the reader was asleep
    | SSignal     // sync released, about to raise the signal

  /** mailbox_t::recv; `retry` is true in the first read attempt, whose failure is tolerated. */
  datatype ReceiverPc =
    | RIdle
    | RCheck(retry: bool) // in check_read, before the prefetch test
    | RCas(retry: bool)   // about to compare-and-swap c
    | RPop(retry: bool)   // an item is prefetched, about to take it
    | RPassive            // found the pipe empty, about to clear active
    | RSigRead            // about to read the eventfd
    | RSigBack            // read the value 2, about to write 1 back
    | RPoll               // waiting for the eventfd
    | RFailed             // an assertion of the source failed

  datatype State<T> = State(
    pipe: PipeState<T>,
    senders: seq<SenderPc<T>>,
    receiver: ReceiverPc,
    active: bool,
    signals: nat,
    received: seq<T>)

  datatype Event<T> =
    | Lock(i: nat, cmd: T)
    | Write(i: nat)
    | Cas(i: nat)
    | Set(i: nat)
    | Unlock(i: nat)
    | Signal(i: nat)
    | Call
    | Check
    | Fetch
    | Pop
    | GoPassive
    | SigRead
    | SigBack
    | Woken
    | TimedOut  // poll returned 0 or was interrupted: recv returns -1

  /** The mailbox constructor performs one read on the empty pipe, which puts the reader to sleep. */
  function Init<T>(n: nat): State<T> {
    State(Checked(Empty<T>()), seq(n, _ => SIdle), RIdle, false, 0, [])
  }

  predicate Holds<T>(pc: SenderPc<T>) {
    pc.SWrite? || pc.SCas? || pc.SSet? || pc.SUnlock? || pc.SUnlockWake?
  }

  predicate Enabled<T>(s: State<T>, e: Event<T>) {
    match e
    case Lock(i, _) =>
      i < |s.senders| && s.senders[i].SIdle? && forall k :: 0 <= k < |s.senders| ==> !Holds(s.senders[k])
    case Write(i) => i < |s.senders| && s.senders[i].SWrite?
    case Cas(i) => i < |s.senders| && s.senders[i].SCas?
    case Set(i) => i < |s.senders| && s.senders[i].SSet?
    case Unlock(i) => i < |s.senders| && (s.senders[i].SUnlock? || s.senders[i].SUnlockWake?)
    case Signal(i) => i < |s.senders| && s.senders[i].SSignal?
    case Call => s.receiver.RIdle?
    case Check => s.receiver.RCheck?
    case Fetch => s.receiver.RCas?
    case Pop => s.receiver.RPop? && s.pipe.front < |s.pipe.items|
    case GoPassive => s.receiver.RPassive?
    case SigRead => s.receiver.RSigRead?
    case SigBack => s.receiver.RSigBack?
    case Woken => s.receiver.RPoll? && s.signals > 0
    case TimedOut => s.receiver.RPoll?
  }

  function Apply<T>(s: State<T>, e: Event<T>): State<T>
    requires Enabled(s, e)
  {
    match e
    case Lock(i, cmd) => s.(senders := s.senders[i := SWrite(cmd)])
    case Write(i) => s.(pipe := Written(s.pipe, s.senders[i].cmd, false), senders := s.senders[i := SCas])
    case Cas(i) =>
      if s.pipe.w == s.pipe.f then s.(senders := s.senders[i := SUnlock])
      else if CasWins(s.pipe) then s.(pipe := Published(s.pipe), senders := s.senders[i := SUnlock])
      else s.(senders := s.senders[i := SSet])
    case Set(i) => s.(pipe := Published(s.pipe), senders := s.senders[i := SUnlockWake])
    case Unlock(i) => s.(senders := s.senders[i := if s.senders[i].SUnlock? then SIdle else SSignal])
    case Signal(i) => s.(signals := s.signals + 1, senders := s.senders[i := SIdle])
    case Call => s.(receiver := if s.active then RCheck(true) else RPoll)
    case Check => s.(receiver := if Prefetched(s.pipe) then RPop(s.receiver.retry) else RCas(s.receiver.retry))
    case Fetch =>
      var p := Fetched(s.pipe);
      s.(pipe := p,
         receiver := if Prefetched(p) then RPop(s.receiver.retry)
                     else if s.receiver.retry then RPassive else RFailed)
    case Pop => s.(pipe := Popped(s.pipe), received := s.received + [s.pipe.items[s.pipe.front]], receiver := RIdle)
    case GoPassive => s.(active := false, receiver := RSigRead)
    case SigRead =>
      // the descriptor is non-blocking: reading 0 fails, and so does any value but 1 and 2
      s.(signals := 0, receiver := if s.signals == 2 then RSigBack else if s.signals == 1 then RPoll else RFailed)
    case SigBack => s.(signals := s.signals + 1, receiver := RPoll)
    case Woken => s.(active := true, receiver := RCheck(false))
    case TimedOut => s.(receiver := RIdle)
  }

  /** The events can happen one after another from s; every finite interleaving is such a sequence. */
  predicate CanRun<T>(s: State<T>, events: seq<Event<T>>)
    decreases |events|
  {
    events == [] || (Enabled(s, events[0]) && CanRun(Apply(s, events[0]), events[1..]))
  }

  function After<T>(s: State<T>, events: seq<Event<T>>): State<T>
    requires CanRun(s, events)
    decreases |events|
  {
    if events == [] then s else After(Apply(s, events[0]), events[1..])
  }

  // ---------------------------------------------------------------- the global invariant

  function Owes<T>(pc: SenderPc<T>): nat {
    if pc.SSet? || pc.SUnlockWake? || pc.SSignal? then 1 else 0
  }

  function HoldsCount<T>(pc: SenderPc<T>): nat {
    if Holds(pc) then 1 else 0
  }

  /** Signals that exist or that some thread is committed to raise. */
  function Tokens<T>(s: State<T>): nat {
    s.signals + Sum(s.senders, Owes) + (if s.receiver.RSigBack? then 1 else 0)
  }

  predicate InSet<T>(pc: SenderPc<T>) { pc.SSet? }

  /** c is set, or a sender is between its failed swap and its store. */
  ghost predicate Awake<T>(s: State<T>) {
    s.pipe.c.At? || exists i :: 0 <= i < |s.senders| && InSet(s.senders[i])
  }

  /** The receiver is working on the signal that woke it and has not consumed it yet. */
  predicate Busy<T>(s: State<T>) {
    match s.receiver
    case RIdle => s.active
    case RCheck(_) => true
    case RCas(_) => true
    case RPop(_) => true
    case _ => false
  }

  predicate Draining<T>(s: State<T>) {
    s.receiver.RPassive? || s.receiver.RSigRead?
  }

  ghost predicate WriterInv<T>(s: State<T>) {
    var p := s.pipe;
    && Sum(s.senders, HoldsCount) <= 1
    && p.f == |p.items|
    && (forall i :: 0 <= i < |s.senders| ==>
          match s.senders[i]
          case SWrite(_) => p.w == p.f
          case SCas => p.w + 1 == p.f
          case SSet => p.w + 1 == p.f && p.c.Null?
          case SUnlock => p.w == p.f
          case SUnlockWake => p.w == p.f
          case _ => true)
    && (Sum(s.senders, HoldsCount) == 0 ==> p.w == p.f)
  }

  ghost predicate ReaderInv<T>(s: State<T>) {
    var p := s.pipe;
    && !s.receiver.RFailed?
    && p.r.At?
    && (s.active <==> Busy(s) || s.receiver.RPassive?)
    && (Busy(s) ==> p.c.At?)
    && (!Busy(s) ==> p.r == At(p.front) && (p.c.At? ==> p.front < p.c.pos))
    && (s.receiver.RPop? ==> p.front < p.r.pos)
    && (s.receiver.RCas? ==> p.r == At(p.front))
    && (s.receiver.RCheck? || s.receiver.RCas? ==> s.receiver.retry || p.front < p.c.pos)
    && (s.receiver.RPop? ==> p.front < p.c.pos)
  }

  ghost predicate TokenInv<T>(s: State<T>) {
    Tokens(s) == (if Busy(s) then 1
                  else if Draining(s) then (if Awake(s) then 2 else 1)
                  else if Awake(s) then 1 else 0)
    && (Busy(s) || Draining(s) ==> s.signals >= 1)
    && (s.receiver.RSigBack? ==> Awake(s))
  }

  ghost predicate Inv<T>(s: State<T>) {
    && PipeInv(s.pipe)
    && s.received == s.pipe.items[..s.pipe.front]
    && WriterInv(s)
    && ReaderInv(s)
    && TokenInv(s)
  }

  // ---------------------------------------------------------------- preservation

  lemma InitInv<T>(n: nat)
    ensures Inv(Init<T>(n))
  {
    var s := Init<T>(n);
    SumZero(s.senders, Owes);
    SumZero(s.senders, HoldsCount);
  }

  /** At most one sender is inside the critical section. */
  lemma OneHolder<T>(s: State<T>, i: nat, j: nat)
    requires WriterInv(s) && i < |s.senders| && j < |s.senders|
    requires Holds(s.senders[i]) && Holds(s.senders[j])
    ensures i == j
  {
    if i < j {
      SumBoundsPair(s.senders, HoldsCount, i, j);
    } else if j < i {
      SumBoundsPair(s.senders, HoldsCount, j, i);
    }
  }

  lemma LockKeepsInv<T>(s: State<T>, i: nat, cmd: T)
    requires Inv(s) && Enabled(s, Lock(i, cmd))
    ensures Inv(Apply(s, Lock(i, cmd)))
  {
    var s' := Apply(s, Lock(i, cmd));
    SumZero(s.senders, HoldsCount);
    SumUpdate(s.senders, HoldsCount, i, SWrite(cmd));
    SumUpdate(s.senders, Owes, i, SWrite(cmd));
    AwakeUpdate(s, s', i);
  }

  /** Replacing a sender that is not at its store by another such one keeps the reader awake or asleep. */
  lemma AwakeUpdate<T>(s: State<T>, s': State<T>, i: nat)
    requires i < |s.senders| && |s'.senders| == |s.senders|
    requires s'.senders == s.senders[i := s'.senders[i]]
    requires s.pipe.c.At? == s'.pipe.c.At?
    requires InSet(s.senders[i]) == InSet(s'.senders[i])
    ensures Awake(s) == Awake(s')
  {
    if Awake(s) && !s.pipe.c.At? {
      var k :| 0 <= k < |s.senders| && InSet(s.senders[k]);
      assert InSet(s'.senders[k]);
    }
    if Awake(s') && !s'.pipe.c.At? {
      var k :| 0 <= k < |s'.senders| && InSet(s'.senders[k]);
      assert InSet(s.senders[k]);
    }
  }

  /** In a state where sender i holds sync no other sender does. */
  lemma OthersDoNotHold<T>(s: State<T>, i: nat)
    requires WriterInv(s) && i < |s.senders| && Holds(s.senders[i])
    ensures forall k :: 0 <= k < |s.senders| && k != i ==> !Holds(s.senders[k])
    ensures Sum(s.senders, HoldsCount) == 1
  {
    forall k | 0 <= k < |s.senders| && Holds(s.senders[k]) ensures k == i {
      OneHolder(s, i, k);
    }
    SumBoundsElement(s.senders, HoldsCount, i);
  }

  lemma WriteKeepsInv<T>(s: State<T>, i: nat)
    requires Inv(s) && Enabled(s, Write(i))
    ensures Inv(Apply(s, Write(i)))
  {
    var s' := Apply(s, Write(i));
    OthersDoNotHold(s, i);
    SumUpdate(s.senders, HoldsCount, i, SCas);
    SumUpdate(s.senders, Owes, i, SCas);
    AwakeUpdate(s, s', i);
  }

  lemma CasKeepsInv<T>(s: State<T>, i: nat)
    requires Inv(s) && Enabled(s, Cas(i))
    ensures Inv(Apply(s, Cas(i)))
  {
    var s' := Apply(s, Cas(i));
    OthersDoNotHold(s, i);
    SumUpdate(s.senders, HoldsCount, i, s'.senders[i]);
    SumUpdate(s.senders, Owes, i, s'.senders[i]);
    if CasWins(s.pipe) {
      AwakeUpdate(s, s', i);
    } else {
      assert s.pipe.c.Null?;
      assert !Awake(s);
      assert InSet(s'.senders[i]);
      assert Awake(s');
    }
  }

  lemma SetKeepsInv<T>(s: State<T>, i: nat)
    requires Inv(s) && Enabled(s, Set(i))
    ensures Inv(Apply(s, Set(i)))
  {
    var s' := Apply(s, Set(i));
    OthersDoNotHold(s, i);
    SumUpdate(s.senders, HoldsCount, i, SUnlockWake);
    SumUpdate(s.senders, Owes, i, SUnlockWake);
    assert InSet(s.senders[i]);
    assert Awake(s) && Awake(s');
  }

  lemma ReleaseKeepsInv<T>(s: State<T>, e: Event<T>)
    requires Inv(s) && Enabled(s, e) && (e.Unlock? || e.Signal?)
    ensures Inv(Apply(s, e))
  {
    var s' := Apply(s, e);
    if e.Unlock? {
      OthersDoNotHold(s, e.i);
    }
    SumUpdate(s.senders, HoldsCount, e.i, s'.senders[e.i]);
    SumUpdate(s.senders, Owes, e.i, s'.senders[e.i]);
    AwakeUpdate(s, s', e.i);
  }

  /** A receiver that finds a signal while passive has a flushed command to read. */
  lemma WokenKeepsInv<T>(s: State<T>)
    requires Inv(s) && Enabled(s, Woken)
    ensures Inv(Apply(s, Woken))
  {
    if s.pipe.c.Null? {
      var k :| 0 <= k < |s.senders| && InSet(s.senders[k]);
      SumBoundsElement(s.senders, Owes, k);
    }
  }

  lemma FetchKeepsInv<T>(s: State<T>)
    requires Inv(s) && Enabled(s, Fetch)
    ensures Inv(Apply(s, Fetch))
  {
    var s' := Apply(s, Fetch);
    assert forall k :: 0 <= k < |s.senders| ==> !InSet(s.senders[k]);
    assert !Prefetched(s'.pipe) ==> s'.pipe.c.Null? && !Awake(s');
  }

  lemma ReceiverKeepsInv<T>(s: State<T>, e: Event<T>)
    requires Inv(s) && Enabled(s, e)
    requires e.Call? || e.Check? || e.Pop? || e.GoPassive? || e.SigRead? || e.SigBack? || e.TimedOut?
    ensures Inv(Apply(s, e))
  {
    var s' := Apply(s, e);
    assert Awake(s) == Awake(s');
    if e.SigRead? && s.signals == 2 && !Awake(s) {
      assert false;
    }
  }

  /** Every atomic step of every thread keeps the invariant. */
  lemma StepKeepsInv<T>(s: State<T>, e: Event<T>)
    requires Inv(s) && Enabled(s, e)
    ensures Inv(Apply(s, e))
  {
    match e
    case Lock(i, cmd) => LockKeepsInv(s, i, cmd);
    case Write(i) => WriteKeepsInv(s, i);
    case Cas(i) => CasKeepsInv(s, i);
    case Set(i) => SetKeepsInv(s, i);
    case Unlock(i) => ReleaseKeepsInv(s, e);
    case Signal(i) => ReleaseKeepsInv(s, e);
    case Fetch => FetchKeepsInv(s);
    case Woken => WokenKeepsInv(s);
    case _ => ReceiverKeepsInv(s, e);
  }

  // ---------------------------------------------------------------- safety of every run

  lemma {:induction false} RunKeepsInv<T>(s: State<T>, events: seq<Event<T>>)
    requires Inv(s) && CanRun(s, events)
    ensures Inv(After(s, events))
    decreases |events|
  {
    if events != [] {
      StepKeepsInv(s, events[0]);
      RunKeepsInv(Apply(s, events[0]), events[1..]);
    }
  }

  /** No assertion fails, the eventfd never exceeds 2, and commands arrive once each in the order
      in which the senders wrote them under the lock, for every interleaving of n senders. */
  lemma MailboxSafety<T>(n: nat, events: seq<Event<T>>)
    requires CanRun(Init(n), events)
    ensures var s := After(Init(n), events);
      && !s.receiver.RFailed?
      && s.signals <= 2
      && s.received <= s.pipe.items
      && s.pipe.r.At?
      && (s.receiver.RPop? ==> Enabled(s, Pop))
  {
    InitInv<T>(n);
    RunKeepsInv(Init(n), events);
  }

  /** The receiver sleeps or is about to sleep on the eventfd. */
  predicate Sleeping<T>(s: State<T>) {
    s.receiver.RPoll? || (s.receiver.RIdle? && !s.active)
  }

  /** No lost wake-up: while the receiver is passive, no signal is pending and a written command is
      unread, some sender is about to flush it and find the reader asleep, or is already committed to
      raising the signal. */
  lemma NoLostWakeup<T>(n: nat, events: seq<Event<T>>) returns (i: nat)
    requires CanRun(Init(n), events)
    requires var s := After(Init(n), events);
      Sleeping(s) && s.signals == 0 && |s.received| < |s.pipe.items|
    ensures var s := After(Init(n), events);
      i < |s.senders| && (s.senders[i].SCas? || Owes(s.senders[i]) == 1) && (s.pipe.c.At? ==> Owes(s.senders[i]) == 1)
  {
    InitInv<T>(n);
    RunKeepsInv(Init(n), events);
    var s := After(Init(n), events);
    if Awake(s) {
      i := SumPositive(s.senders, Owes);
    } else {
      i := SumPositive(s.senders, HoldsCount);
    }
  }

  // ---------------------------------------------------------------- what is delivered

  /** The commands handed to send, in the order in which their senders took the lock. */
  function Sent<T>(events: seq<Event<T>>): seq<T> {
    if events == [] then []
    else (if events[0].Lock? then [events[0].cmd] else []) + Sent(events[1..])
  }

  /** Commands whose sender holds the lock and has not written yet. */
  function Pending<T>(senders: seq<SenderPc<T>>): seq<T> {
    if senders == [] then []
    else (if senders[0].SWrite? then [senders[0].cmd] else []) + Pending(senders[1..])
  }

  lemma {:induction false} PendingNone<T>(senders: seq<SenderPc<T>>)
    requires forall k :: 0 <= k < |senders| ==> !senders[k].SWrite?
    ensures Pending(senders) == []
  {
    if senders != [] {
      PendingNone(senders[1..]);
    }
  }

  lemma {:induction false} PendingOne<T>(senders: seq<SenderPc<T>>, i: nat)
    requires i < |senders| && senders[i].SWrite?
    requires forall k :: 0 <= k < |senders| && k != i ==> !senders[k].SWrite?
    ensures Pending(senders) == [senders[i].cmd]
  {
    if i == 0 {
      PendingNone(senders[1..]);
    } else {
      PendingOne(senders[1..], i - 1);
    }
  }

  lemma {:induction false} PendingSame<T>(senders: seq<SenderPc<T>>, i: nat, pc: SenderPc<T>)
    requires i < |senders| && !senders[i].SWrite? && !pc.SWrite?
    ensures Pending(senders[i := pc]) == Pending(senders)
  {
    if i == 0 {
      assert senders[0 := pc][1..] == senders[1..];
    } else {
      assert senders[i := pc][1..] == senders[1..][i - 1 := pc];
      PendingSame(senders[1..], i - 1, pc);
    }
  }

  function Carried<T>(s: State<T>): seq<T> {
    s.pipe.items + Pending(s.senders)
  }

  lemma StepConservesCommands<T>(s: State<T>, e: Event<T>)
    requires Inv(s) && Enabled(s, e)
    ensures Carried(Apply(s, e)) == Carried(s) + Sent([e])
  {
    var s' := Apply(s, e);
    assert Sent([e][1..]) == [];
    if e.Lock? {
      PendingNone(s.senders);
      PendingOne(s'.senders, e.i);
    } else if e.Write? {
      OthersDoNotHold(s, e.i);
      PendingOne(s.senders, e.i);
      PendingNone(s'.senders);
    } else if e.Cas? || e.Set? || e.Unlock? || e.Signal? {
      PendingSame(s.senders, e.i, s'.senders[e.i]);
    }
  }

  lemma SentCons<T>(events: seq<Event<T>>)
    requires events != []
    ensures Sent(events) == Sent([events[0]]) + Sent(events[1..])
  {
    assert Sent([events[0]][1..]) == [];
  }

  lemma {:induction false} RunConservesCommands<T>(s: State<T>, events: seq<Event<T>>)
    requires Inv(s) && CanRun(s, events)
    ensures Carried(After(s, events)) == Carried(s) + Sent(events)
    decreases |events|
  {
    if events != [] {
      var t := Apply(s, events[0]);
      assert Inv(t) by { StepKeepsInv(s, events[0]); }
      StepConservesCommands(s, events[0]);
      RunConservesCommands(t, events[1..]);
      SentCons(events);
      Associate(Carried(s), Sent([events[0]]), Sent(events[1..]));
    }
  }

  lemma Associate<T>(a: seq<T>, b: seq<T>, c: seq<T>)
    ensures (a + b) + c == a + (b + c)
  {
  }

  lemma CarriedFromInit<T>(n: nat, events: seq<Event<T>>)
    requires CanRun(Init(n), events)
    ensures Carried(After(Init(n), events)) == Sent(events)
  {
    InitInv<T>(n);
    RunConservesCommands(Init(n), events);
    PendingNone(Init<T>(n).senders);
  }

  /** The pipe holds exactly the commands sent, once each, in lock order, except at most the one
      whose sender has the lock and is about to write it. */
  lemma PipeHoldsWhatWasSent<T>(n: nat, events: seq<Event<T>>)
    requires CanRun(Init(n), events)
    ensures var s := After(Init(n), events);
      && s.pipe.items <= Sent(events)
      && ((forall i :: 0 <= i < |s.senders| ==> s.senders[i].SIdle?) ==> s.pipe.items == Sent(events))
  {
    CarriedFromInit(n, events);
    var s := After(Init(n), events);
    if forall i :: 0 <= i < |s.senders| ==> s.senders[i].SIdle? {
      PendingNone(s.senders);
    }
  }

  // ---------------------------------------------------------------- delivery

  function SenderWork<T>(pc: SenderPc<T>): nat {
    match pc
    case SIdle => 0
    case SWrite(_) => 5
    case SCas => 4
    case SSet => 3
    case SUnlockWake => 2
    case SUnlock => 1
    case SSignal => 1
  }

  function ReceiverWork<T>(s: State<T>): nat {
    match s.receiver
    case RIdle => if s.active then 9 else 4
    case RCheck(retry) => if retry then 8 else 2
    case RCas(retry) => if retry then 7 else 1
    case RPop(_) => 0
    case RPassive => 6
    case RSigRead => 5
    case RSigBack => 4
    case RPoll => 3
    case RFailed => 0
  }

  /** Steps that remain possible if no new send starts and no receive times out. */
  function Work<T>(s: State<T>): nat
    requires s.pipe.front <= |s.pipe.items|
  {
    20 * Sum(s.senders, SenderWork) + 12 * (|s.pipe.items| - s.pipe.front) + ReceiverWork(s)
  }

  predicate Internal<T>(e: Event<T>) {
    !e.Lock? && !e.TimedOut?
  }

  lemma InternalStepWorks<T>(s: State<T>, e: Event<T>)
    requires Inv(s) && Enabled(s, e) && Internal(e)
    ensures Inv(Apply(s, e)) && Work(Apply(s, e)) < Work(s)
    ensures s.pipe.items <= Apply(s, e).pipe.items
  {
    StepKeepsInv(s, e);
    var s' := Apply(s, e);
    if e.Write? || e.Cas? || e.Set? || e.Unlock? || e.Signal? {
      SumUpdate(s.senders, SenderWork, e.i, s'.senders[e.i]);
    }
  }

  /** With no internal step possible, nobody is inside send and the receiver waits in poll. */
  lemma QuiescentPcs<T(!new)>(s: State<T>)
    requires Quiescent(s) && !s.receiver.RFailed?
    requires s.receiver.RPop? ==> s.pipe.front < |s.pipe.items|
    ensures s.receiver.RPoll? && s.signals == 0
    ensures forall i :: 0 <= i < |s.senders| ==> s.senders[i].SIdle?
  {
    assert !Enabled(s, Call) && !Enabled(s, Check) && !Enabled(s, Fetch) && !Enabled(s, Pop);
    assert !Enabled(s, GoPassive) && !Enabled(s, SigRead) && !Enabled(s, SigBack) && !Enabled(s, Woken);
    forall i | 0 <= i < |s.senders| ensures s.senders[i].SIdle? {
      assert !Enabled(s, Write(i)) && !Enabled(s, Cas(i)) && !Enabled(s, Set(i));
      assert !Enabled(s, Unlock(i)) && !Enabled(s, Signal(i));
    }
  }

  /** A state in which no internal step is possible has delivered everything. */
  lemma QuiescentIsDelivered<T(!new)>(s: State<T>)
    requires Inv(s) && Quiescent(s)
    ensures s.received == s.pipe.items == Carried(s)
  {
    QuiescentPcs(s);
    SumZero(s.senders, Owes);
    SumZero(s.senders, HoldsCount);
    PendingNone(s.senders);
  }

  lemma {:induction false} NothingSent<T>(events: seq<Event<T>>)
    requires forall i :: 0 <= i < |events| ==> Internal(events[i])
    ensures Sent(events) == []
  {
    if events != [] {
      NothingSent(events[1..]);
    }
  }

  ghost predicate Quiescent<T(!new)>(s: State<T>) {
    forall e: Event<T> :: Internal(e) ==> !Enabled(s, e)
  }

  lemma {:induction false} InternalRunBound<T>(s: State<T>, events: seq<Event<T>>)
    requires Inv(s) && CanRun(s, events)
    requires forall i :: 0 <= i < |events| ==> Internal(events[i])
    ensures Inv(After(s, events))
    ensures |events| + Work(After(s, events)) <= Work(s)
    ensures s.pipe.items <= After(s, events).pipe.items
    decreases |events|
  {
    if events != [] {
      InternalStepWorks(s, events[0]);
      InternalRunBound(Apply(s, events[0]), events[1..]);
    }
  }

  /** Delivery: after any interleaving, if no new send starts and the receiver keeps calling a
      blocking recv, at most Work(s) further steps are possible whatever the schedule, and when no
      step is left the commands received are exactly the commands sent, in lock order. */
  lemma EverythingIsDelivered<T(!new)>(n: nat, events: seq<Event<T>>, more: seq<Event<T>>)
    requires CanRun(Init(n), events) && CanRun(After(Init(n), events), more)
    requires forall i :: 0 <= i < |more| ==> Internal(more[i])
    ensures var s := After(Init(n), events);
      var s' := After(s, more);
      && s.pipe.front <= |s.pipe.items| && |more| <= Work(s)
      && s.pipe.items <= s'.pipe.items
      && (Quiescent(s') ==> s'.received == s'.pipe.items == Sent(events))
  {
    InitInv<T>(n);
    RunKeepsInv(Init(n), events);
    var s := After(Init(n), events);
    InternalRunBound(s, more);
    var s' := After(s, more);
    assert Carried(s') == Sent(events) by {
      CarriedFromInit(n, events);
      RunConservesCommands(s, more);
      NothingSent(more);
    }
    if Quiescent(s') {
      QuiescentIsDelivered(s');
    }
  }

  // ---------------------------------------------------------------- whole calls

  /** The mailbox object with each call run to completion: a plain FIFO queue whose internal
      assertions hold. */
  class MailboxObject<T(0)> {
    const cpipe: YPipe<T>
    var signals: nat
    var active: bool

    ghost predicate Valid()
      reads this, cpipe
    {
      && cpipe.Valid()
      && cpipe.w == cpipe.f == |cpipe.items|
      && cpipe.r.At?
      && (active ==> cpipe.c.At? && signals == 1)
      && (!active ==> cpipe.r == At(cpipe.front))
      && (!active && cpipe.c.At? ==> cpipe.front < cpipe.w && signals == 1)
      && (!active && cpipe.c.Null? ==> signals == 0)
    }

    ghost function Unread(): seq<T>
      reads this, cpipe
      requires Valid()
    {
      cpipe.items[cpipe.front..]
    }

    constructor ()
      ensures Valid() && fresh(cpipe) && Unread() == []
    {
      cpipe := new YPipe<T>();
      signals := 0;
      active := false;
      new;
      var ok, _ := cpipe.Read();
      assert !ok;
    }

    method Send(cmd: T)
      requires Valid()
      modifies this, cpipe
      ensures Valid() && Unread() == old(Unread()) + [cmd]
    {
      cpipe.Write(cmd, false);
      var ok := cpipe.Flush();
      if !ok {
        signals := signals + 1;
      }
    }

    /** With nobody else running, a receive succeeds exactly when something is unread. */
    method Recv() returns (ok: bool, cmd: T)
      requires Valid()
      modifies this, cpipe
      ensures Valid()
      ensures ok <==> old(Unread()) != []
      ensures ok ==> [cmd] + Unread() == old(Unread())
      ensures !ok ==> Unread() == []
    {
      cmd := *;
      if active {
        ok, cmd := cpipe.Read();
        if ok {
          return;
        }
        active := false;
        var dummy := signals;
        assert dummy == 1;
        signals := 0;
      }
      if signals == 0 {
        ok := false;
        return;
      }
      active := true;
      ok, cmd := cpipe.Read();
      assert ok;
    }
  }
}
