/** Stopping and restarting the world with signals, as atomic steps of the stopping thread and of the
    threads it stops. Suspend signals are not resent (GC_retry_signals is off). */
module StopWorld {
  import opened Options

  type Tid = nat

  /** Where a thread is. The counts are the value of GC_stop_count its signal handler has read. */
  datatype Mode =
    | Client                    // running client code
    | Blocked                   // between GC_start_blocking and GC_end_blocking
    | Ended                     // FINISHED
    | Entered                   // in the suspend handler, nothing read yet
    | Counted(count: nat)       // has read GC_stop_count
    | Posted(count: nat)        // has posted the semaphore
    | Waiting(count: nat)       // has set last_stop_count; in sigsuspend
    | Spinning(count: nat)      // woken; about to look at GC_world_is_stopped
    | SawStopped(count: nat)    // saw it set; about to look at GC_stop_count

  datatype Thread = Thread(mode: Mode, last: nat, suspend: bool, restart: bool)   // pending signals

  /** The program counter of the thread that stops the world. */
  datatype Pc =
    | Idle
    | Bumped                              // GC_stop_count incremented
    | Signalling(todo: set<Tid>, sent: nat)
    | Collecting(left: nat)               // sem_wait, `left` more times
    | Stopped                             // GC_stop_world has returned
    | Restarting(todo: set<Tid>)

  datatype State = State(
    threads: map<Tid, Thread>,
    stopCount: nat,
    worldIsStopped: bool,
    sem: nat,
    lock: Option<Tid>,
    pc: Pc
  )

  ghost predicate Is(s: State, t: Tid, m: Mode) {
    t in s.threads && s.threads[t].mode == m
  }

  function Set(s: State, t: Tid, th: Thread): State {
    s.(threads := s.threads[t := th])
  }

  /** Is t inside the handler, past its acknowledgement, for stop number c? */
  predicate Parked(th: Thread, c: nat) {
    (th.mode.Posted? || th.mode.Waiting? || th.mode.Spinning? || th.mode.SawStopped?) && th.mode.count == c
  }

  /** t still owes an acknowledgement. */
  predicate Owes(th: Thread) {
    th.suspend || th.mode.Entered? || th.mode.Counted?
  }

  function Owing(s: State): set<Tid> {
    set t | t in s.threads && Owes(s.threads[t])
  }

  // ---------------------------------------------------------------- steps

  datatype Step =
    | Mutate(t: Tid)
    | StartThread(t: Tid) | EndThread(t: Tid) | StartBlocking(t: Tid) | EndBlocking(t: Tid)
    | TakeLock(t: Tid) | DropLock
    | Bump | Flag | Signal(t: Tid) | AllSignalled | SemWait | AllAcknowledged
    | Unflag | Restart(t: Tid) | AllRestarted
    | DeliverSuspend(t: Tid) | ReadCount(t: Tid) | Post(t: Tid) | Duplicate(t: Tid) | Acknowledge(t: Tid)
    | Wake(t: Tid) | SpuriousWake(t: Tid) | DeliverRestart(t: Tid)
    | SeeFlag(t: Tid) | SeeCount(t: Tid)

  /** The threads GC_suspend_all and GC_start_world go through. */
  function Others(s: State, me: Tid): set<Tid> {
    s.threads.Keys - {me}
  }

  ghost predicate Next(s: State, s': State, a: Step) {
    match a
    // the client; thread creation, exit and blocking calls take the allocation lock
    case Mutate(t) => Is(s, t, Client) && s' == s
    case StartThread(t) => t !in s.threads && s.lock == None && s' == Set(s, t, Thread(Client, 0, false, false))
    case EndThread(t) => Is(s, t, Client) && s.lock == None && s' == Set(s, t, s.threads[t].(mode := Ended))
    case StartBlocking(t) => Is(s, t, Client) && s.lock == None && s' == Set(s, t, s.threads[t].(mode := Blocked))
    case EndBlocking(t) => Is(s, t, Blocked) && s.lock == None && s' == Set(s, t, s.threads[t].(mode := Client))
    case TakeLock(t) => Is(s, t, Client) && s.lock == None && s' == s.(lock := Some(t))
    case DropLock => s.lock.Some? && s.pc == Idle && s' == s.(lock := None)
    // GC_stop_world
    case Bump => s.lock.Some? && s.pc == Idle && s' == s.(stopCount := s.stopCount + 1, pc := Bumped)
    case Flag => s.lock.Some? && s.pc == Bumped &&
      s' == s.(worldIsStopped := true, pc := Signalling(Others(s, s.lock.value), 0))
    case Signal(t) =>
      && s.pc.Signalling? && t in s.pc.todo && t in s.threads
      && var th := s.threads[t];
         var rest := s.pc.todo - {t};
         if th.mode == Ended || th.last == s.stopCount || th.mode == Blocked then
           s' == s.(pc := Signalling(rest, s.pc.sent))
         else
           s' == Set(s, t, th.(suspend := true)).(pc := Signalling(rest, s.pc.sent + 1))
    case AllSignalled => s.pc.Signalling? && s.pc.todo == {} && s' == s.(pc := Collecting(s.pc.sent))
    case SemWait => s.pc.Collecting? && s.pc.left > 0 && s.sem > 0 &&
      s' == s.(sem := s.sem - 1, pc := Collecting(s.pc.left - 1))
    case AllAcknowledged => s.pc == Collecting(0) && s' == s.(pc := Stopped)
    // GC_start_world
    case Unflag => s.pc == Stopped && s.lock.Some? &&
      s' == s.(worldIsStopped := false, pc := Restarting(Others(s, s.lock.value)))
    case Restart(t) =>
      && s.pc.Restarting? && t in s.pc.todo && t in s.threads
      && var th := s.threads[t];
         var rest := s.pc.todo - {t};
         if th.mode == Ended || th.mode == Blocked then s' == s.(pc := Restarting(rest))
         else s' == Set(s, t, th.(restart := true)).(pc := Restarting(rest))
    case AllRestarted => s.pc == Restarting({}) && s' == s.(pc := Idle)
    // GC_suspend_handler_inner; the suspend signal is masked inside the handler
    case DeliverSuspend(t) => Is(s, t, Client) && s.threads[t].suspend &&
      s' == Set(s, t, s.threads[t].(mode := Entered, suspend := false))
    case ReadCount(t) => Is(s, t, Entered) && s' == Set(s, t, s.threads[t].(mode := Counted(s.stopCount)))
    case Post(t) =>
      && t in s.threads && s.threads[t].mode.Counted? && s.threads[t].last != s.threads[t].mode.count
      && s' == Set(s, t, s.threads[t].(mode := Posted(s.threads[t].mode.count))).(sem := s.sem + 1)
    case Duplicate(t) =>
      && t in s.threads && s.threads[t].mode.Counted? && s.threads[t].last == s.threads[t].mode.count
      && s' == Set(s, t, s.threads[t].(mode := Client))
    case Acknowledge(t) =>
      && t in s.threads && s.threads[t].mode.Posted?
      && s' == Set(s, t, s.threads[t].(mode := Mode.Waiting(s.threads[t].mode.count), last := s.threads[t].mode.count))
    // sigsuspend returns for the restart signal, or for some other signal that is not blocked
    case Wake(t) =>
      && t in s.threads && s.threads[t].mode.Waiting? && s.threads[t].restart
      && s' == Set(s, t, s.threads[t].(mode := Spinning(s.threads[t].mode.count), restart := false))
    case SpuriousWake(t) =>
      && t in s.threads && s.threads[t].mode.Waiting?
      && s' == Set(s, t, s.threads[t].(mode := Spinning(s.threads[t].mode.count)))
    case DeliverRestart(t) =>
      && t in s.threads && s.threads[t].mode in {Client, Blocked, Ended} && s.threads[t].restart
      && s' == Set(s, t, s.threads[t].(restart := false))
    case SeeFlag(t) =>
      && t in s.threads && s.threads[t].mode.Spinning?
      && s' == Set(s, t, s.threads[t].(mode := if s.worldIsStopped then SawStopped(s.threads[t].mode.count)
        else Client))
    case SeeCount(t) =>
      && t in s.threads && s.threads[t].mode.SawStopped?
      && var c := s.threads[t].mode.count;
         s' == Set(s, t, s.threads[t].(mode := if s.stopCount == c then Spinning(c) else Client))
  }

  ghost predicate Init(s: State) {
    && (forall t :: t in s.threads ==> s.threads[t] == Thread(Client, 0, false, false))
    && s.stopCount == 0 && !s.worldIsStopped && s.sem == 0 && s.lock == None && s.pc == Idle
  }

  ghost predicate IsRun(run: seq<State>, steps: seq<Step>) {
    && |run| == |steps| + 1 && Init(run[0])
    && forall k :: 0 <= k < |steps| ==> Next(run[k], run[k + 1], steps[k])
  }

  // ---------------------------------------------------------------- the invariant

  /** A stop is under way: the flag is set and threads are expected to stop. */
  predicate Stopping(pc: Pc) {
    pc.Signalling? || pc.Collecting? || pc.Stopped?
  }

  /** Threads the stopping thread has not come to yet. */
  function Todo(pc: Pc): set<Tid> {
    match pc
    case Signalling(todo, sent) => todo
    case Restarting(todo) => todo
    case _ => {}
  }

  predicate Away(th: Thread) {
    th.mode.Blocked? || th.mode.Ended?
  }

  /** What holds of one thread, given GC_stop_count, the stopping thread's place and the lock. */
  ghost predicate ThreadOk(n: nat, pc: Pc, lock: Option<Tid>, t: Tid, th: Thread) {
    && th.last <= n
    && (th.mode.Posted? ==> th.last < th.mode.count <= n)
    && (th.mode.Waiting? || th.mode.Spinning? || th.mode.SawStopped? ==> th.last == th.mode.count)
    // signals and acknowledgements belong to the stop under way
    && (Owes(th) ==> (pc.Signalling? || pc.Collecting?) && th.last < n && t !in Todo(pc) && lock != Some(t))
    && (Owes(th) ==> !Parked(th, n) && !Away(th))
    && (th.mode.Counted? ==> th.mode.count == n)
    && (th.mode.Counted? || th.mode.Entered? ==> !th.suspend)
    // threads already dealt with are parked, or owe
    && (Stopping(pc) && t !in Todo(pc) && lock != Some(t) ==> Away(th) || Owes(th) || Parked(th, n))
    // threads not yet dealt with have not acknowledged this stop
    && (pc.Bumped? || (pc.Signalling? && t in Todo(pc)) ==> th.last < n && !Parked(th, n))
    // no thread sleeps without a restart signal on its way
    && ((th.mode.Posted? || th.mode.Waiting?) && !(th.mode.count == n && (Stopping(pc) || t in Todo(pc))) ==>
      th.restart)
  }

  ghost predicate CtrlOk(s: State) {
    && (s.pc != Idle ==> s.lock.Some?)
    && (s.lock.Some? ==> Is(s, s.lock.value, Client) && !s.threads[s.lock.value].suspend)
    && (s.worldIsStopped <==> Stopping(s.pc))
    && (s.lock.Some? ==> s.lock.value !in Todo(s.pc))
    && Todo(s.pc) <= s.threads.Keys
    && (Stopping(s.pc) || s.pc.Bumped? ==> s.stopCount > 0)
    && (match s.pc
        case Signalling(todo, sent) => sent == |Owing(s)| + s.sem
        case Collecting(left) => left == |Owing(s)| + s.sem
        case _ => s.sem == 0)
  }

  ghost predicate Inv(s: State) {
    CtrlOk(s) && forall t :: t in s.threads ==> ThreadOk(s.stopCount, s.pc, s.lock, t, s.threads[t])
  }

  lemma InitHolds(s: State)
    requires Init(s)
    ensures Inv(s)
  {
  }

  lemma OwingSet(s: State, s': State, t: Tid, th: Thread)
    requires t in s.threads && s'.threads == s.threads[t := th]
    ensures |Owing(s')| == |Owing(s)| + (if Owes(th) then 1 else 0) - (if Owes(s.threads[t]) then 1 else 0)
  {
    var rest := Owing(s) - {t};
    assert Owing(s') == if Owes(th) then rest + {t} else rest;
    assert Owing(s) == if Owes(s.threads[t]) then rest + {t} else rest;
  }

  /** Steps of the client that take no part in stopping. */
  lemma ClientStepKeeps(s: State, s': State, a: Step)
    requires Inv(s) && Next(s, s', a)
    requires a.Mutate? || a.StartThread? || a.EndThread? || a.StartBlocking? || a.EndBlocking? || a.TakeLock? ||
             a.DropLock?
    ensures Inv(s')
  {
    forall t | t in s'.threads
      ensures ThreadOk(s'.stopCount, s'.pc, s'.lock, t, s'.threads[t])
    {
      if t in s.threads {
        assert ThreadOk(s.stopCount, s.pc, s.lock, t, s.threads[t]);
      }
    }
  }

  lemma BumpKeeps(s: State, s': State, a: Step)
    requires Inv(s) && Next(s, s', a) && (a.Bump? || a.Flag?)
    ensures Inv(s')
  {
    forall t | t in s'.threads
      ensures ThreadOk(s'.stopCount, s'.pc, s'.lock, t, s'.threads[t])
    {
      assert ThreadOk(s.stopCount, s.pc, s.lock, t, s.threads[t]);
    }
    assert Owing(s') == {};
  }

  lemma SignalThread(n: nat, todo: set<Tid>, sent: nat, k: nat, lock: Option<Tid>, x: Tid, t: Tid, th: Thread)
    requires ThreadOk(n, Signalling(todo, sent), lock, t, th) && x in todo && lock != Some(x)
    ensures t != x ==> ThreadOk(n, Signalling(todo - {x}, k), lock, t, th)
    ensures t == x && Away(th) ==> ThreadOk(n, Signalling(todo - {x}, k), lock, t, th)
    ensures t == x && !Away(th) ==> ThreadOk(n, Signalling(todo - {x}, k), lock, t, th.(suspend := true))
  {
  }

  lemma SignalKeeps(s: State, s': State, x: Tid)
    requires Inv(s) && Next(s, s', Signal(x))
    ensures Inv(s')
  {
    assert ThreadOk(s.stopCount, s.pc, s.lock, x, s.threads[x]);
    OwingSet(s, s', x, s'.threads[x]);
    forall t | t in s'.threads
      ensures ThreadOk(s'.stopCount, s'.pc, s'.lock, t, s'.threads[t])
    {
      SignalThread(s.stopCount, s.pc.todo, s.pc.sent, s'.pc.sent, s.lock, x, t, s.threads[t]);
    }
  }

  lemma CollectKeeps(s: State, s': State, a: Step)
    requires Inv(s) && Next(s, s', a) && (a.AllSignalled? || a.SemWait? || a.AllAcknowledged?)
    ensures Inv(s')
  {
    assert Owing(s') == Owing(s);
    forall t | t in s'.threads
      ensures ThreadOk(s'.stopCount, s'.pc, s'.lock, t, s'.threads[t])
    {
      assert ThreadOk(s.stopCount, s.pc, s.lock, t, s.threads[t]);
      assert Owes(s.threads[t]) ==> t in Owing(s);
    }
  }

  lemma RestartKeeps(s: State, s': State, a: Step)
    requires Inv(s) && Next(s, s', a) && (a.Unflag? || a.Restart? || a.AllRestarted?)
    ensures Inv(s')
  {
    forall t | t in s'.threads
      ensures ThreadOk(s'.stopCount, s'.pc, s'.lock, t, s'.threads[t])
    {
      assert ThreadOk(s.stopCount, s.pc, s.lock, t, s.threads[t]);
    }
  }

  /** A step inside one thread leaves the others as they were. */
  lemma LocalStep(s: State, s': State, x: Tid)
    requires Inv(s) && x in s.threads && x in s'.threads
    requires s' == s.(threads := s.threads[x := s'.threads[x]], sem := s'.sem)
    requires ThreadOk(s.stopCount, s.pc, s.lock, x, s'.threads[x])
    requires CtrlOk(s')
    ensures Inv(s')
  {
  }

  lemma DeliverSuspendKeeps(s: State, s': State, x: Tid)
    requires Inv(s) && Next(s, s', DeliverSuspend(x))
    ensures Inv(s')
  {
    assert ThreadOk(s.stopCount, s.pc, s.lock, x, s.threads[x]);
    OwingSet(s, s', x, s'.threads[x]);
    LocalStep(s, s', x);
  }

  lemma ReadCountKeeps(s: State, s': State, x: Tid)
    requires Inv(s) && Next(s, s', ReadCount(x))
    ensures Inv(s')
  {
    assert ThreadOk(s.stopCount, s.pc, s.lock, x, s.threads[x]);
    OwingSet(s, s', x, s'.threads[x]);
    LocalStep(s, s', x);
  }

  lemma PostKeeps(s: State, s': State, x: Tid)
    requires Inv(s) && Next(s, s', Post(x))
    ensures Inv(s')
  {
    assert ThreadOk(s.stopCount, s.pc, s.lock, x, s.threads[x]);
    OwingSet(s, s', x, s'.threads[x]);
    LocalStep(s, s', x);
  }

  lemma AcknowledgeKeeps(s: State, s': State, x: Tid)
    requires Inv(s) && Next(s, s', Acknowledge(x))
    ensures Inv(s')
  {
    assert ThreadOk(s.stopCount, s.pc, s.lock, x, s.threads[x]);
    OwingSet(s, s', x, s'.threads[x]);
    LocalStep(s, s', x);
  }

  lemma WakeKeeps(s: State, s': State, x: Tid)
    requires Inv(s) && Next(s, s', Wake(x))
    ensures Inv(s')
  {
    assert ThreadOk(s.stopCount, s.pc, s.lock, x, s.threads[x]);
    OwingSet(s, s', x, s'.threads[x]);
    LocalStep(s, s', x);
  }

  lemma SpuriousWakeKeeps(s: State, s': State, x: Tid)
    requires Inv(s) && Next(s, s', SpuriousWake(x))
    ensures Inv(s')
  {
    assert ThreadOk(s.stopCount, s.pc, s.lock, x, s.threads[x]);
    OwingSet(s, s', x, s'.threads[x]);
    LocalStep(s, s', x);
  }

  lemma DeliverRestartKeeps(s: State, s': State, x: Tid)
    requires Inv(s) && Next(s, s', DeliverRestart(x))
    ensures Inv(s')
  {
    assert ThreadOk(s.stopCount, s.pc, s.lock, x, s.threads[x]);
    OwingSet(s, s', x, s'.threads[x]);
    LocalStep(s, s', x);
  }

  lemma SeeFlagKeeps(s: State, s': State, x: Tid)
    requires Inv(s) && Next(s, s', SeeFlag(x))
    ensures Inv(s')
  {
    assert ThreadOk(s.stopCount, s.pc, s.lock, x, s.threads[x]);
    OwingSet(s, s', x, s'.threads[x]);
    LocalStep(s, s', x);
  }

  lemma SeeCountKeeps(s: State, s': State, x: Tid)
    requires Inv(s) && Next(s, s', SeeCount(x))
    ensures Inv(s')
  {
    assert ThreadOk(s.stopCount, s.pc, s.lock, x, s.threads[x]);
    OwingSet(s, s', x, s'.threads[x]);
    LocalStep(s, s', x);
  }

  lemma StepKeeps(s: State, s': State, a: Step)
    requires Inv(s) && Next(s, s', a) && !a.Duplicate?
    ensures Inv(s')
  {
    hide Inv, Next;
    match a {
      case Mutate(t) => ClientStepKeeps(s, s', a);
      case StartThread(t) => ClientStepKeeps(s, s', a);
      case EndThread(t) => ClientStepKeeps(s, s', a);
      case StartBlocking(t) => ClientStepKeeps(s, s', a);
      case EndBlocking(t) => ClientStepKeeps(s, s', a);
      case TakeLock(t) => ClientStepKeeps(s, s', a);
      case DropLock => ClientStepKeeps(s, s', a);
      case Bump => BumpKeeps(s, s', a);
      case Flag => BumpKeeps(s, s', a);
      case Signal(t) => SignalKeeps(s, s', t);
      case AllSignalled => CollectKeeps(s, s', a);
      case SemWait => CollectKeeps(s, s', a);
      case AllAcknowledged => CollectKeeps(s, s', a);
      case Unflag => RestartKeeps(s, s', a);
      case Restart(t) => RestartKeeps(s, s', a);
      case AllRestarted => RestartKeeps(s, s', a);
      case DeliverSuspend(t) => DeliverSuspendKeeps(s, s', t);
      case ReadCount(t) => ReadCountKeeps(s, s', t);
      case Post(t) => PostKeeps(s, s', t);
      case Acknowledge(t) => AcknowledgeKeeps(s, s', t);
      case Wake(t) => WakeKeeps(s, s', t);
      case SpuriousWake(t) => SpuriousWakeKeeps(s, s', t);
      case DeliverRestart(t) => DeliverRestartKeeps(s, s', t);
      case SeeFlag(t) => SeeFlagKeeps(s, s', t);
      case SeeCount(t) => SeeCountKeeps(s, s', t);
    }
  }

  /** The "duplicate suspend signal" branch of the handler is never taken. */
  lemma NeverDuplicate(s: State, t: Tid)
    requires Inv(s) && t in s.threads && s.threads[t].mode.Counted?
    ensures s.threads[t].last < s.threads[t].mode.count == s.stopCount
  {
    assert ThreadOk(s.stopCount, s.pc, s.lock, t, s.threads[t]);
  }

  // ---------------------------------------------------------------- whole runs

  lemma {:induction false} RunKeeps(run: seq<State>, steps: seq<Step>, k: nat)
    requires IsRun(run, steps) && k < |run|
    ensures Inv(run[k])
    ensures k < |steps| ==> !steps[k].Duplicate?
  {
    hide Inv, Init, Next;
    if k == 0 {
      InitHolds(run[0]);
    } else {
      RunKeeps(run, steps, k - 1);
      assert Next(run[k - 1], run[k], steps[k - 1]);
      StepKeeps(run[k - 1], run[k], steps[k - 1]);
    }
    if k < |steps| {
      assert Next(run[k], run[k + 1], steps[k]);
      NoDuplicateStep(run[k], run[k + 1], steps[k]);
    }
  }

  lemma NoDuplicateStep(s: State, s': State, a: Step)
    requires Inv(s) && Next(s, s', a)
    ensures !a.Duplicate?
  {
    hide Inv;
    if a.Duplicate? {
      NeverDuplicate(s, a.t);
    }
  }

  /** When GC_stop_world has returned, in any run: every other registered thread has finished, is in a
      blocking call, or is inside the handler and has acknowledged this very stop; no suspend signal is
      outstanding and the semaphore is back at zero. */
  lemma WorldIsStopped(run: seq<State>, steps: seq<Step>, k: nat)
    requires IsRun(run, steps) && k < |run| && run[k].pc == Stopped
    ensures run[k].lock.Some? && run[k].sem == 0 && Owing(run[k]) == {}
    ensures forall t :: t in run[k].threads && run[k].lock != Some(t) ==>
              Away(run[k].threads[t]) || Parked(run[k].threads[t], run[k].stopCount)
  {
    RunKeeps(run, steps, k);
    var s := run[k];
    forall t | t in s.threads
      ensures !Owes(s.threads[t])
      ensures s.lock != Some(t) ==> Away(s.threads[t]) || Parked(s.threads[t], s.stopCount)
    {
      assert ThreadOk(s.stopCount, s.pc, s.lock, t, s.threads[t]);
    }
  }

  /** As long as GC_start_world is not called, the world stays stopped, spurious wake-ups included: the
      stopping thread keeps the lock, no thread starts, ends, or leaves a blocking call, and every step of
      the client is the stopping thread's own. */
  lemma {:induction false} StaysStopped(run: seq<State>, steps: seq<Step>, j: nat, k: nat)
    requires IsRun(run, steps) && j <= k < |run| && run[j].pc == Stopped
    requires forall i :: j <= i < k ==> steps[i] != Unflag
    ensures run[k].pc == Stopped && run[k].lock == run[j].lock && run[k].stopCount == run[j].stopCount
    ensures run[k].threads.Keys == run[j].threads.Keys
    ensures forall t :: t in run[j].threads && Away(run[j].threads[t]) ==>
            run[k].threads[t].mode == run[j].threads[t].mode
    ensures k < |steps| ==> forall t: Tid :: steps[k] == Mutate(t) ==> run[j].lock == Some(t)
  {
    hide Next;
    if k > j {
      StaysStopped(run, steps, j, k - 1);
      WorldIsStopped(run, steps, k - 1);
      assert Next(run[k - 1], run[k], steps[k - 1]);
      OneStoppedStep(run[k - 1], run[k], steps[k - 1]);
      forall t | t in run[j].threads && Away(run[j].threads[t])
        ensures run[k].threads[t].mode == run[j].threads[t].mode
      {
        assert t !in Owing(run[k - 1]);
      }
    }
    WorldIsStopped(run, steps, k);
    if k < |steps| && steps[k].Mutate? {
      assert Next(run[k], run[k + 1], steps[k]);
      MoverRuns(run[k], run[k + 1], steps[k].t);
    }
  }

  lemma OneStoppedStep(s: State, s': State, a: Step)
    requires s.pc == Stopped && s.lock.Some? && Next(s, s', a) && a != Unflag
    ensures s'.pc == Stopped && s'.lock == s.lock && s'.stopCount == s.stopCount && s'.threads.Keys == s.threads.Keys
    ensures forall t :: t in s.threads && Away(s.threads[t]) && !s.threads[t].suspend ==>
            s'.threads[t].mode == s.threads[t].mode
  {
  }

  /** Only a thread that runs as a client moves. */
  lemma MoverRuns(s: State, s': State, t: Tid)
    requires Next(s, s', Mutate(t))
    ensures t in s.threads && s.threads[t].mode == Client
  {
  }

  /** No restart signal is lost: once the world runs again, a thread that still sleeps in the handler has
      a restart signal pending, so its sigsuspend returns. */
  lemma NoLostRestart(run: seq<State>, steps: seq<Step>, k: nat, t: Tid)
    requires IsRun(run, steps) && k < |run| && run[k].pc == Idle && t in run[k].threads
    ensures run[k].threads[t].mode.Posted? || run[k].threads[t].mode.Waiting? ==> run[k].threads[t].restart
  {
    RunKeeps(run, steps, k);
    assert ThreadOk(run[k].stopCount, run[k].pc, run[k].lock, t, run[k].threads[t]);
  }

  // ---------------------------------------------------------------- nobody waits for ever

  ghost predicate ReachN(n: nat, s: State, t: State) {
    if n == 0 then s == t else exists u, a :: ReachN(n - 1, s, u) && Next(u, t, a)
  }

  /** Some sequence of steps leads from s to t. */
  ghost predicate Reaches(s: State, t: State) {
    exists n: nat :: ReachN(n, s, t)
  }

  lemma ReachRefl(s: State)
    ensures Reaches(s, s)
  {
    assert ReachN(0, s, s);
  }

  lemma ReachStep(s: State, u: State, t: State, a: Step)
    requires Reaches(s, u) && Next(u, t, a)
    ensures Reaches(s, t)
  {
    var n: nat :| ReachN(n, s, u);
    assert ReachN(n + 1, s, t);
  }

  lemma {:induction false} ReachTransN(n: nat, s: State, u: State, t: State)
    requires Reaches(s, u) && ReachN(n, u, t)
    ensures Reaches(s, t)
  {
    hide Next;
    if n > 0 {
      var v, a :| ReachN(n - 1, u, v) && Next(v, t, a);
      ReachTransN(n - 1, s, u, v);
      ReachStep(s, v, t, a);
    }
  }

  lemma ReachTrans(s: State, u: State, t: State)
    requires Reaches(s, u) && Reaches(u, t)
    ensures Reaches(s, t)
  {
    var n: nat :| ReachN(n, u, t);
    ReachTransN(n, s, u, t);
  }

  predicate InHandler(th: Thread) {
    !th.mode.Client? && !Away(th)
  }

  /** What a thread past its acknowledgement does by itself. */
  predicate OwnStep(a: Step, t: Tid) {
    a == Acknowledge(t) || a == Wake(t) || a == SpuriousWake(t) || a == SeeFlag(t) || a == SeeCount(t)
  }

  /** How far a thread past its acknowledgement is from the client. */
  function ReleaseRank(th: Thread): nat {
    match th.mode
    case Posted(_) => 4
    case Waiting(_) => 3
    case SawStopped(_) => 2
    case Spinning(_) => 1
    case _ => 0
  }

  /** The own step that a thread can take once the world runs again. */
  function NextOwn(th: Thread, t: Tid): Step {
    match th.mode
    case Posted(_) => Acknowledge(t)
    case Waiting(_) => Wake(t)
    case Spinning(_) => SeeFlag(t)
    case _ => SeeCount(t)
  }

  function AfterOwn(s: State, t: Tid): State
    requires t in s.threads && s.pc == Idle
  {
    var th := s.threads[t];
    match th.mode
    case Posted(c) => Set(s, t, th.(mode := Mode.Waiting(c), last := c))
    case Waiting(c) => Set(s, t, th.(mode := Spinning(c), restart := false))
    case Spinning(c) => Set(s, t, th.(mode := Client))
    case SawStopped(c) => Set(s, t, th.(mode := if s.stopCount == c then Spinning(c) else Client))
    case _ => s
  }

  /** Release, in any run: when no stop is under way, a thread still inside the handler can take a step of its own,
      and every such step brings it closer to the client and disturbs nobody else. */
  lemma ReleaseStep(run: seq<State>, steps: seq<Step>, k: nat, t: Tid)
    requires IsRun(run, steps) && k < |run| && run[k].pc == Idle && t in run[k].threads && InHandler(run[k].threads[t])
    ensures exists a, s' :: OwnStep(a, t) && Next(run[k], s', a)
    ensures forall a, s' :: OwnStep(a, t) && Next(run[k], s', a) ==>
              t in s'.threads && ReleaseRank(s'.threads[t]) < ReleaseRank(run[k].threads[t])
              && s' == Set(run[k], t, s'.threads[t])
  {
    hide Inv, Next, IsRun;
    RunKeeps(run, steps, k);
    CanReturn(run[k], t);
    assert OwnStep(NextOwn(run[k].threads[t], t), t);
    forall a, s' | OwnStep(a, t) && Next(run[k], s', a)
      ensures t in s'.threads && ReleaseRank(s'.threads[t]) < ReleaseRank(run[k].threads[t])
      ensures s' == Set(run[k], t, s'.threads[t])
    {
      OwnStepLowers(run[k], s', a, t);
    }
  }

  lemma OwnStepLowers(s: State, s': State, a: Step, t: Tid)
    requires !s.worldIsStopped && t in s.threads && OwnStep(a, t) && Next(s, s', a)
    ensures t in s'.threads && ReleaseRank(s'.threads[t]) < ReleaseRank(s.threads[t]) && s' == Set(s, t, s'.threads[t])
  {
  }

  lemma CanReturn(s: State, t: Tid)
    requires Inv(s) && s.pc == Idle && t in s.threads && InHandler(s.threads[t])
    ensures Next(s, AfterOwn(s, t), NextOwn(s.threads[t], t))
    ensures ReleaseRank(AfterOwn(s, t).threads[t]) < ReleaseRank(s.threads[t])
    ensures !s.worldIsStopped
  {
    assert ThreadOk(s.stopCount, s.pc, s.lock, t, s.threads[t]);
  }

  /** ... so its own steps alone bring it back to the client. */
  lemma {:induction false} Released(s: State, t: Tid) returns (s': State)
    requires Inv(s) && s.pc == Idle && t in s.threads && !Away(s.threads[t])
    ensures Reaches(s, s') && t in s'.threads && s'.threads[t].mode == Client && s' == Set(s, t, s'.threads[t])
    decreases ReleaseRank(s.threads[t])
  {
    hide Inv;
    ReachRefl(s);
    s' := s;
    if InHandler(s.threads[t]) {
      CanReturn(s, t);
      var u := AfterOwn(s, t);
      StepKeeps(s, u, NextOwn(s.threads[t], t));
      ReachStep(s, s, u, NextOwn(s.threads[t], t));
      s' := Released(u, t);
      ReachTrans(s, u, s');
    } else {
      assert s.threads[t := s.threads[t]] == s.threads;
    }
  }

  /** How far a thread that owes an acknowledgement is from posting it. A thread still inside the handler for an
      earlier stop has to come out first. */
  function PostRank(th: Thread): nat {
    match th.mode
    case Posted(_) => 7
    case Waiting(_) => 6
    case Spinning(_) => 5
    case SawStopped(_) => 4
    case Client => 3
    case Entered => 2
    case Counted(_) => 1
    case _ => 0
  }

  function NextPost(th: Thread, t: Tid): Step {
    match th.mode
    case Client => DeliverSuspend(t)
    case Entered => ReadCount(t)
    case Counted(_) => Post(t)
    case _ => NextOwn(th, t)
  }

  function AfterPost(s: State, t: Tid): State
    requires t in s.threads
  {
    var th := s.threads[t];
    match th.mode
    case Posted(c) => Set(s, t, th.(mode := Mode.Waiting(c), last := c))
    case Waiting(c) => Set(s, t, th.(mode := Spinning(c), restart := false))
    case Spinning(c) => Set(s, t, th.(mode := SawStopped(c)))
    case SawStopped(c) => Set(s, t, th.(mode := Client))
    case Client => Set(s, t, th.(mode := Entered, suspend := false))
    case Entered => Set(s, t, th.(mode := Counted(s.stopCount)))
    case Counted(c) => Set(s, t, th.(mode := Posted(c))).(sem := s.sem + 1)
    case _ => s
  }

  lemma CanPost(s: State, t: Tid)
    requires Inv(s) && t in s.threads && Owes(s.threads[t])
    ensures Next(s, AfterPost(s, t), NextPost(s.threads[t], t))
    ensures var s' := AfterPost(s, t);
            if s.threads[t].mode.Counted? then !Owes(s'.threads[t]) && s'.sem == s.sem + 1
            else Owes(s'.threads[t]) && s'.sem == s.sem && PostRank(s'.threads[t]) < PostRank(s.threads[t])
  {
    assert ThreadOk(s.stopCount, s.pc, s.lock, t, s.threads[t]);
  }

  /** A thread that owes an acknowledgement posts it by steps of its own. */
  lemma {:induction false} Posts(s: State, t: Tid) returns (s': State)
    requires Inv(s) && t in s.threads && Owes(s.threads[t])
    ensures Reaches(s, s') && Inv(s') && s'.pc == s.pc && s'.lock == s.lock && s'.sem == s.sem + 1
    ensures Owing(s') == Owing(s) - {t}
    decreases PostRank(s.threads[t])
  {
    hide Inv, Next;
    CanPost(s, t);
    var u := AfterPost(s, t);
    ReachRefl(s);
    StepKeeps(s, u, NextPost(s.threads[t], t));
    ReachStep(s, s, u, NextPost(s.threads[t], t));
    if s.threads[t].mode.Counted? {
      s' := u;
    } else {
      assert Owing(u) == Owing(s);
      s' := Posts(u, t);
      ReachTrans(s, u, s');
    }
  }

  /** Once every thread has been signalled, the stop completes. */
  lemma {:induction false} AllPost(s: State) returns (s': State)
    requires Inv(s) && s.pc.Collecting?
    ensures Reaches(s, s') && Inv(s') && s'.pc == Stopped && s'.lock == s.lock
    decreases s.pc.left, |Owing(s)|
  {
    hide Owing;
    ReachRefl(s);
    if s.pc.left == 0 {
      s' := s.(pc := Stopped);
      StepKeeps(s, s', AllAcknowledged);
      ReachStep(s, s, s', AllAcknowledged);
    } else if s.sem > 0 {
      var u := s.(sem := s.sem - 1, pc := Collecting(s.pc.left - 1));
      StepKeeps(s, u, SemWait);
      ReachStep(s, s, u, SemWait);
      s' := AllPost(u);
      ReachTrans(s, u, s');
    } else {
      var t :| t in Owing(s);
      OwingMember(s, t);
      var u := Posts(s, t);
      s' := AllPost(u);
      ReachTrans(s, u, s');
    }
  }

  lemma OwingMember(s: State, t: Tid)
    requires t in Owing(s)
    ensures t in s.threads && Owes(s.threads[t])
  {
  }

  lemma CanSignal(s: State, t: Tid) returns (u: State)
    requires s.pc.Signalling? && t in s.pc.todo && t in s.threads
    ensures Next(s, u, Signal(t)) && u.lock == s.lock && u.pc.Signalling? && u.pc.todo == s.pc.todo - {t}
  {
    var th, rest := s.threads[t], s.pc.todo - {t};
    u := if th.mode == Ended || th.last == s.stopCount || th.mode == Blocked then s.(pc := Signalling(rest, s.pc.sent))
         else Set(s, t, th.(suspend := true)).(pc := Signalling(rest, s.pc.sent + 1));
  }

  lemma SignalsSent(s: State)
    requires s.pc.Signalling? && s.pc.todo == {}
    ensures Next(s, s.(pc := Collecting(s.pc.sent)), AllSignalled)
  {
  }

  lemma {:induction false} SignalAll(s: State) returns (s': State)
    requires Inv(s) && s.pc.Signalling?
    ensures Reaches(s, s') && Inv(s') && s'.pc == Stopped && s'.lock == s.lock
    decreases |s.pc.todo|
  {
    hide Inv, Next, Reaches;
    ReachRefl(s);
    var u;
    if s.pc.todo == {} {
      u := s.(pc := Collecting(s.pc.sent));
      SignalsSent(s);
      StepKeeps(s, u, AllSignalled);
      ReachStep(s, s, u, AllSignalled);
      s' := AllPost(u);
    } else {
      var t :| t in s.pc.todo;
      TodoRegistered(s, t);
      u := CanSignal(s, t);
      StepKeeps(s, u, Signal(t));
      ReachStep(s, s, u, Signal(t));
      s' := SignalAll(u);
    }
    ReachTrans(s, u, s');
  }

  lemma TodoRegistered(s: State, t: Tid)
    requires Inv(s) && t in Todo(s.pc)
    ensures t in s.threads
  {
  }

  /** No deadlock: from every state of every run in which a thread holds the lock and has not stopped the world yet,
      GC_stop_world can return. */
  lemma StopCompletes(run: seq<State>, steps: seq<Step>, k: nat) returns (s': State)
    requires IsRun(run, steps) && k < |run| && run[k].lock.Some?
    requires run[k].pc.Idle? || run[k].pc.Bumped? || run[k].pc.Signalling? || run[k].pc.Collecting?
    ensures Reaches(run[k], s') && s'.pc == Stopped && s'.lock == run[k].lock
  {
    hide Inv;
    RunKeeps(run, steps, k);
    var s := run[k];
    ReachRefl(s);
    var u := s;
    if s.pc.Idle? {
      u := s.(stopCount := s.stopCount + 1, pc := Bumped);
      StepKeeps(s, u, Bump);
      ReachStep(s, s, u, Bump);
    }
    if u.pc.Bumped? {
      var v := u.(worldIsStopped := true, pc := Signalling(Others(u, u.lock.value), 0));
      StepKeeps(u, v, Flag);
      ReachStep(s, u, v, Flag);
      u := v;
    }
    if u.pc.Signalling? {
      s' := SignalAll(u);
    } else {
      s' := AllPost(u);
    }
    ReachTrans(s, u, s');
  }

  lemma {:induction false} RestartAll(s: State) returns (s': State)
    requires Inv(s) && s.pc.Restarting?
    ensures Reaches(s, s') && Inv(s') && s'.pc == Idle
    decreases |s.pc.todo|
  {
    hide Inv;
    ReachRefl(s);
    if s.pc.todo == {} {
      s' := s.(pc := Idle);
      StepKeeps(s, s', AllRestarted);
      ReachStep(s, s, s', AllRestarted);
    } else {
      var t :| t in s.pc.todo;
      TodoRegistered(s, t);
      var th, rest := s.threads[t], s.pc.todo - {t};
      var u := if th.mode == Ended || th.mode == Blocked then s.(pc := Restarting(rest))
               else Set(s, t, th.(restart := true)).(pc := Restarting(rest));
      StepKeeps(s, u, Restart(t));
      ReachStep(s, s, u, Restart(t));
      s' := RestartAll(u);
      ReachTrans(s, u, s');
    }
  }

  /** ... and from every state in which the world is stopped or being restarted, GC_start_world can return and every
      thread that is not away can get back to the client by itself. */
  lemma RestartCompletes(run: seq<State>, steps: seq<Step>, k: nat, t: Tid) returns (s': State)
    requires IsRun(run, steps) && k < |run| && (run[k].pc.Stopped? || run[k].pc.Restarting?)
    ensures Reaches(run[k], s') && s'.pc == Idle
    ensures t in s'.threads && !Away(s'.threads[t]) ==> s'.threads[t].mode == Client
  {
    hide Inv;
    RunKeeps(run, steps, k);
    var s := run[k];
    ReachRefl(s);
    var u := s;
    if s.pc.Stopped? {
      LockHeld(s);
      u := s.(worldIsStopped := false, pc := Restarting(Others(s, s.lock.value)));
      StepKeeps(s, u, Unflag);
      ReachStep(s, s, u, Unflag);
    }
    var v := RestartAll(u);
    ReachTrans(s, u, v);
    s' := v;
    if t in v.threads && !Away(v.threads[t]) {
      s' := Released(v, t);
      ReachTrans(s, v, s');
    }
  }

  lemma LockHeld(s: State)
    requires Inv(s) && s.pc != Idle
    ensures s.lock.Some?
  {
  }

  /** last_stop_count is set after the semaphore is posted, so with the world stopped it equals
      GC_stop_count exactly in the threads that are past that assignment ... */
  lemma LastStopCountIff(run: seq<State>, steps: seq<Step>, k: nat, t: Tid)
    requires IsRun(run, steps) && k < |run| && run[k].pc == Stopped
    requires t in run[k].threads && run[k].lock != Some(t) && !Away(run[k].threads[t])
    ensures run[k].threads[t].last == run[k].stopCount <==> !run[k].threads[t].mode.Posted?
  {
    WorldIsStopped(run, steps, k);
    RunKeeps(run, steps, k);
    assert ThreadOk(run[k].stopCount, run[k].pc, run[k].lock, t, run[k].threads[t]);
  }

  /** A run with two threads in which thread 0 stops the world and thread 1 has posted the semaphore,
      but has not come to set last_stop_count. */
  function LagState(k: nat): State {
    var c := Thread(Client, 0, false, false);
    var before := map[0 := c, 1 := c];
    if k == 0 then State(before, 0, false, 0, None, Idle)
    else if k == 1 then State(before, 0, false, 0, Some(0), Idle)
    else if k == 2 then State(before, 1, false, 0, Some(0), Bumped)
    else if k == 3 then State(before, 1, true, 0, Some(0), Signalling({1}, 0))
    else if k == 4 then State(before[1 := c.(suspend := true)], 1, true, 0, Some(0), Signalling({}, 1))
    else if k == 5 then State(before[1 := c.(suspend := true)], 1, true, 0, Some(0), Collecting(1))
    else if k == 6 then State(before[1 := c.(mode := Entered)], 1, true, 0, Some(0), Collecting(1))
    else if k == 7 then State(before[1 := c.(mode := Counted(1))], 1, true, 0, Some(0), Collecting(1))
    else if k == 8 then State(before[1 := c.(mode := Posted(1))], 1, true, 1, Some(0), Collecting(1))
    else if k == 9 then State(before[1 := c.(mode := Posted(1))], 1, true, 0, Some(0), Collecting(0))
    else State(before[1 := c.(mode := Posted(1))], 1, true, 0, Some(0), Stopped)
  }

  const LAG_STEPS: seq<Step> :=
    [TakeLock(0), Bump, Flag, Signal(1), AllSignalled, DeliverSuspend(1), ReadCount(1), Post(1), SemWait,
      AllAcknowledged]

  lemma LagSignals(k: nat)
    requires k < 5
    ensures Next(LagState(k), LagState(k + 1), LAG_STEPS[k])
  {
    assert Others(LagState(2), 0) == {1};
    var t: Tid := 1;
    assert {t} - {t} == {};
  }

  lemma LagAcknowledges(k: nat)
    requires 5 <= k < 10
    ensures Next(LagState(k), LagState(k + 1), LAG_STEPS[k])
  {
    var c := Thread(Client, 0, false, false);
    var before: map<Tid, Thread> := map[0 := c, 1 := c];
    assert before[1 := c.(suspend := true)][1 := c.(mode := Entered)] == before[1 := c.(mode := Entered)];
    assert before[1 := c.(mode := Entered)][1 := c.(mode := Counted(1))] == before[1 := c.(mode := Counted(1))];
    assert before[1 := c.(mode := Counted(1))][1 := c.(mode := Posted(1))] == before[1 := c.(mode := Posted(1))];
  }

  /** ... and GC_stop_world can return before the assignment. */
  lemma LastStopCountMayLag() returns (run: seq<State>, s: State)
    ensures IsRun(run, LAG_STEPS) && s == run[10] && s.pc == Stopped && s.lock == Some(0)
    ensures 1 in s.threads && !Away(s.threads[1]) && s.threads[1].last != s.stopCount
  {
    run := seq(11, k requires 0 <= k < 11 => LagState(k));
    s := run[10];
    forall k | 0 <= k < |LAG_STEPS|
      ensures Next(run[k], run[k + 1], LAG_STEPS[k])
    {
      if k < 5 {
        LagSignals(k);
      } else {
        LagAcknowledges(k);
      }
    }
  }
}
