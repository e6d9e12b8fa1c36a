/** The work-stealing parallel marker, as atomic steps of its threads. A critical section under the mark
    lock is one step; everything else a thread does to shared state is a step of its own. */
module ParallelMark {

  type Tid = nat
  type Entry = nat

  /** A slot of the global mark stack; a stolen slot has descriptor 0. */
  datatype Slot = Slot(entry: Entry, taken: bool)

  /** Where a thread is in GC_mark_local. */
  datatype Pc =
    | Out                                  // not taking part
    | Joined                               // counted in GC_helper_count
    | LoopTop
    | HaveFirst(first: nat)                // has read GC_first_nonempty
    | Compared                             // has brought its own bound up to date
    | Stealing(p: nat, high: nat)          // GC_steal_mark_stack at slot p; slots below `high` are its range
    | Saw(p: nat, high: nat, entry: Entry) // has read a nonzero descriptor at p
    | Working                              // GC_do_local_mark
    | Resting                              // inactive, waiting for entries or for the end

  datatype Thread = Thread(pc: Pc, myFirst: nat, local: seq<Entry>)

  /** The initiating thread in GC_do_parallel_mark. */
  datatype Phase = NotStarted | Marking | Closing | Finished

  datatype State = State(
    stack: seq<Slot>,        // never shrinks during a mark phase
    size: nat,               // GC_mark_stack_size
    firstNonempty: nat,
    helpWanted: bool,
    helpers: nat,
    active: nat,
    invalid: bool,           // GC_mark_state is MS_INVALID
    phase: Phase,
    main: Tid,
    threads: map<Tid, Thread>,
    // what is pushed when an entry is marked from, and the entries pushed before the mark phase
    children: map<Entry, set<Entry>>,
    roots: set<Entry>,
    // history: entries ever pushed, entries marked from, and whether some thread has left
    all: set<Entry>,
    done: set<Entry>,
    left: bool
  )

  predicate IsActive(th: Thread) {
    !(th.pc.Out? || th.pc.Joined? || th.pc.Resting?)
  }

  function Active(threads: map<Tid, Thread>): set<Tid> {
    set t | t in threads && IsActive(threads[t])
  }

  function Helpers(threads: map<Tid, Thread>): set<Tid> {
    set t | t in threads && !threads[t].pc.Out?
  }

  function Children(s: State, e: Entry): set<Entry> {
    if e in s.children then s.children[e] else {}
  }

  function Put(s: State, t: Tid, th: Thread): State {
    s.(threads := s.threads[t := th])
  }

  function Elements(es: seq<Entry>): set<Entry> {
    set e | e in es
  }

  function Fresh(es: seq<Entry>): seq<Slot> {
    seq(|es|, i requires 0 <= i < |es| => Slot(es[i], false))
  }

  // ---------------------------------------------------------------- steps

  datatype Step =
    | Start | Help(t: Tid) | Enter(t: Tid)
    | ReadFirst(t: Tid) | CompareFirst(t: Tid) | ReadTop(t: Tid) | Rest(t: Tid)
    | Look(t: Tid) | Take(t: Tid) | StopStealing(t: Tid)
    | MarkOne(t: Tid, k: nat, found: seq<Entry>) | LocalOverflow(t: Tid, k: nat, kept: seq<Entry>)
    | Return(t: Tid, n: nat) | LocalEmpty(t: Tid)
    | Resume(t: Tid) | Leave(t: Tid)
    | Close | Finish

  ghost predicate Next(s: State, s': State, a: Step) {
    match a
    case Start =>
      && s.phase == NotStarted && !s.helpWanted && s.active == 0 && s.helpers == 0
      && s.main in s.threads
      && s' == Put(s, s.main, Thread(Joined, 0, [])).(firstNonempty := 0, helpers := 1, helpWanted := true,
        phase := Marking)
    case Help(t) =>
      && t in s.threads && s.threads[t].pc.Out? && s.helpWanted && t != s.main
      && s' == Put(s, t, Thread(Joined, 0, [])).(helpers := s.helpers + 1)
    case Enter(t) =>
      && t in s.threads && s.threads[t].pc.Joined?
      && s' == Put(s, t, Thread(LoopTop, s.firstNonempty, [])).(active := s.active + 1)
    case ReadFirst(t) =>
      && t in s.threads && s.threads[t].pc.LoopTop?
      && s' == Put(s, t, s.threads[t].(pc := HaveFirst(s.firstNonempty)))
    case CompareFirst(t) =>
      // the compare-and-exchange succeeds only if GC_first_nonempty still has the value read
      && t in s.threads && s.threads[t].pc.HaveFirst?
      && var th := s.threads[t];
         var read := th.pc.first;
         s' == Put(s, t, th.(pc := Compared, myFirst := if th.myFirst < read then read else th.myFirst))
               .(firstNonempty := if read < th.myFirst && s.firstNonempty == read then th.myFirst else s.firstNonempty)
    case ReadTop(t) =>
      && t in s.threads && s.threads[t].pc.Compared? && s.threads[t].myFirst < |s.stack|
      && s' == Put(s, t, s.threads[t].(pc := Stealing(s.threads[t].myFirst, |s.stack|)))
    case Rest(t) =>
      // nothing above its bound, with the mark lock held
      && t in s.threads && s.threads[t].pc.Compared? && s.threads[t].myFirst == |s.stack|
      && s' == Put(s, t, s.threads[t].(pc := Resting)).(active := if s.active > 0 then s.active - 1 else 0)
    case Look(t) =>
      && t in s.threads && s.threads[t].pc.Stealing? && s.threads[t].pc.p < s.threads[t].pc.high <= |s.stack|
      && var pc := s.threads[t].pc;
         var slot := s.stack[pc.p];
         s' == Put(s, t, s.threads[t].(pc := if slot.taken then Stealing(pc.p + 1, pc.high)
           else Saw(pc.p, pc.high, slot.entry)))
    case Take(t) =>
      && t in s.threads && s.threads[t].pc.Saw? && s.threads[t].pc.p < |s.stack|
      && var pc := s.threads[t].pc;
         s' == Put(s, t, s.threads[t].(pc := Stealing(pc.p + 1, pc.high), local := s.threads[t].local + [pc.entry]))
               .(stack := s.stack[pc.p := s.stack[pc.p].(taken := true)])
    case StopStealing(t) =>
      && t in s.threads && s.threads[t].pc.Stealing?
      && s' == Put(s, t, s.threads[t].(pc := Working, myFirst := s.threads[t].pc.p))
    case MarkOne(t, k, found) =>
      // GC_mark_from on one local entry: what it leads to is pushed, except what is marked already
      && t in s.threads && s.threads[t].pc.Working? && k < |s.threads[t].local|
      && var l := s.threads[t].local;
         && Children(s, l[k]) - s.all <= Elements(found) <= Children(s, l[k])
         && s' == Put(s, t, s.threads[t].(local := l[..k] + l[k + 1..] + found))
                  .(done := s.done + {l[k]}, all := s.all + Elements(found))
    case LocalOverflow(t, k, kept) =>
      && t in s.threads && s.threads[t].pc.Working? && k < |s.threads[t].local|
      && var l := s.threads[t].local;
         && Elements(kept) <= Elements(l) + Children(s, l[k])
         && s' == Put(s, t, s.threads[t].(local := kept))
                  .(done := s.done + {l[k]}, all := s.all + Elements(kept), invalid := true)
    case Return(t, n) =>
      // GC_return_mark_stack with the bottom n entries; without room they are dropped
      && t in s.threads && s.threads[t].pc.Working? && n <= |s.threads[t].local|
      && var l := s.threads[t].local;
         var s1 := Put(s, t, s.threads[t].(local := l[n..]));
         s' == if |s.stack| + n > s.size then s1.(invalid := true) else s1.(stack := s.stack + Fresh(l[..n]))
    case LocalEmpty(t) =>
      && t in s.threads && s.threads[t].pc.Working? && s.threads[t].local == []
      && s' == Put(s, t, s.threads[t].(pc := LoopTop))
    case Resume(t) =>
      && t in s.threads && s.threads[t].pc.Resting? && (s.active > 0 || s.firstNonempty < |s.stack|)
      && s' == Put(s, t, s.threads[t].(pc := LoopTop)).(active := s.active + 1)
    case Leave(t) =>
      && t in s.threads && s.threads[t].pc.Resting? && s.active == 0 && s.firstNonempty >= |s.stack|
      && s' == Put(s, t, s.threads[t].(pc := Out)).(helpers := if s.helpers > 0 then s.helpers - 1 else 0, left := true)
    case Close =>
      && s.phase == Marking && s.main in s.threads && s.threads[s.main].pc.Out?
      && s' == s.(helpWanted := false, phase := Closing)
    case Finish =>
      && s.phase == Closing && s.helpers == 0 && s' == s.(phase := Finished)
  }

  ghost predicate Init(s: State) {
    && (forall i :: 0 <= i < |s.stack| ==> !s.stack[i].taken && s.stack[i].entry in s.roots)
    && (forall e :: e in s.roots ==> InGlobal(s.stack, e))
    && s.all == s.roots && s.done == {}
    && s.helpers == 0 && s.active == 0 && !s.helpWanted && !s.invalid && !s.left && s.phase == NotStarted
    && s.firstNonempty == 0
    && s.main in s.threads && (forall t :: t in s.threads ==> s.threads[t] == Thread(Out, 0, []))
  }

  ghost predicate IsRun(run: seq<State>, steps: seq<Step>) {
    && |run| == |steps| + 1 && Init(run[0])
    && forall k :: 0 <= k < |steps| ==> Next(run[k], run[k + 1], steps[k])
  }

  // ---------------------------------------------------------------- the invariant

  ghost predicate TakenBelow(stack: seq<Slot>, n: nat) {
    n <= |stack| && forall i :: 0 <= i < n ==> stack[i].taken
  }

  /** A thread's own bound, and everything it has walked past, is taken. */
  ghost predicate ThreadOk(stack: seq<Slot>, first: nat, th: Thread) {
    && TakenBelow(stack, th.myFirst)
    && (th.pc.HaveFirst? ==> th.pc.first <= first)
    && (th.pc.Stealing? ==> TakenBelow(stack, th.pc.p) && th.pc.p <= th.pc.high <= |stack|)
    && (th.pc.Saw? ==>
          TakenBelow(stack, th.pc.p) && th.pc.p < th.pc.high <= |stack| && stack[th.pc.p].entry == th.pc.entry)
    && (th.local != [] ==> th.pc.Stealing? || th.pc.Saw? || th.pc.Working?)
  }

  ghost predicate AllOut(s: State) {
    s.firstNonempty == 0 && !s.helpWanted && forall t :: t in s.threads ==> s.threads[t].pc.Out?
  }

  ghost predicate BoundsOk(s: State) {
    && TakenBelow(s.stack, s.firstNonempty)
    && (s.phase.NotStarted? ==> AllOut(s))
    && forall t :: t in s.threads ==> ThreadOk(s.stack, s.firstNonempty, s.threads[t])
  }

  ghost predicate InGlobal(stack: seq<Slot>, e: Entry) {
    exists i :: 0 <= i < |stack| && stack[i] == Slot(e, false)
  }

  ghost predicate InLocal(threads: map<Tid, Thread>, e: Entry) {
    exists t :: t in threads && e in threads[t].local
  }

  ghost predicate Pending(s: State, e: Entry) {
    e in s.done || InGlobal(s.stack, e) || InLocal(s.threads, e)
  }

  /** No entry is lost: each one pushed so far was marked from, or is still on some stack. */
  ghost predicate NothingLost(s: State) {
    !s.invalid ==>
      && (forall e :: e in s.all ==> Pending(s, e))
      && (forall e :: e in s.done ==> Children(s, e) <= s.all)
  }

  ghost predicate Closed(s: State, within: set<Entry>) {
    s.roots <= within && forall e :: e in within ==> Children(s, e) <= within
  }

  /** Nothing but what the marking leads to is ever pushed. */
  ghost predicate NothingExtra(s: State) {
    && s.roots <= s.all
    && (forall within :: Closed(s, within) ==> s.all <= within)
    && s.done <= s.all
    && (forall i :: 0 <= i < |s.stack| ==> s.stack[i].entry in s.all)
    && (forall t :: t in s.threads ==> Elements(s.threads[t].local) <= s.all)
    && (forall t :: t in s.threads && s.threads[t].pc.Saw? ==> s.threads[t].pc.entry in s.all)
  }

  ghost predicate CountsOk(s: State) {
    && s.active == |Active(s.threads)| && s.helpers == |Helpers(s.threads)|
    && s.main in s.threads
    && (s.phase.Closing? || s.phase.Finished? ==> !s.helpWanted && s.left)
    && (s.phase.Marking? && s.threads[s.main].pc.Out? ==> s.left)
    && (s.phase.Finished? ==> s.helpers == 0)
  }

  /** Once a thread has left, no stack holds an entry. */
  ghost predicate Quiet(s: State) {
    s.left ==>
      && TakenBelow(s.stack, |s.stack|)
      && forall t :: t in s.threads ==> s.threads[t].local == [] && !s.threads[t].pc.Saw?
  }

  ghost predicate Inv(s: State) {
    BoundsOk(s) && NothingLost(s) && NothingExtra(s) && CountsOk(s) && Quiet(s)
  }

  lemma InitHolds(s: State)
    requires Init(s)
    ensures Inv(s)
  {
    assert Active(s.threads) == {} && Helpers(s.threads) == {};
  }

  // ---------------------------------------------------------------- every step keeps it

  lemma ActiveCount(threads: map<Tid, Thread>, t: Tid, th: Thread)
    requires t in threads
    ensures |Active(threads[t := th])| == |Active(threads)| + (if IsActive(th) then 1
            else 0) - (if IsActive(threads[t]) then 1 else 0)
  {
    var a := Active(threads) - {t};
    assert Active(threads[t := th]) == if IsActive(th) then a + {t} else a;
    assert Active(threads) == if IsActive(threads[t]) then a + {t} else a;
  }

  lemma HelperCount(threads: map<Tid, Thread>, t: Tid, th: Thread)
    requires t in threads
    ensures |Helpers(threads[t := th])| == |Helpers(threads)| + (if th.pc.Out? then 0
            else 1) - (if threads[t].pc.Out? then 0 else 1)
  {
    var h := Helpers(threads) - {t};
    assert Helpers(threads[t := th]) == if th.pc.Out? then h else h + {t};
    assert Helpers(threads) == if threads[t].pc.Out? then h else h + {t};
  }

  /** Slots are only added, and only go from full to taken. */
  ghost predicate Extends(a: seq<Slot>, b: seq<Slot>) {
    && |a| <= |b|
    && forall i :: 0 <= i < |a| ==> b[i].entry == a[i].entry && (a[i].taken ==> b[i].taken)
  }

  lemma TakenLater(stack: seq<Slot>, stack': seq<Slot>, n: nat)
    requires TakenBelow(stack, n) && Extends(stack, stack')
    ensures TakenBelow(stack', n)
  {
  }

  lemma ThreadOkLater(th: Thread, stack: seq<Slot>, first: nat, stack': seq<Slot>, first': nat)
    requires ThreadOk(stack, first, th) && Extends(stack, stack') && first <= first'
    ensures ThreadOk(stack', first', th)
  {
  }

  /** Thread t becomes th; the stack may have grown. */
  lemma BoundsKept(s: State, s': State, t: Tid, th: Thread)
    requires BoundsOk(s) && s'.threads == s.threads[t := th]
    requires Extends(s.stack, s'.stack) && s.firstNonempty <= s'.firstNonempty && !s'.phase.NotStarted?
    requires TakenBelow(s'.stack, s'.firstNonempty) && ThreadOk(s'.stack, s'.firstNonempty, th)
    ensures BoundsOk(s')
  {
    hide ThreadOk, Extends, TakenBelow;
    forall u | u in s'.threads
      ensures ThreadOk(s'.stack, s'.firstNonempty, s'.threads[u])
    {
      if u != t {
        ThreadOkLater(s.threads[u], s.stack, s.firstNonempty, s'.stack, s'.firstNonempty);
      }
    }
  }

  lemma PendingKept(s: State, s': State, t: Tid, th: Thread, e: Entry)
    requires t in s.threads && s'.threads == s.threads[t := th] && s.done <= s'.done
    requires Pending(s, e)
    requires InGlobal(s.stack, e) ==> Pending(s', e)
    requires e in s.threads[t].local ==> e in th.local || Pending(s', e)
    ensures Pending(s', e)
  {
    if InLocal(s.threads, e) {
      var u :| u in s.threads && e in s.threads[u].local;
      assert u in s'.threads && (u != t ==> e in s'.threads[u].local);
      if u == t && e in th.local {
        assert e in s'.threads[t].local;
      }
    }
  }

  /** A step that moves one thread from one program point to another, its local stack staying as it is. */
  ghost predicate Plain(s: State, s': State, t: Tid, th: Thread) {
    && t in s.threads && th.local == s.threads[t].local
    && s' == s.(threads := s.threads[t := th], firstNonempty := s'.firstNonempty, active := s'.active,
      helpers := s'.helpers)
  }

  lemma PlainLost(s: State, s': State, t: Tid, th: Thread)
    requires Inv(s) && Plain(s, s', t, th)
    ensures NothingLost(s')
  {
    hide Elements, BoundsOk, NothingExtra, CountsOk, Quiet;
    if !s.invalid {
      forall e | e in s'.all
        ensures Pending(s', e)
      {
        PendingKept(s, s', t, th, e);
      }
      assert forall e :: Children(s', e) == Children(s, e);
    }
  }

  lemma ClosedSame(s: State, s': State, within: set<Entry>)
    requires s.children == s'.children && s.roots == s'.roots
    ensures Closed(s, within) == Closed(s', within)
  {
    assert forall e :: Children(s', e) == Children(s, e);
  }

  lemma PlainExtra(s: State, s': State, t: Tid, th: Thread)
    requires Inv(s) && Plain(s, s', t, th)
    requires th.pc.Saw? ==> th.pc.entry in s.all
    ensures NothingExtra(s')
  {
    hide Children, Closed, BoundsOk, NothingLost, CountsOk, Quiet;
    forall within | Closed(s', within)
      ensures s'.all <= within
    {
      ClosedSame(s, s', within);
    }
  }

  lemma PlainCounts(s: State, s': State, t: Tid, th: Thread)
    requires Inv(s) && Plain(s, s', t, th)
    requires !th.pc.Out? && (s.threads[t].pc.Out? ==> s.helpWanted)
    requires s'.active == s.active + (if IsActive(th) then 1 else 0) - (if IsActive(s.threads[t]) then 1 else 0)
    requires s'.helpers == s.helpers + (if s.threads[t].pc.Out? then 1 else 0)
    ensures CountsOk(s')
  {
    hide Children, Closed, BoundsOk, NothingLost, NothingExtra, Quiet, Active, Helpers, IsActive;
    ActiveCount(s.threads, t, th);
    HelperCount(s.threads, t, th);
  }

  lemma PlainKeeps(s: State, s': State, t: Tid, th: Thread)
    requires Inv(s) && Plain(s, s', t, th) && !s.phase.NotStarted?
    requires !th.pc.Out? && (s.threads[t].pc.Out? ==> s.helpWanted)
    requires s'.active == s.active + (if IsActive(th) then 1 else 0) - (if IsActive(s.threads[t]) then 1 else 0)
    requires s'.helpers == s.helpers + (if s.threads[t].pc.Out? then 1 else 0)
    requires s.firstNonempty <= s'.firstNonempty && TakenBelow(s.stack, s'.firstNonempty)
    requires ThreadOk(s.stack, s'.firstNonempty, th)
    requires th.pc.Saw? ==> th.pc.entry in s.all && !s.left
    ensures Inv(s')
  {
    hide Children, Closed, NothingLost, NothingExtra, CountsOk, Active, Helpers, IsActive, BoundsOk, ThreadOk;
    PlainLost(s, s', t, th);
    PlainExtra(s, s', t, th);
    PlainCounts(s, s', t, th);
    BoundsKept(s, s', t, th);
  }

  lemma HelpKeeps(s: State, s': State, t: Tid)
    requires Inv(s) && Next(s, s', Help(t))
    ensures Inv(s')
  {
    hide Children, Closed, NothingLost, NothingExtra, CountsOk, Active, Helpers, Quiet;
    PlainKeeps(s, s', t, Thread(Joined, 0, []));
  }

  lemma EnterKeeps(s: State, s': State, t: Tid)
    requires Inv(s) && Next(s, s', Enter(t))
    ensures Inv(s')
  {
    hide Children, Closed, NothingLost, NothingExtra, CountsOk, Active, Helpers, Quiet;
    assert ThreadOk(s.stack, s.firstNonempty, s.threads[t]);
    PlainKeeps(s, s', t, Thread(LoopTop, s.firstNonempty, []));
  }

  /** Only program points that do not touch an entry or a count. */
  lemma MoveKeeps(s: State, s': State, a: Step)
    requires Inv(s) && (a.ReadFirst? || a.ReadTop? || a.StopStealing? || a.LocalEmpty?) && Next(s, s', a)
    ensures Inv(s')
  {
    hide Children, Closed, NothingLost, NothingExtra, CountsOk, Active, Helpers, Quiet;
    assert ThreadOk(s.stack, s.firstNonempty, s.threads[a.t]);
    PlainKeeps(s, s', a.t, s'.threads[a.t]);
  }

  lemma CompareFirstKeeps(s: State, s': State, t: Tid)
    requires Inv(s) && Next(s, s', CompareFirst(t))
    ensures Inv(s')
  {
    hide Children, Closed, NothingLost, NothingExtra, CountsOk, Active, Helpers, Quiet;
    assert ThreadOk(s.stack, s.firstNonempty, s.threads[t]);
    PlainKeeps(s, s', t, s'.threads[t]);
  }

  lemma LookKeeps(s: State, s': State, t: Tid)
    requires Inv(s) && Next(s, s', Look(t))
    ensures Inv(s')
  {
    hide Children, Closed, NothingLost, CountsOk, Active, Helpers;
    assert ThreadOk(s.stack, s.firstNonempty, s.threads[t]);
    PlainKeeps(s, s', t, s'.threads[t]);
  }

  lemma RestKeeps(s: State, s': State, t: Tid)
    requires Inv(s) && Next(s, s', Rest(t))
    ensures Inv(s')
  {
    hide Children, Closed, NothingLost, NothingExtra, Quiet;
    assert ThreadOk(s.stack, s.firstNonempty, s.threads[t]);
    assert t in Active(s.threads);
    PlainKeeps(s, s', t, s'.threads[t]);
  }

  lemma ResumeKeeps(s: State, s': State, t: Tid)
    requires Inv(s) && Next(s, s', Resume(t))
    ensures Inv(s')
  {
    hide Children, Closed, NothingLost, NothingExtra, CountsOk, Active, Helpers, Quiet;
    assert ThreadOk(s.stack, s.firstNonempty, s.threads[t]);
    PlainKeeps(s, s', t, s'.threads[t]);
  }

  lemma StartKeeps(s: State, s': State)
    requires Inv(s) && Next(s, s', Start)
    ensures Inv(s')
  {
    hide Children, Closed, Elements;
    var th := Thread(Joined, 0, []);
    ActiveCount(s.threads, s.main, th);
    HelperCount(s.threads, s.main, th);
    BoundsKept(s, s', s.main, th);
    SameWork(s, s', s.main, th);
  }

  /** The entries stay where they are while one thread moves. */
  lemma SameWork(s: State, s': State, t: Tid, th: Thread)
    requires Inv(s) && t in s.threads && s.threads[t].local == th.local && !th.pc.Saw?
    requires s' == s.(threads := s.threads[t := th], firstNonempty := s'.firstNonempty, helpWanted := s'.helpWanted,
                      helpers := s'.helpers, phase := s'.phase, left := s'.left)
    ensures NothingLost(s') && NothingExtra(s')
  {
    var s1 := s.(threads := s.threads[t := th]);
    assert Plain(s, s1, t, th);
    PlainLost(s, s1, t, th);
    PlainExtra(s, s1, t, th);
    assert forall e :: Children(s', e) == Children(s1, e);
    assert forall e :: Pending(s', e) == Pending(s1, e);
    forall within | Closed(s', within)
      ensures s'.all <= within
    {
      ClosedSame(s, s', within);
    }
  }

  lemma NoneActive(s: State)
    requires BoundsOk(s) && CountsOk(s) && s.active == 0
    ensures forall t :: t in s.threads ==> !IsActive(s.threads[t]) && s.threads[t].local == []
  {
    forall t | t in s.threads
      ensures !IsActive(s.threads[t]) && s.threads[t].local == []
    {
      assert ThreadOk(s.stack, s.firstNonempty, s.threads[t]);
      assert t !in Active(s.threads);
    }
  }

  lemma LeaveKeeps(s: State, s': State, t: Tid)
    requires Inv(s) && Next(s, s', Leave(t))
    ensures Inv(s')
  {
    hide Children, Closed, Elements, Active, Helpers, NothingLost, NothingExtra;
    var th := s.threads[t].(pc := Out);
    assert ThreadOk(s.stack, s.firstNonempty, s.threads[t]);
    NoneActive(s);
    ActiveCount(s.threads, t, th);
    HelperCount(s.threads, t, th);
    BoundsKept(s, s', t, th);
    SameWork(s, s', t, th);
  }

  lemma CloseKeeps(s: State, s': State, a: Step)
    requires Inv(s) && (a.Close? || a.Finish?) && Next(s, s', a)
    ensures Inv(s')
  {
    hide Children, Closed, Elements, Active, Helpers;
    assert s' == s.(threads := s.threads[s.main := s.threads[s.main]], helpWanted := s'.helpWanted, phase := s'.phase);
    assert forall e :: Pending(s', e) == Pending(s, e);
    assert forall e :: Children(s', e) == Children(s, e) by {
      forall e
        ensures Children(s', e) == Children(s, e)
      {
        SameChildren(s, s', e);
      }
    }
    forall within | Closed(s', within)
      ensures s'.all <= within
    {
      ClosedSame(s, s', within);
    }
  }

  lemma SameChildren(s: State, s': State, e: Entry)
    requires s.children == s'.children
    ensures Children(s', e) == Children(s, e)
  {
  }

  lemma TakeLost(s: State, s': State, t: Tid)
    requires Inv(s) && Next(s, s', Take(t))
    ensures NothingLost(s')
  {
    hide Closed, Elements, Active, Helpers, NothingExtra, CountsOk, Quiet;
    var pc := s.threads[t].pc;
    assert ThreadOk(s.stack, s.firstNonempty, s.threads[t]);
    if !s.invalid {
      forall e | e in s'.all
        ensures Pending(s', e)
      {
        if InGlobal(s.stack, e) {
          var i :| 0 <= i < |s.stack| && s.stack[i] == Slot(e, false);
          if i == pc.p {
            assert e in s'.threads[t].local;
          } else {
            assert s'.stack[i] == Slot(e, false);
          }
        }
        PendingKept(s, s', t, s'.threads[t], e);
      }
      assert forall e :: Children(s', e) == Children(s, e);
    }
  }

  lemma TakeKeeps(s: State, s': State, t: Tid)
    requires Inv(s) && Next(s, s', Take(t))
    ensures Inv(s')
  {
    hide Children, Closed, Active, Helpers, NothingLost, NothingExtra, CountsOk, Elements;
    var th := s'.threads[t];
    assert ThreadOk(s.stack, s.firstNonempty, s.threads[t]);
    WorkCounts(s, s', t, th);
    TakenLater(s.stack, s'.stack, s.firstNonempty);
    BoundsKept(s, s', t, th);
    TakeLost(s, s', t);
    TakeExtra(s, s', t);
  }

  /** A thread that stays active changes no count. */
  lemma WorkCounts(s: State, s': State, t: Tid, th: Thread)
    requires CountsOk(s) && t in s.threads && IsActive(s.threads[t]) && IsActive(th)
    requires s'.threads == s.threads[t := th] && s'.active == s.active && s'.helpers == s.helpers
    requires s'.main == s.main && s'.phase == s.phase && s'.helpWanted == s.helpWanted && s'.left == s.left
    ensures CountsOk(s')
  {
    ActiveCount(s.threads, t, th);
    HelperCount(s.threads, t, th);
  }

  lemma TakeExtra(s: State, s': State, t: Tid)
    requires Inv(s) && Next(s, s', Take(t))
    ensures NothingExtra(s')
  {
    hide Children, Closed, Active, Helpers, NothingLost, CountsOk, Quiet, BoundsOk;
    forall within | Closed(s', within)
      ensures s'.all <= within
    {
      ClosedSame(s, s', within);
    }
  }

  lemma MarkOneLost(s: State, s': State, t: Tid, k: nat, found: seq<Entry>)
    requires Inv(s) && Next(s, s', MarkOne(t, k, found))
    ensures NothingLost(s')
  {
    hide Closed, Active, Helpers, NothingExtra, CountsOk, Quiet, BoundsOk;
    var l := s.threads[t].local;
    var th := s'.threads[t];
    if !s.invalid {
      forall e | e in s'.all
        ensures Pending(s', e)
      {
        if e in s.all {
          assert e in l ==> e == l[k] || e in l[..k] || e in l[k + 1..];
          assert e in l ==> e in th.local || e in s'.done;
          PendingKept(s, s', t, th, e);
        } else {
          assert e in th.local;
        }
      }
      assert forall e :: Children(s', e) == Children(s, e);
    }
  }

  lemma MarkOneExtra(s: State, s': State, a: Step)
    requires Inv(s) && (a.MarkOne? || a.LocalOverflow?) && Next(s, s', a)
    ensures NothingExtra(s')
  {
    hide NothingLost, Active, Helpers, CountsOk, Quiet, BoundsOk, Children;
    var l := s.threads[a.t].local;
    assert l[a.k] in Elements(l);
    forall within | Closed(s', within)
      ensures s'.all <= within
    {
      ClosedSame(s, s', within);
      assert Children(s, l[a.k]) <= within;
    }
  }

  lemma MarkOneKeeps(s: State, s': State, a: Step)
    requires Inv(s) && (a.MarkOne? || a.LocalOverflow?) && Next(s, s', a)
    ensures Inv(s')
  {
    hide Children, Closed, Active, Helpers, NothingLost, NothingExtra, CountsOk, Elements;
    var t := a.t;
    var th := s'.threads[t];
    assert ThreadOk(s.stack, s.firstNonempty, s.threads[t]);
    assert !s.left;
    WorkCounts(s, s', t, th);
    BoundsKept(s, s', t, th);
    MarkOneExtra(s, s', a);
    if a.MarkOne? {
      MarkOneLost(s, s', t, a.k, a.found);
    } else {
      assert NothingLost(s') by {
        OverflowLost(s, s', a);
      }
    }
  }

  lemma OverflowLost(s: State, s': State, a: Step)
    requires a.LocalOverflow? && Next(s, s', a)
    ensures NothingLost(s')
  {
  }

  lemma ReturnLost(s: State, s': State, t: Tid, n: nat)
    requires Inv(s) && Next(s, s', Return(t, n))
    ensures NothingLost(s')
  {
    hide Closed, Active, Helpers, NothingExtra, CountsOk, Quiet, BoundsOk, Elements;
    var l := s.threads[t].local;
    var th := s'.threads[t];
    if !s'.invalid {
      forall e | e in s'.all
        ensures Pending(s', e)
      {
        if InGlobal(s.stack, e) {
          var i :| 0 <= i < |s.stack| && s.stack[i] == Slot(e, false);
          assert s'.stack[i] == Slot(e, false);
        }
        if e in l {
          var i :| 0 <= i < |l| && l[i] == e;
          if i < n {
            assert s'.stack[|s.stack| + i] == Slot(e, false);
          } else {
            assert l[n..][i - n] == e;
          }
        }
        PendingKept(s, s', t, th, e);
      }
      assert forall e :: Children(s', e) == Children(s, e);
    }
  }

  lemma ReturnExtra(s: State, s': State, t: Tid, n: nat)
    requires Inv(s) && Next(s, s', Return(t, n))
    ensures NothingExtra(s')
  {
    hide NothingLost, Active, Helpers, CountsOk, Quiet, BoundsOk, Children, Closed;
    var l := s.threads[t].local;
    assert forall i :: 0 <= i < |l| ==> l[i] in Elements(l);
    assert Elements(l[n..]) <= Elements(l);
    forall i | 0 <= i < |s'.stack|
      ensures s'.stack[i].entry in s'.all
    {
      if i >= |s.stack| {
        assert s'.stack[i].entry == l[i - |s.stack|];
      }
    }
    forall within | Closed(s', within)
      ensures s'.all <= within
    {
      ClosedSame(s, s', within);
    }
  }

  lemma ReturnKeeps(s: State, s': State, t: Tid, n: nat)
    requires Inv(s) && Next(s, s', Return(t, n))
    ensures Inv(s')
  {
    hide Children, Closed, Active, Helpers, NothingLost, NothingExtra, CountsOk, Elements;
    var th := s'.threads[t];
    assert ThreadOk(s.stack, s.firstNonempty, s.threads[t]);
    WorkCounts(s, s', t, th);
    assert Extends(s.stack, s'.stack);
    TakenLater(s.stack, s'.stack, s.firstNonempty);
    BoundsKept(s, s', t, th);
    ReturnExtra(s, s', t, n);
    ReturnLost(s, s', t, n);
    assert s.left ==> |s'.stack| == |s.stack|;
  }

  lemma StepKeeps(s: State, s': State, a: Step)
    requires Inv(s) && Next(s, s', a)
    ensures Inv(s')
  {
    hide Inv, Next;
    match a
    case Start => StartKeeps(s, s');
    case Help(t) => HelpKeeps(s, s', t);
    case Enter(t) => EnterKeeps(s, s', t);
    case ReadFirst(_) => MoveKeeps(s, s', a);
    case CompareFirst(t) => CompareFirstKeeps(s, s', t);
    case ReadTop(_) => MoveKeeps(s, s', a);
    case Rest(t) => RestKeeps(s, s', t);
    case Look(t) => LookKeeps(s, s', t);
    case Take(t) => TakeKeeps(s, s', t);
    case StopStealing(_) => MoveKeeps(s, s', a);
    case MarkOne(_, _, _) => MarkOneKeeps(s, s', a);
    case LocalOverflow(_, _, _) => MarkOneKeeps(s, s', a);
    case Return(t, n) => ReturnKeeps(s, s', t, n);
    case LocalEmpty(_) => MoveKeeps(s, s', a);
    case Resume(t) => ResumeKeeps(s, s', t);
    case Leave(t) => LeaveKeeps(s, s', t);
    case Close => CloseKeeps(s, s', a);
    case Finish => CloseKeeps(s, s', a);
  }

  // ---------------------------------------------------------------- whole runs

  lemma {:induction false} RunKeeps(run: seq<State>, steps: seq<Step>, k: nat)
    requires IsRun(run, steps) && k < |run|
    ensures Inv(run[k]) && run[k].children == run[0].children && run[k].roots == run[0].roots
  {
    hide Next, Inv, Init;
    if k == 0 {
      InitHolds(run[0]);
    } else {
      RunKeeps(run, steps, k - 1);
      StepKeeps(run[k - 1], run[k], steps[k - 1]);
      SameGraph(run[k - 1], run[k], steps[k - 1]);
    }
  }

  lemma SameGraph(s: State, s': State, a: Step)
    requires Next(s, s', a)
    ensures s'.children == s.children && s'.roots == s.roots
  {
    hide Children, Elements, Fresh;
  }

  /** Entry e is in slot i, where every thread will still look. */
  ghost predicate Waiting(s: State, e: Entry, i: nat) {
    && i < |s.stack| && s.stack[i] == Slot(e, false)
    && s.firstNonempty <= i && forall t :: t in s.threads ==> s.threads[t].myFirst <= i
  }

  /** No thread skips or drops an entry: whatever was pushed and not marked from is on a stack, at or above
      GC_first_nonempty and at or above every thread's own bound if it is on the global one. */
  lemma EntriesNeverLost(run: seq<State>, steps: seq<Step>, k: nat, e: Entry)
    requires IsRun(run, steps) && k < |run| && !run[k].invalid
    requires e in run[k].all && e !in run[k].done && !InLocal(run[k].threads, e)
    ensures exists i :: Waiting(run[k], e, i)
  {
    RunKeeps(run, steps, k);
    var s := run[k];
    assert Pending(s, e);
    var i: nat :| 0 <= i < |s.stack| && s.stack[i] == Slot(e, false);
    forall t | t in s.threads
      ensures s.threads[t].myFirst <= i
    {
      assert ThreadOk(s.stack, s.firstNonempty, s.threads[t]);
    }
    assert Waiting(s, e, i);
  }

  /** The parallel mark phase ends with every stack empty. Unless entries were dropped, what was marked from is
      exactly what can be reached from the entries on the stack at the start, however the threads interleaved. */
  lemma ParallelMarkIsExact(run: seq<State>, steps: seq<Step>, k: nat)
    requires IsRun(run, steps) && k < |run| && run[k].phase.Finished?
    ensures forall e :: !InGlobal(run[k].stack, e) && !InLocal(run[k].threads, e)
    ensures !run[k].invalid ==> Closed(run[0], run[k].done)
    ensures forall within :: Closed(run[0], within) ==> run[k].done <= within
  {
    RunKeeps(run, steps, k);
    var s := run[k];
    if !s.invalid {
      forall e | e in s.all
        ensures e in s.done
      {
        assert Pending(s, e);
      }
      assert s.all == s.done;
      ClosedSame(run[0], s, s.done);
    }
    forall within | Closed(run[0], within)
      ensures s.done <= within
    {
      ClosedSame(run[0], s, within);
    }
  }
}
