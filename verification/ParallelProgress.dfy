/** The parallel marker never gets stuck: from every state of every run, the mark phase can be brought to its end. */
module ParallelProgress {
  import opened Arithmetic
  import opened ParallelMark

  ghost predicate ReachN(n: nat, s: State, t: State) {
    if n == 0 then s == t else exists u, a :: ReachN(n - 1, s, u) && Next(u, t, a)
  }

  /** Some sequence of steps leads from s to t. */
  ghost predicate Reaches(s: State, t: State) {
    exists n: nat :: ReachN(n, s, t)
  }

  lemma ReachRefl(s: State)
    ensures Reaches(s, s)
  {
    assert ReachN(0, s, s);
  }

  lemma ReachStep(s: State, u: State, t: State, a: Step)
    requires Reaches(s, u) && Next(u, t, a)
    ensures Reaches(s, t)
  {
    hide Next;
    var n: nat :| ReachN(n, s, u);
    assert ReachN(n + 1, s, t);
  }

  lemma {:induction false} ReachTransN(n: nat, s: State, u: State, t: State)
    requires Reaches(s, u) && ReachN(n, u, t)
    ensures Reaches(s, t)
  {
    hide Next;
    if n > 0 {
      var v, a :| ReachN(n - 1, u, v) && Next(v, t, a);
      ReachTransN(n - 1, s, u, v);
      ReachStep(s, v, t, a);
    }
  }

  lemma ReachTrans(s: State, u: State, t: State)
    requires Reaches(s, u) && Reaches(u, t)
    ensures Reaches(s, t)
  {
    var n: nat :| ReachN(n, u, t);
    ReachTransN(n, s, u, t);
  }

  lemma Go(s: State, u: State, t: State, a: Step)
    requires Reaches(s, u) && Inv(u) && Next(u, t, a)
    ensures Reaches(s, t) && Inv(t)
  {
    hide Inv, Next, Reaches;
    ReachStep(s, u, t, a);
    StepKeeps(u, t, a);
  }

  // ---------------------------------------------------------------- one thread alone

  /** How far a thread has looked through the global stack. */
  function Position(th: Thread): nat {
    match th.pc
    case Stealing(p, _) => p
    case Saw(p, _, _) => p
    case _ => th.myFirst
  }

  /** Everything marking could lead to. */
  function Kids(s: State): set<Entry> {
    set e, c | e in s.children && c in s.children[e] :: c
  }

  function PcRank(pc: Pc): nat {
    match pc
    case Stealing(p, high) => if p < high then 2 else 7
    case Working => 6
    case LoopTop => 5
    case HaveFirst(_) => 4
    case Compared => 3
    case Saw(_, _, _) => 1
    case _ => 0
  }

  /** Only thread t has moved on, and it is closer to its end. */
  ghost predicate Closer(s: State, u: State, t: Tid) {
    && t in s.threads && Same(s, u, t) && IsActive(u.threads[t]) && u.active == s.active
    && var th, th' := s.threads[t], u.threads[t];
       || Position(th) < Position(th') <= |s.stack|
       || (Position(th) == Position(th') && |Kids(s) - u.all| < |Kids(s) - s.all|)
       || (Position(th) == Position(th') && u.all == s.all && |th'.local| < |th.local|)
       || (Position(th) == Position(th') && u.all == s.all && |th'.local| == |th.local| &&
         PcRank(th'.pc) < PcRank(th.pc))
  }

  /** Nothing but thread t's own state, the marks and the bound of the stack has changed. */
  ghost predicate Same(s: State, u: State, t: Tid) {
    && t in u.threads && u.threads == s.threads[t := u.threads[t]] && |u.stack| == |s.stack|
    && u.phase == s.phase && u.children == s.children && u.main == s.main && u.helpWanted == s.helpWanted
    && s.firstNonempty <= u.firstNonempty
  }

  predicate AtEnd(s: State, t: Tid)
    requires t in s.threads
  {
    s.threads[t].pc.Compared? && s.threads[t].myFirst == |s.stack|
  }

  function AfterMarkOne(s: State, t: Tid, found: seq<Entry>): State
    requires t in s.threads && |s.threads[t].local| > 0
  {
    var l := s.threads[t].local;
    Put(s, t, s.threads[t].(local := l[..0] + l[1..] + found)).(done := s.done + {l[0]}, all := s.all + Elements(found))
  }

  lemma CanMarkOne(s: State, t: Tid, found: seq<Entry>)
    requires t in s.threads && s.threads[t].pc.Working? && |s.threads[t].local| > 0
    requires Elements(found) == Children(s, s.threads[t].local[0]) - s.all
    ensures Next(s, AfterMarkOne(s, t, found), MarkOne(t, 0, found))
  {
  }

  lemma CanTurn(s: State, t: Tid)
    requires t in s.threads && s.threads[t].pc.Working? && s.threads[t].local == []
    ensures Next(s, Put(s, t, s.threads[t].(pc := LoopTop)), LocalEmpty(t))
  {
  }

  lemma LocalStep(s: State, t: Tid) returns (u: State, a: Step)
    requires Inv(s) && t in s.threads && s.threads[t].pc.Working?
    ensures Next(s, u, a) && Closer(s, u, t)
  {
    hide Inv, Next, Kids, Children, Elements;
    var th := s.threads[t];
    if th.local == [] {
      a, u := LocalEmpty(t), Put(s, t, th.(pc := LoopTop));
      CanTurn(s, t);
    } else {
      var found := Listed(Children(s, th.local[0]) - s.all);
      a, u := MarkOne(t, 0, found), AfterMarkOne(s, t, found);
      CanMarkOne(s, t, found);
      MarkCloser(s, t, found);
    }
  }

  lemma MarkCloser(s: State, t: Tid, found: seq<Entry>)
    requires t in s.threads && s.threads[t].pc.Working? && |s.threads[t].local| > 0
    requires Elements(found) == Children(s, s.threads[t].local[0]) - s.all
    ensures Closer(s, AfterMarkOne(s, t, found), t)
  {
    hide Kids, Children, Elements, Closer;
    var u := AfterMarkOne(s, t, found);
    MarkingShrinks(s, s.threads[t].local[0], found);
    if found == [] {
      NoneFound(found);
      assert u.all == s.all;
      assert u.threads[t].local == s.threads[t].local[1..];
    }
    CloserBy(s, u, t);
  }

  lemma NoneFound(found: seq<Entry>)
    requires found == []
    ensures Elements(found) == {}
  {
  }

  lemma CloserBy(s: State, u: State, t: Tid)
    requires t in s.threads && Same(s, u, t) && u.active == s.active && s.threads[t].pc.Working?
    requires u.threads[t] == s.threads[t].(local := u.threads[t].local)
    requires |Kids(s) - u.all| < |Kids(s) - s.all| || (u.all == s.all && |u.threads[t].local| < |s.threads[t].local|)
    ensures Closer(s, u, t)
  {
    hide Kids;
  }

  lemma MarkingShrinks(s: State, e: Entry, found: seq<Entry>)
    requires Elements(found) == Children(s, e) - s.all
    ensures found == [] || |Kids(s) - (s.all + Elements(found))| < |Kids(s) - s.all|
  {
    if found != [] {
      var c := found[0];
      assert c in Elements(found) && c in Kids(s);
      var A, B := Kids(s) - (s.all + Elements(found)), Kids(s) - s.all;
      assert c in B && A <= B - {c};
      SubsetCard(A, B - {c});
    }
  }

  /** A set as a sequence. */
  lemma {:induction false} Listed(es: set<Entry>) returns (q: seq<Entry>)
    ensures Elements(q) == es
  {
    q := [];
    if es != {} {
      var e :| e in es;
      q := Listed(es - {e});
      assert Elements(q + [e]) == Elements(q) + {e};
      q := q + [e];
    }
  }

  function AfterTake(s: State, t: Tid): State
    requires t in s.threads && s.threads[t].pc.Saw? && s.threads[t].pc.p < |s.stack|
  {
    var th := s.threads[t];
    Put(s, t, th.(pc := Stealing(th.pc.p + 1, th.pc.high), local := th.local + [th.pc.entry]))
    .(stack := s.stack[th.pc.p := s.stack[th.pc.p].(taken := true)])
  }

  lemma CanTake(s: State, t: Tid)
    requires t in s.threads && s.threads[t].pc.Saw? && s.threads[t].pc.p < |s.stack|
    ensures Next(s, AfterTake(s, t), Take(t))
  {
  }

  function AfterLook(s: State, t: Tid): State
    requires t in s.threads && s.threads[t].pc.Stealing? && s.threads[t].pc.p < |s.stack|
  {
    var pc := s.threads[t].pc;
    var slot := s.stack[pc.p];
    Put(s, t, s.threads[t].(pc := if slot.taken then Stealing(pc.p + 1, pc.high) else Saw(pc.p, pc.high, slot.entry)))
  }

  lemma CanLook(s: State, t: Tid)
    requires t in s.threads && s.threads[t].pc.Stealing? && s.threads[t].pc.p < s.threads[t].pc.high <= |s.stack|
    ensures Next(s, AfterLook(s, t), Look(t))
  {
  }

  lemma CanStop(s: State, t: Tid)
    requires t in s.threads && s.threads[t].pc.Stealing?
    ensures Next(s, Put(s, t, s.threads[t].(pc := Working, myFirst := s.threads[t].pc.p)), StopStealing(t))
  {
  }

  lemma ThreadBounds(s: State, t: Tid)
    requires Inv(s) && t in s.threads
    ensures ThreadOk(s.stack, s.firstNonempty, s.threads[t]) && s.firstNonempty <= |s.stack|
  {
  }

  lemma StealStep(s: State, t: Tid) returns (u: State, a: Step)
    requires Inv(s) && t in s.threads && (s.threads[t].pc.Stealing? || s.threads[t].pc.Saw?)
    ensures Next(s, u, a) && Closer(s, u, t)
  {
    hide Inv, Next, Kids;
    var th := s.threads[t];
    ThreadBounds(s, t);
    if th.pc.Saw? {
      a, u := Take(t), AfterTake(s, t);
      CanTake(s, t);
    } else if th.pc.p < th.pc.high {
      a, u := Look(t), AfterLook(s, t);
      CanLook(s, t);
    } else {
      a, u := StopStealing(t), Put(s, t, th.(pc := Working, myFirst := th.pc.p));
      CanStop(s, t);
    }
  }

  lemma CanCompare(s: State, t: Tid)
    requires t in s.threads && s.threads[t].pc.HaveFirst?
    ensures Next(s, AfterCompare(s, t), CompareFirst(t))
  {
  }

  lemma CanReadTop(s: State, t: Tid)
    requires t in s.threads && s.threads[t].pc.Compared? && s.threads[t].myFirst < |s.stack|
    ensures Next(s, Put(s, t, s.threads[t].(pc := Stealing(s.threads[t].myFirst, |s.stack|))), ReadTop(t))
  {
  }

  lemma TopStep(s: State, t: Tid) returns (u: State, a: Step)
    requires Inv(s) && t in s.threads && !AtEnd(s, t)
    requires s.threads[t].pc.LoopTop? || s.threads[t].pc.HaveFirst? || s.threads[t].pc.Compared?
    ensures Next(s, u, a) && Closer(s, u, t)
  {
    hide Inv, Next, Kids;
    var th := s.threads[t];
    ThreadBounds(s, t);
    if th.pc.LoopTop? {
      a := ReadFirst(t);
      u := Reads(s, t);
    } else if th.pc.HaveFirst? {
      a, u := CompareFirst(t), AfterCompare(s, t);
      CanCompare(s, t);
    } else {
      a, u := ReadTop(t), Put(s, t, th.(pc := Stealing(th.myFirst, |s.stack|)));
      CanReadTop(s, t);
    }
  }

  function AfterCompare(s: State, t: Tid): State
    requires t in s.threads && s.threads[t].pc.HaveFirst?
  {
    var th := s.threads[t];
    var read := th.pc.first;
    Put(s, t, th.(pc := Compared, myFirst := if th.myFirst < read then read else th.myFirst))
    .(firstNonempty := if read < th.myFirst && s.firstNonempty == read then th.myFirst else s.firstNonempty)
  }

  lemma Advance(s: State, t: Tid) returns (u: State, a: Step)
    requires Inv(s) && t in s.threads && IsActive(s.threads[t]) && !AtEnd(s, t)
    ensures Next(s, u, a) && Closer(s, u, t)
  {
    hide Inv, Next, Closer;
    if s.threads[t].pc.Working? {
      u, a := LocalStep(s, t);
    } else if s.threads[t].pc.Stealing? || s.threads[t].pc.Saw? {
      u, a := StealStep(s, t);
    } else {
      u, a := TopStep(s, t);
    }
  }

  /** A thread left alone comes to the end of the global stack with nothing left to do. */
  lemma {:induction false} RunToEnd(s: State, t: Tid) returns (s': State)
    requires Inv(s) && t in s.threads && IsActive(s.threads[t])
    ensures Reaches(s, s') && Inv(s') && Same(s, s', t) && AtEnd(s', t) && s'.active == s.active
    decreases |s.stack| - Position(s.threads[t]), |Kids(s) - s.all|, |s.threads[t].local|, PcRank(s.threads[t].pc)
  {
    hide Inv, Next, Reaches;
    ReachRefl(s);
    if AtEnd(s, t) {
      s' := s;
      assert s.threads[t := s.threads[t]] == s.threads;
    } else {
      var u, a := Advance(s, t);
      Go(s, s, u, a);
      s' := RunToEnd(u, t);
      ReachTrans(s, u, s');
    }
  }

  /** ... and rests, with the bound of the global stack at its end. */
  lemma RunToRest(s: State, t: Tid) returns (s': State)
    requires Inv(s) && t in s.threads && IsActive(s.threads[t])
    ensures Reaches(s, s') && Inv(s') && Same(s, s', t) && s'.threads[t].pc.Resting? && s'.firstNonempty == |s'.stack|
  {
    hide Inv, Next, Reaches;
    s' := RunToEnd(s, t);
    if s'.firstNonempty < |s'.stack| {
      var u := RaiseBound(s', t);
      ReachTrans(s, s', u);
      s' := u;
    }
    EndsAtTop(s');
    var v := Rests(s', t);
    Go(s, s', v, Rest(t));
    s' := v;
  }

  lemma EndsAtTop(s: State)
    requires Inv(s)
    ensures s.firstNonempty <= |s.stack|
  {
  }

  lemma Rests(s: State, t: Tid) returns (u: State)
    requires Inv(s) && t in s.threads && AtEnd(s, t)
    ensures Next(s, u, Rest(t)) && Same(s, u, t) && u.threads[t] == s.threads[t].(pc := Resting)
    ensures u.firstNonempty == s.firstNonempty && u.stack == s.stack && u.all == s.all
  {
    u := Put(s, t, s.threads[t].(pc := Resting)).(active := if s.active > 0 then s.active - 1 else 0);
  }

  lemma Resumes(s: State, t: Tid) returns (u: State)
    requires t in s.threads && s.threads[t].pc.Resting? && s.firstNonempty < |s.stack|
    ensures Next(s, u, Resume(t)) && Same(s, u, t) && u.threads[t] == s.threads[t].(pc := LoopTop)
    ensures u.firstNonempty == s.firstNonempty && u.stack == s.stack && u.all == s.all
  {
    u := Put(s, t, s.threads[t].(pc := LoopTop)).(active := s.active + 1);
  }

  /** A thread at the end of the stack goes round once more and brings the bound up. */
  lemma RaiseBound(s: State, t: Tid) returns (s': State)
    requires Inv(s) && t in s.threads && AtEnd(s, t) && s.firstNonempty < |s.stack|
    ensures Reaches(s, s') && Inv(s') && Same(s, s', t) && AtEnd(s', t) && s'.firstNonempty == |s'.stack|
  {
    hide Inv, Next, Reaches;
    ReachRefl(s);
    var u := Rests(s, t);
    Go(s, s, u, Rest(t));
    var v := Resumes(u, t);
    Go(s, u, v, Resume(t));
    var w := Reads(v, t);
    Go(s, v, w, ReadFirst(t));
    s' := Compares(w, t);
    Go(s, w, s', CompareFirst(t));
  }

  lemma Reads(s: State, t: Tid) returns (u: State)
    requires t in s.threads && s.threads[t].pc.LoopTop?
    ensures Next(s, u, ReadFirst(t)) && u == Put(s, t, s.threads[t].(pc := HaveFirst(s.firstNonempty)))
  {
    u := Put(s, t, s.threads[t].(pc := HaveFirst(s.firstNonempty)));
  }

  lemma Compares(s: State, t: Tid) returns (u: State)
    requires t in s.threads && s.threads[t].pc == HaveFirst(s.firstNonempty)
    requires s.threads[t].myFirst == |s.stack| && s.firstNonempty < |s.stack|
    ensures Next(s, u, CompareFirst(t)) && Same(s, u, t) && AtEnd(u, t) && u.firstNonempty == |u.stack|
  {
    u := AfterCompare(s, t);
  }

  // ---------------------------------------------------------------- all of them

  /** The threads that take part and do not rest. */
  function Busy(s: State): set<Tid> {
    set t | t in s.threads && !s.threads[t].pc.Out? && !s.threads[t].pc.Resting?
  }

  lemma Enters(s: State, t: Tid) returns (u: State)
    requires t in s.threads && s.threads[t].pc.Joined?
    ensures Next(s, u, Enter(t)) && Same(s, u, t) && IsActive(u.threads[t])
  {
    u := Put(s, t, Thread(LoopTop, s.firstNonempty, [])).(active := s.active + 1);
  }

  lemma {:induction false} AllRest(s: State) returns (s': State)
    requires Inv(s)
    ensures Reaches(s, s') && Inv(s') && Busy(s') == {} && s'.threads.Keys == s.threads.Keys
    ensures s'.phase == s.phase && s'.main == s.main && s'.helpWanted == s.helpWanted
    ensures Busy(s) != {} || s.firstNonempty == |s.stack| ==> s'.firstNonempty == |s'.stack|
    ensures forall t :: t in s.threads ==> (s'.threads[t].pc.Out? <==> s.threads[t].pc.Out?)
    decreases |Busy(s)|
  {
    hide Inv, Next, Reaches;
    ReachRefl(s);
    s' := s;
    if Busy(s) != {} {
      var t :| t in Busy(s);
      var u := s;
      if s.threads[t].pc.Joined? {
        u := Enters(s, t);
        Go(s, s, u, Enter(t));
      } else {
        assert s.threads[t := s.threads[t]] == s.threads;
      }
      var v := RunToRest(u, t);
      ReachTrans(s, u, v);
      assert Busy(v) == Busy(s) - {t};
      s' := AllRest(v);
      ReachTrans(s, v, s');
    }
  }

  lemma NobodyActive(s: State)
    requires Inv(s) && Busy(s) == {}
    ensures s.active == 0
  {
    assert Active(s.threads) <= Busy(s);
  }

  function Resters(s: State): set<Tid> {
    set t | t in s.threads && s.threads[t].pc.Resting?
  }

  lemma Leaves(s: State, t: Tid) returns (u: State)
    requires t in s.threads && s.threads[t].pc.Resting? && s.active == 0 && s.firstNonempty == |s.stack|
    ensures Next(s, u, Leave(t)) && u.threads == s.threads[t := s.threads[t].(pc := Out)] && u.stack == s.stack
    ensures u.firstNonempty == s.firstNonempty && u.phase == s.phase && u.main == s.main && u.active == 0
  {
    u := Put(s, t, s.threads[t].(pc := Out)).(helpers := if s.helpers > 0 then s.helpers - 1 else 0, left := true);
  }

  lemma {:induction false} AllLeave(s: State) returns (s': State)
    requires Inv(s) && Busy(s) == {} && s.active == 0 && s.firstNonempty == |s.stack|
    ensures Reaches(s, s') && Inv(s') && s'.phase == s.phase && s'.main == s.main && s'.threads.Keys == s.threads.Keys
    ensures forall t :: t in s'.threads ==> s'.threads[t].pc.Out?
    decreases |Resters(s)|
  {
    hide Inv, Next, Reaches;
    ReachRefl(s);
    s' := s;
    if Resters(s) != {} {
      var t :| t in Resters(s);
      var u := Leaves(s, t);
      Go(s, s, u, Leave(t));
      assert Resters(u) == Resters(s) - {t} && Busy(u) == Busy(s);
      s' := AllLeave(u);
      ReachTrans(s, u, s');
    } else {
      forall t | t in s.threads
        ensures s.threads[t].pc.Out?
      {
        assert t !in Busy(s) && t !in Resters(s);
      }
    }
  }

  /** If some thread takes part, all can get out. */
  lemma Empties(s: State) returns (s': State)
    requires Inv(s) && !s.phase.NotStarted?
    ensures Reaches(s, s') && Inv(s') && s'.phase == s.phase && s'.main == s.main && s'.threads.Keys == s.threads.Keys
    ensures forall t :: t in s'.threads ==> s'.threads[t].pc.Out?
  {
    hide Inv, Next, Reaches;
    var u := AllRest(s);
    NobodyActive(u);
    EndsAtTop(u);
    if u.firstNonempty < |u.stack| && Resters(u) != {} {
      var t :| t in Resters(u);
      var v := Resumes(u, t);
      Go(s, u, v, Resume(t));
      var w := RunToRest(v, t);
      ReachTrans(s, v, w);
      assert Busy(w) == Busy(u);
      NobodyActive(w);
      u := w;
    }
    if Resters(u) == {} {
      forall t | t in u.threads
        ensures u.threads[t].pc.Out?
      {
        assert t !in Busy(u) && t !in Resters(u);
      }
      s' := u;
    } else {
      s' := AllLeave(u);
      ReachTrans(s, u, s');
    }
  }

  lemma Starts(s: State) returns (u: State)
    requires Inv(s) && s.phase.NotStarted?
    ensures Next(s, u, Start) && u.phase == Marking
  {
    assert Active(s.threads) == {} && Helpers(s.threads) == {};
    u := Put(s, s.main, Thread(Joined, 0, [])).(firstNonempty := 0, helpers := 1, helpWanted := true, phase := Marking);
  }

  lemma Closes(s: State) returns (u: State)
    requires Inv(s) && s.phase.Marking? && forall t :: t in s.threads ==> s.threads[t].pc.Out?
    ensures Next(s, u, Close) && u.phase == Closing && u.threads == s.threads
  {
    u := s.(helpWanted := false, phase := Closing);
  }

  lemma Ends(s: State) returns (u: State)
    requires Inv(s) && s.phase.Closing? && forall t :: t in s.threads ==> s.threads[t].pc.Out?
    ensures Next(s, u, Finish) && u.phase == Finished
  {
    assert Helpers(s.threads) == {};
    u := s.(phase := Finished);
  }

  /** From every state of every run GC_do_parallel_mark can return: no thread waits for ever for entries, for the end,
      or for another thread. */
  lemma CanFinish(run: seq<State>, steps: seq<Step>, k: nat) returns (s': State)
    requires IsRun(run, steps) && k < |run|
    ensures Reaches(run[k], s') && s'.phase.Finished?
  {
    hide Inv, Next, Reaches;
    RunKeeps(run, steps, k);
    var s := run[k];
    ReachRefl(s);
    s' := s;
    if s'.phase.NotStarted? {
      var u := Starts(s');
      Go(s, s', u, Start);
      s' := u;
    }
    if s'.phase.Marking? {
      var u := Empties(s');
      ReachTrans(s, s', u);
      var v := Closes(u);
      Go(s, u, v, Close);
      s' := v;
    }
    if s'.phase.Closing? {
      var u := Empties(s');
      ReachTrans(s, s', u);
      var v := Ends(u);
      Go(s, u, v, Finish);
      s' := v;
    }
  }
}
