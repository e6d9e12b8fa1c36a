/** What a mark phase with the world stopped marks, exactly: started in the invalid state, it ends with the marks it
    found, the roots, and everything the words of marked objects denote, and with nothing else. */
module FullMarking {
  import opened Heap
  import opened Collector
  import opened CollectorSafety
  import opened Finalization

  /** S holds the marks M, what the roots and their words denote, and is closed above them. */
  ghost predicate Surrounds(g: Graph, M: set<Obj>, S: set<Obj>) {
    M <= S && Rescan(g, M) <= S && ClosedAbove(g, M, S)
  }

  lemma SurroundsSucc(g: Graph, M: set<Obj>, S: set<Obj>, o: Obj)
    requires Surrounds(g, M, S) && o in S
    ensures Succ(g, o) <= S
  {
    if o in M {
      forall t | t in Succ(g, o)
        ensures t in S
      {
        assert t in Rescan(g, M);
      }
    }
  }

  /** Nothing is marked, and no word is looked at, that such a set does not hold. */
  ghost predicate Bounded(s: State, S: set<Obj>) {
    s.m.marks <= S && forall l, t :: Pending(s.m, l) && Denotes(WordAt(s.g, l), t) && t in s.g.heap ==> t in S
  }

  /** A word of a marked object that denotes an object. */
  ghost predicate Owed(s: State, o: Obj, i: nat) {
    o in s.m.marks && HasWord(s.g, o, i) && !s.g.heap[o][i].NonPtr? && s.g.heap[o][i].o in s.g.heap
  }

  ghost predicate Paid(s: State, o: Obj, i: nat)
    requires HasWord(s.g, o, i) && !s.g.heap[o][i].NonPtr?
  {
    s.g.heap[o][i].o in s.m.marks || Pending(s.m, Field(o, i)) || Excused(s, o, i)
  }

  ghost predicate RootPaid(s: State, i: nat) {
    i < |s.g.roots| && !s.g.roots[i].NonPtr? && s.g.roots[i].o in s.g.heap ==>
      s.g.roots[i].o in s.m.marks || Pending(s.m, RootLoc(i))
  }

  /** Every word of a marked object leads to a marked object, is pending, or the heap scan will come by; every root
      pushed so far leads to a marked object or is pending. */
  ghost predicate AllPaid(s: State) {
    && (forall o, i: nat :: Owed(s, o, i) ==> Paid(s, o, i))
    && (forall i: nat :: i in s.m.covered ==> RootPaid(s, i))
  }

  // ---------------------------------------------------------------- steps

  lemma FieldsBounded(g: Graph, M: set<Obj>, S: set<Obj>, o: Obj, l: Loc, t: Obj)
    requires Surrounds(g, M, S) && o in S && l in Fields(g, o) && Denotes(WordAt(g, l), t) && t in g.heap
    ensures t in S
  {
    SurroundsSucc(g, M, S, o);
    assert t in Succ(g, o);
  }

  /** Following a word keeps to S, if the word denotes an object of S. */
  lemma PushBounded(g: Graph, m: Marker, w: Word, M: set<Obj>, S: set<Obj>, l: Loc)
    requires MarkerOk(m) && Surrounds(g, M, S) && (!w.NonPtr? && w.o in g.heap ==> w.o in S)
    requires Pending(MarkAndPush(g, m, w), l) && !Pending(m, l)
    ensures !w.NonPtr? && w.o in S && l in Fields(g, w.o)
  {
    var r := MarkAndPush(g, m, w);
    var k :| 0 <= k < |r.stack| && l in r.stack[k];
    assert k < |m.stack| && r.stack[k] == m.stack[k] ==> Pending(m, l);
  }

  lemma FollowBounded(s: State, m0: Marker, m: Marker, w: Word, M: set<Obj>, S: set<Obj>)
    requires MarkerOk(m0) && Surrounds(s.g, M, S) && m == MarkAndPush(s.g, m0, w)
    requires m0.marks <= S && (!w.NonPtr? && w.o in s.g.heap ==> w.o in S)
    requires forall l, t :: Pending(m0, l) && Denotes(WordAt(s.g, l), t) && t in s.g.heap ==> t in S
    ensures m.marks <= S
    ensures forall l, t :: Pending(m, l) && Denotes(WordAt(s.g, l), t) && t in s.g.heap ==> t in S
  {
    hide MarkAndPush, Surrounds;
    MarkAndPushEffect(s.g, m0, w);
    forall l, t | Pending(m, l) && Denotes(WordAt(s.g, l), t) && t in s.g.heap
      ensures t in S
    {
      if !Pending(m0, l) {
        PushBounded(s.g, m0, w, M, S, l);
        FieldsBounded(s.g, M, S, w.o, l, t);
      }
    }
  }

  lemma StepBounded(s: State, s': State, a: Step, M: set<Obj>, S: set<Obj>)
    requires s.phase == Stopped && IsMark(a) && Takes(s, s', a) && Surrounds(s.g, M, S) && Bounded(s, S)
    ensures Bounded(s', S)
  {
    hide Surrounds, MarkAndPush;
    if a.SPop? {
      PopBounded(s, s', a.part, a.rest, S);
    } else if a.SScanWord? {
      ScanWordBounded(s, s', a.l, a.w, M, S);
    } else if a.SPushBlock? {
      PushBlockBounded(s, s', a.b, a.es, a.hand, M, S);
    } else if a.SPushRootRange? {
      PushRangeBounded(s, s', a.range, M, S);
    } else if a.SPushRootEagerly? {
      RootEagerlyBounded(s, s', a.i, a.w, M, S);
    } else if a.SMarkAll? {
      MarkAllBounded(s, s', a.marks, a.dropped, M, S);
    } else {
      assert forall x :: Pending(s'.m, x) ==> Pending(s.m, x);
    }
  }

  lemma ScanWordBounded(s: State, s': State, l: Loc, w: Word, M: set<Obj>, S: set<Obj>)
    requires s.phase == Stopped && ScanWord(s, s', l, w) && Surrounds(s.g, M, S) && Bounded(s, S)
    ensures Bounded(s', S)
  {
    hide Surrounds, MarkAndPush;
    var m0 := s.m.(hand := s.m.hand - {l});
    assert forall x :: Pending(m0, x) ==> Pending(s.m, x);
    assert Pending(s.m, l);
    FollowBounded(s, m0, s'.m, w, M, S);
  }

  lemma RootEagerlyBounded(s: State, s': State, i: nat, w: Word, M: set<Obj>, S: set<Obj>)
    requires s.phase == Stopped && PushRootEagerly(s, s', i, w) && Surrounds(s.g, M, S) && Bounded(s, S)
    ensures Bounded(s', S)
  {
    hide Surrounds, MarkAndPush;
    RootBounded(s, M, S, i);
    var m1 := MarkAndPush(s.g, s.m, w);
    FollowBounded(s, s.m, m1, w, M, S);
    assert forall x :: Pending(s'.m, x) ==> Pending(m1, x);
  }

  lemma RootBounded(s: State, M: set<Obj>, S: set<Obj>, i: nat)
    requires Surrounds(s.g, M, S)
    ensures var w := WordAt(s.g, RootLoc(i)); !w.NonPtr? && w.o in s.g.heap ==> w.o in S
  {
    var w := WordAt(s.g, RootLoc(i));
    if !w.NonPtr? && w.o in s.g.heap {
      assert Denotes(s.g.roots[i], w.o);
      assert RootDenotes(s.g, w.o);
    }
  }

  lemma PopBounded(s: State, s': State, part: set<Loc>, rest: set<Loc>, S: set<Obj>)
    requires Pop(s, s', part, rest) && Bounded(s, S)
    ensures Bounded(s', S)
  {
    var n := |s.m.stack| - 1;
    forall l | Pending(s'.m, l)
      ensures Pending(s.m, l)
    {
      if l in s'.m.hand {
        assert l in s.m.stack[n];
      } else {
        var k :| 0 <= k < |s'.m.stack| && l in s'.m.stack[k];
        assert l in s.m.stack[k];
      }
    }
  }

  lemma PushBlockBounded(s: State, s': State, b: nat, es: seq<set<Loc>>, hand: set<Loc>, M: set<Obj>, S: set<Obj>)
    requires PushBlock(s, s', b, es, hand) && Surrounds(s.g, M, S) && Bounded(s, S)
    ensures Bounded(s', S)
  {
    hide Surrounds;
    var n := |s.m.stack|;
    forall l | Pending(s'.m, l)
      ensures Pending(s.m, l) || l in BlockWork(s.g, s.m.marks, b)
    {
      if k :| 0 <= k < |s'.m.stack| && l in s'.m.stack[k] {
        if k < n {
          assert l in s.m.stack[k];
        } else {
          assert l in es[k - n];
        }
      }
    }
    forall l, t | Pending(s'.m, l) && Denotes(WordAt(s.g, l), t) && t in s.g.heap
      ensures t in S
    {
      if !Pending(s.m, l) {
        FieldsBounded(s.g, M, S, l.o, l, t);
      }
    }
  }

  lemma PushRangeBounded(s: State, s': State, range: set<nat>, M: set<Obj>, S: set<Obj>)
    requires PushRootRange(s, s', range) && Surrounds(s.g, M, S) && Bounded(s, S)
    ensures Bounded(s', S)
  {
    hide Surrounds;
    var n := |s.m.stack|;
    forall l | Pending(s'.m, l)
      ensures Pending(s.m, l) || l.RootLoc?
    {
      if k :| 0 <= k < |s'.m.stack| && l in s'.m.stack[k] {
        if k < n {
          assert l in s.m.stack[k];
        }
      }
    }
    forall l, t | Pending(s'.m, l) && Denotes(WordAt(s.g, l), t) && t in s.g.heap
      ensures t in S
    {
      if !Pending(s.m, l) {
        RootBounded(s, M, S, l.i);
      }
    }
  }

  lemma MarkAllBounded(s: State, s': State, marks: set<Obj>, dropped: bool, M: set<Obj>, S: set<Obj>)
    requires MarkAll(s, s', marks, dropped) && Surrounds(s.g, M, S) && Bounded(s, S)
    ensures Bounded(s', S)
  {
    var T := S * s.g.heap.Keys;
    forall l: Loc, o | l.Field? && l.o in T && l.o !in s.m.marks && Denotes(WordAt(s.g, l), o) && o in s.g.heap
      ensures o in T
    {
      assert l in Fields(s.g, l.o);
      FieldsBounded(s.g, M, S, l.o, l, o);
    }
    assert AllMarked(s, T);
  }

  // ---------------------------------------------------------------- nothing is missed

  /** If every pending word stays pending and every excuse stays good, what was paid for stays paid for. */
  lemma StillPaid(s: State, s': State)
    requires AllPaid(s) && s' == s.(m := s'.m) && s'.m.marks == s.m.marks && s'.m.covered <= s.m.covered
    requires forall l :: Pending(s.m, l) ==> Pending(s'.m, l)
    requires forall o, i: nat :: Owed(s, o, i) && Excused(s, o, i) ==> Paid(s', o, i)
    ensures AllPaid(s')
  {
    forall o, i: nat | Owed(s', o, i)
      ensures Paid(s', o, i)
    {
      assert Owed(s, o, i) && Paid(s, o, i);
    }
    forall i: nat | i in s'.m.covered
      ensures RootPaid(s', i)
    {
      assert RootPaid(s, i);
    }
  }

  lemma PopPaid(s: State, s': State, part: set<Loc>, rest: set<Loc>)
    requires AllPaid(s) && Pop(s, s', part, rest)
    ensures AllPaid(s')
  {
    var n := |s.m.stack| - 1;
    forall l | Pending(s.m, l)
      ensures Pending(s'.m, l)
    {
      if l in s.m.stack[n] && l !in part {
        assert s'.m.stack[n] == rest;
      } else if l !in s.m.stack[n] {
        var k :| 0 <= k < |s.m.stack| && l in s.m.stack[k];
        assert s'.m.stack[k] == s.m.stack[k];
      }
    }
    StillPaid(s, s');
  }

  lemma ScanWordPaid(s: State, s': State, l: Loc, w: Word)
    requires Inv(s) && s.phase == Stopped && AllPaid(s) && ScanWord(s, s', l, w)
    ensures AllPaid(s')
  {
    hide LayoutOk, SetsOk, ReachOk, PermanentOk, DirtyOk, TriColor, RootsOk, FreshOk, SweepOk, FinishOk, MarkAndPush;
    var m0 := s.m.(hand := s.m.hand - {l});
    MarkAndPushEffect(s.g, m0, w);
    assert forall x :: Pending(s.m, x) && x != l ==> Pending(m0, x);
    forall o, i: nat | Owed(s', o, i)
      ensures Paid(s', o, i)
    {
      if o in s.m.marks {
        assert Owed(s, o, i) && Paid(s, o, i);
      }
    }
    forall i: nat | i in s'.m.covered
      ensures RootPaid(s', i)
    {
      assert RootPaid(s, i);
    }
  }

  lemma PushBlockPaid(s: State, s': State, b: nat, es: seq<set<Loc>>, hand: set<Loc>)
    requires Inv(s) && AllPaid(s) && PushBlock(s, s', b, es, hand)
    ensures AllPaid(s')
  {
    hide SetsOk, ReachOk, PermanentOk, DirtyOk, TriColor, RootsOk, FreshOk, SweepOk, FinishOk;
    var n := |s.m.stack|;
    forall x | Pending(s.m, x) || x in BlockWork(s.g, s.m.marks, b)
      ensures Pending(s'.m, x)
    {
      if k :| 0 <= k < n && x in s.m.stack[k] {
        assert s'.m.stack[k] == s.m.stack[k];
      } else if k :| 0 <= k < |es| && x in es[k] {
        assert s'.m.stack[n + k] == es[k];
      }
    }
    forall o, i: nat | Owed(s, o, i) && Excused(s, o, i)
      ensures Paid(s', o, i)
    {
      if !Excused(s', o, i) {
        if s.m.ms == PushRescuers {
          WantedIfGrungy(s, o, i);
        }
        assert Wanted(s, o.block);
        assert o.block == b;
        assert Field(o, i) in BlockWork(s.g, s.m.marks, b);
      }
    }
    StillPaid(s, s');
  }

  lemma ScanEndPaid(s: State, s': State)
    requires Inv(s) && AllPaid(s) && ScanEnd(s, s')
    ensures AllPaid(s')
  {
    hide SetsOk, ReachOk, PermanentOk, DirtyOk, TriColor, RootsOk, FreshOk, SweepOk, FinishOk;
    assert forall x :: Pending(s.m, x) ==> Pending(s'.m, x);
    forall o, i: nat | Owed(s, o, i) && Excused(s, o, i)
      ensures Paid(s', o, i)
    {
      if s.m.ms == PushRescuers {
        WantedIfGrungy(s, o, i);
      }
    }
    StillPaid(s, s');
  }

  lemma RootRangePaid(s: State, s': State, range: set<nat>)
    requires AllPaid(s) && PushRootRange(s, s', range)
    ensures AllPaid(s')
  {
    var e := set i | i in range :: RootLoc(i);
    var n := |s.m.stack|;
    assert s'.m.stack[n] == e;
    forall x | Pending(s.m, x)
      ensures Pending(s'.m, x)
    {
      if k :| 0 <= k < n && x in s.m.stack[k] {
        assert s'.m.stack[k] == s.m.stack[k];
      }
    }
    forall o, i: nat | Owed(s', o, i)
      ensures Paid(s', o, i)
    {
      assert Owed(s, o, i) && Paid(s, o, i);
    }
    forall i: nat | i in s'.m.covered
      ensures RootPaid(s', i)
    {
      if i in range {
        assert RootLoc(i) in e;
      } else {
        assert RootPaid(s, i);
      }
    }
  }

  lemma RootEagerlyPaid(s: State, s': State, i: nat, w: Word)
    requires Inv(s) && s.phase == Stopped && AllPaid(s) && PushRootEagerly(s, s', i, w)
    ensures AllPaid(s')
  {
    hide LayoutOk, SetsOk, ReachOk, PermanentOk, DirtyOk, TriColor, RootsOk, FreshOk, SweepOk, FinishOk, MarkAndPush;
    MarkAndPushEffect(s.g, s.m, w);
    var m1 := MarkAndPush(s.g, s.m, w);
    assert forall x :: Pending(m1, x) ==> Pending(s'.m, x);
    forall o, j: nat | Owed(s', o, j)
      ensures Paid(s', o, j)
    {
      if o in s.m.marks {
        assert Owed(s, o, j) && Paid(s, o, j);
      }
    }
    forall j: nat | j in s'.m.covered
      ensures RootPaid(s', j)
    {
      if j in m1.covered {
        assert RootPaid(s, j);
      }
    }
  }

  lemma MarkAllPaid(s: State, s': State, marks: set<Obj>, dropped: bool)
    requires Inv(s) && AllPaid(s) && MarkAll(s, s', marks, dropped)
    ensures AllPaid(s')
  {
    hide LayoutOk, SetsOk, ReachOk, PermanentOk, DirtyOk, TriColor, RootsOk, FreshOk, SweepOk, FinishOk;
    forall o, i: nat | Owed(s', o, i)
      ensures Paid(s', o, i)
    {
      var l := Field(o, i);
      assert Denotes(WordAt(s.g, l), s.g.heap[o][i].o);
      if o in s.m.marks {
        assert Owed(s, o, i) && Paid(s, o, i);
      }
    }
    forall i: nat | i in s'.m.covered
      ensures RootPaid(s', i)
    {
      assert RootPaid(s, i);
      assert i < |s.g.roots| && !s.g.roots[i].NonPtr? ==> Denotes(WordAt(s.g, RootLoc(i)), s.g.roots[i].o);
    }
  }

  lemma StateStepPaid(s: State, s': State, a: Step)
    requires Inv(s) && AllPaid(s) && Takes(s, s', a)
    requires a.SRootsDone? || a.SMarkDone? || a.SStartUncollectable? || a.SStartRescan? || a.SGrowStack?
    ensures AllPaid(s')
  {
    hide LayoutOk, SetsOk, ReachOk, PermanentOk, DirtyOk, TriColor, RootsOk, SweepOk, FinishOk;
    assert forall x :: Pending(s.m, x) == Pending(s'.m, x);
    StillPaid(s, s');
  }

  lemma StepPaid(s: State, s': State, a: Step)
    requires Inv(s) && s.phase == Stopped && AllPaid(s) && IsMark(a) && Takes(s, s', a)
    ensures AllPaid(s')
  {
    hide Inv, AllPaid;
    if a.SPop? {
      PopPaid(s, s', a.part, a.rest);
    } else if a.SScanWord? {
      ScanWordPaid(s, s', a.l, a.w);
    } else if a.SPushBlock? {
      PushBlockPaid(s, s', a.b, a.es, a.hand);
    } else if a.SScanEnd? {
      ScanEndPaid(s, s');
    } else if a.SPushRootRange? {
      RootRangePaid(s, s', a.range);
    } else if a.SPushRootEagerly? {
      RootEagerlyPaid(s, s', a.i, a.w);
    } else if a.SMarkAll? {
      MarkAllPaid(s, s', a.marks, a.dropped);
    } else {
      StateStepPaid(s, s', a);
    }
  }

  // ---------------------------------------------------------------- the whole mark phase

  /** A state of the marker between its start at s0 and its end. */
  ghost predicate OnTheWay(s0: State, s: State) {
    && s == s0.(m := s.m) && Inv(s) && AllPaid(s) && s0.m.marks <= s.m.marks
    && forall S :: Surrounds(s0.g, s0.m.marks, S) ==> Bounded(s, S)
  }

  lemma {:induction false} MarkingExact(n: nat, s0: State, s: State)
    requires Inv(s0) && s0.intact && s0.phase == Stopped && OnTheWay(s0, s0) && MarkStepsN(n, s0, s)
    ensures OnTheWay(s0, s)
  {
    hide Inv, AllPaid, Bounded, Surrounds, Takes;
    if n > 0 {
      var u, a :| MarkStepsN(n - 1, s0, u) && IsMark(a) && Takes(u, s, a);
      MarkingExact(n - 1, s0, u);
      MarkStepFrame(u, s, a);
      StepKeeps(u, s, a);
      StepPaid(u, s, a);
      forall S | Surrounds(s0.g, s0.m.marks, S)
        ensures Bounded(s, S)
      {
        StepBounded(u, s, a, s0.m.marks, S);
      }
    }
  }

  /** A mark phase that starts in the invalid state, with nothing pending, and runs to its end with the world stopped
      marks exactly the marks it found, what the roots denote, what marked objects' words denote, and so on. */
  lemma StoppedMarkExact(s: State, t: State)
    requires Inv(s) && s.intact && s.phase == Stopped && s.m.ms == MsInvalid
    requires s.m.stack == [] && s.m.hand == {} && s.m.covered == {}
    requires MarkSteps(s, t) && t.m.ms == MsNone
    ensures t == s.(m := t.m) && IsTrace(s.g, s.m.marks, Rescan(s.g, s.m.marks), t.m.marks)
  {
    hide Inv, OnTheWay, IsTrace;
    var n: nat :| MarkStepsN(n, s, t);
    StartsOnTheWay(s);
    MarkingExact(n, s, t);
    EndsTraced(s, t);
  }

  lemma StartsOnTheWay(s: State)
    requires Inv(s) && s.m.ms == MsInvalid && s.m.stack == [] && s.m.hand == {} && s.m.covered == {}
    ensures OnTheWay(s, s)
  {
    hide Inv, Surrounds;
    forall S | Surrounds(s.g, s.m.marks, S)
      ensures Bounded(s, S)
    {
      assert s.m.marks <= S by {
        SurroundsMarks(s.g, s.m.marks, S);
      }
    }
  }

  lemma SurroundsMarks(g: Graph, M: set<Obj>, S: set<Obj>)
    requires Surrounds(g, M, S)
    ensures M <= S
  {
  }

  lemma EndsTraced(s: State, t: State)
    requires s.phase == Stopped && OnTheWay(s, t) && t.m.ms == MsNone
    ensures t == s.(m := t.m) && IsTrace(s.g, s.m.marks, Rescan(s.g, s.m.marks), t.m.marks)
  {
    hide Inv, AllPaid, Rescan;
    EndsClosed(s, t);
    var M := s.m.marks;
    forall S | Rescan(s.g, M) <= S && ClosedAbove(s.g, M, S)
      ensures t.m.marks <= S
    {
      assert Surrounds(s.g, M, S);
    }
  }

  lemma EndsClosed(s: State, t: State)
    requires s.phase == Stopped && OnTheWay(s, t) && t.m.ms == MsNone
    ensures Surrounds(s.g, s.m.marks, t.m.marks)
  {
    hide LayoutOk, SetsOk, ReachOk, PermanentOk, DirtyOk, TriColor, RootsOk, FreshOk, SweepOk, FinishOk, Bounded;
    forall o, u | o in t.m.marks && u in Succ(s.g, o)
      ensures u in t.m.marks
    {
      var i :| 0 <= i < |s.g.heap[o]| && Denotes(s.g.heap[o][i], u);
      assert Owed(t, o, i);
      assert !Pending(t.m, Field(o, i));
    }
    forall u | RootDenotes(s.g, u)
      ensures u in t.m.marks
    {
      var i :| 0 <= i < |s.g.roots| && Denotes(s.g.roots[i], u);
      assert RootPaid(t, i) && !Pending(t.m, RootLoc(i));
    }
  }
}
