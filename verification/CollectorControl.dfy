/** Collection control: when marking is started, abandoned, resumed and finished, how often it may be
    abandoned, and what the finished collection does to the heap. */
module CollectorControl {
  import opened Sizes
  import opened Heap
  import opened Collector
  import opened CollectorSafety
  import opened MarkPhase
  import opened Finalization
  import opened ClientProgram
  import opened FullMarking
  import opened Arithmetic

  const GC_RATE: nat := 10

  /** GC_never_stop_func, or a function that may return TRUE at any call. */
  datatype StopFunc = NeverStop | MayStop

  /** A sequence of calls of GC_mark_some. */
  ghost predicate StoppedRun(s: State, t: State, done: bool) {
    Ready(t) && MarkSteps(s, t) && OnlyMarker(s, t) && (done <==> t.m.ms == MsNone)
  }

  lemma StoppedRunStep(s0: State, s: State, t: State, done: bool)
    requires StoppedRun(s0, s, false) && Some(s, t, done)
    ensures StoppedRun(s0, t, done)
  {
    MarkTrans(s0, s, t);
  }

  // ---------------------------------------------------------------- what the calls do

  /** GC_stopped_mark: the world is stopped, a mark phase begins, and the marker alone runs until marking is complete
      or the attempt is abandoned. */
  ghost predicate Attempted(s: State, t: State, done: bool) {
    exists q, u :: Initiate(s, q) && MarkSteps(q, u) && if done then Complete(u, t) else Abandon(u, t)
  }

  /** GC_finish_collection: finalization, and then the freeing of blocks as the last thing. */
  ghost predicate Finished(s: State, t: State) {
    exists a, b, c :: Steps(s, a) && FinalizeDone(a, b) && Steps(b, c) && StartReclaim(c, t, t.reclaim)
  }

  /** On the way to p all marks but the permanent ones were cleared, and none was set since. */
  ghost predicate MarksCleared(s: State, p: State) {
    && p.m.ms == MsInvalid && !p.m.objectsMarked && p.intact
    && exists r, c :: Steps(s, r) && ClearMarks(r, c) && Steps(c, p)
  }

  /** A full collection: marks are cleared, the world is stopped, everything is marked, finalized and freed. */
  ghost predicate Collected(s: State, t: State) {
    exists p, v :: MarksCleared(s, p) && Attempted(p, v, true) && Finished(v, t)
  }

  /** A collection is begun, with marks cleared if it is a full one, and finished unless the attempt is abandoned. */
  ghost predicate Begun(s: State, t: State, full: bool) {
    exists p, v, done :: (if full then MarksCleared(s, p) else p == s) && Attempted(p, v, done)
                         && if done then Finished(v, t) else t == v
  }

  /** The collection in progress is finished. */
  ghost predicate Ended(s: State, t: State) {
    exists p, v :: Steps(s, p) && Attempted(p, v, true) && Finished(v, t)
  }

  class Control {
    const gc: Globals
    const fz: Finalizer
    var nAttempts: nat
    var isFullGc: bool
    var gcNo: nat
    var deficit: nat
    var dontGc: bool
    var timeUnlimited: bool

    // history: the mark state found by each call of GC_initiate_gc
    ghost var initiated: seq<MarkState>

    /** The number of abandoned attempts is within its limit, and no call of GC_initiate_gc found an unexpected
        state. */
    ghost predicate Bounded()
      reads this
    {
      nAttempts <= MAX_PRIOR_ATTEMPTS && forall i :: 0 <= i < |initiated| ==> initiated[i] in {MsNone, MsInvalid}
    }

    /** What holds whenever the collector's control code is not inside GC_stopped_mark. */
    ghost predicate Core()
      reads this, gc, fz
    {
      CoreOk(gc.St(), fz.table, fz.queue) && Bounded()
    }

    /** ... and between calls into the collector. */
    ghost predicate Valid()
      reads this, gc, fz
    {
      ControlOk(gc.St(), fz.table, fz.queue, nAttempts, isFullGc) && Bounded()
    }

    /** What holds after a call: the same, unless an unordered finalizer outside Java mode left marks open. */
    twostate predicate Going()
      reads this, gc, fz
    {
      && (gc.intact ==> Valid())
      && Bounded() && old(initiated) <= initiated
      && fz.java == old(fz.java) && (fz.java ==> gc.intact)
    }

    /** An empty heap. */
    constructor (gc: Globals, fz: Finalizer)
      requires Init(gc.St()) && fz.table == [] && fz.queue == []
      ensures Valid() && this.gc == gc && this.fz == fz && initiated == []
    {
      this.gc := gc;
      this.fz := fz;
      nAttempts := 0;
      isFullGc := false;
      gcNo := 0;
      deficit := 0;
      dontGc := false;
      timeUnlimited := false;
      initiated := [];
      InitHolds(gc.St());
    }

    /** GC_initiate_gc, with the world stopped; `abort` stands for ABORT("unexpected state"). */
    method InitiateGc() returns (abort: bool)
      requires gc.phase in {Running, Locked} && gc.hand == {} && !gc.scanDone
      requires gc.markState == MsNone ==> gc.incremental
      modifies this`initiated, gc`dirtyBits, gc`markState, gc`scanPtr, gc`covered, gc`phase
      ensures abort <==> old(gc.markState) !in {MsNone, MsInvalid}
      ensures initiated == old(initiated) + [old(gc.markState)]
      ensures !abort ==> Initiate(old(gc.St()), gc.St())
    {
      hide ReadDirty;
      initiated := initiated + [gc.markState];
      var first := gc.markState;
      abort := false;
      if gc.markState == MsNone {
        first := PushRescuers;
      } else if gc.markState != MsInvalid {
        abort := true;
      }
      var d := if gc.incremental then ReadDirty(gc.dirtyBits, gc.graph) else gc.dirtyBits.(touched := {});
      gc.SetInitiated(d, first);
    }

    method MarkOnce(ghost s0: State) returns (done: bool)
      requires StoppedRun(s0, gc.St(), false)
      modifies gc`markState, gc`marks, gc`markStack, gc`stackLimit, gc`stackTooSmall, gc`covered
      modifies gc`scanPtr, gc`objectsAreMarked, gc`hand, gc`scanDone
      ensures StoppedRun(s0, gc.St(), done)
      ensures !done ==> Less(gc.St(), old(gc.St()))
    {
      ghost var s := gc.St();
      done := gc.MarkSome();
      StoppedRunStep(s0, s, gc.St(), done);
    }

    /** GC_mark_some in a loop with the world stopped, until done or told to stop. */
    method MarkStopped(stop: StopFunc) returns (done: bool)
      requires Ready(gc.St()) && gc.phase == Stopped && gc.markState != MsNone
      modifies this`deficit
      modifies gc`markState, gc`marks, gc`markStack, gc`stackLimit, gc`stackTooSmall, gc`covered
      modifies gc`scanPtr, gc`objectsAreMarked, gc`hand, gc`scanDone
      ensures StoppedRun(old(gc.St()), gc.St(), done)
      ensures stop == NeverStop ==> done
    {
      hide MarkSteps, Ready;
      ghost var s0 := gc.St();
      MarkRefl(s0);
      done := false;
      var i := 0;
      while !done
        invariant StoppedRun(s0, gc.St(), done)
        invariant i >= 0
        decreases if done then 0 else 1, Unmarked(gc.St()), Rank(gc.St().m), Ahead(gc.St()), Work(gc.markStack)
      {
        if stop == MayStop {
          var told: bool := *;
          if told {
            deficit := i;
            return;
          }
        }
        done := MarkOnce(s0);
        i := i + 1;
      }
    }

    /** GC_stopped_mark. */
    method StoppedMark(stop: StopFunc) returns (done: bool)
      requires Core() && gc.phase in {Running, Locked}
      requires gc.markState == MsInvalid || (gc.markState == MsNone && gc.incremental)
      requires gc.mustFinish ==> stop == NeverStop
      modifies this`deficit, this`gcNo, this`initiated
      modifies gc`dirtyBits, gc`markState, gc`marks, gc`markStack, gc`stackLimit, gc`stackTooSmall, gc`covered
      modifies gc`scanPtr, gc`objectsAreMarked, gc`hand, gc`scanDone, gc`phase
      ensures Core() && Steps(old(gc.St()), gc.St()) && old(initiated) <= initiated
      ensures Attempted(old(gc.St()), gc.St(), done)
      ensures done ==> gc.phase == Finishing && gc.markState == MsNone && gcNo == old(gcNo) + 1
      ensures done ==> forall o :: ClientReachable(gc.graph, o) ==> o in gc.marks
      ensures !done ==> gc.phase == Running && gc.markState != MsNone && stop == MayStop && gcNo == old(gcNo)
    {
      hide Steps, MarkSteps, Inv, Initiate, Complete, Abandon, Takes, TablesOk, Ready;
      ghost var s0 := gc.St();
      BeginStopped();
      ghost var s1 := gc.St();
      done := MarkStopped(stop);
      ghost var s2 := gc.St();
      MarkIsSteps(s1, s2);
      JoinKeeps(s0, s1, s2);
      ReadyGives(s2);
      if done {
        CompleteMark();
        CompleteThen(s0, s2, gc.St());
      } else {
        AbandonMark();
        AbandonThen(s0, s2, gc.St());
      }
    }

    /** The world is stopped, and the mark phase begins; the abort cannot happen. */
    method BeginStopped()
      requires Core() && gc.phase in {Running, Locked}
      requires gc.markState == MsInvalid || (gc.markState == MsNone && gc.incremental)
      modifies this`initiated, gc`dirtyBits, gc`markState, gc`scanPtr, gc`covered, gc`phase
      ensures Steps(old(gc.St()), gc.St()) && Inv(gc.St()) && Ready(gc.St()) && gc.phase == Stopped
      ensures gc.markState != MsNone && Bounded() && old(initiated) <= initiated
      ensures Initiate(old(gc.St()), gc.St())
    {
      hide Steps, Inv, Initiate, TablesOk, Ready;
      ghost var s0 := gc.St();
      var abort := InitiateGc();
      assert !abort;
      InitiateThen(s0, gc.St());
    }

    /** The client runs while the lock is held. */
    method LetClientRun()
      requires Core() && gc.phase != Stopped
      modifies gc`graph, gc`dirtyBits
      ensures Core() && Steps(old(gc.St()), gc.St()) && Ran(old(gc.St()), gc.St(), fz.queue)
    {
      hide Inv, Steps, TablesOk;
      ghost var s := gc.St();
      ClientRuns(gc, fz);
      RanKeeps(s, gc.St(), fz.table, fz.queue);
    }

    method CompleteMark()
      requires gc.phase == Stopped && gc.markState == MsNone
      modifies this`gcNo, gc`covered, gc`phase
      ensures Complete(old(gc.St()), gc.St()) && gcNo == old(gcNo) + 1 && gc.phase == Finishing
    {
      gcNo := gcNo + 1;
      gc.phase, gc.covered := Finishing, {};
    }

    method AbandonMark()
      requires gc.phase == Stopped && !gc.mustFinish && gc.hand == {} && !gc.scanDone
      modifies gc`covered, gc`phase
      ensures Abandon(old(gc.St()), gc.St()) && gc.phase == Running
    {
      gc.phase, gc.covered := Running, {};
    }

    /** GC_finalize as part of GC_finish_collection: the queue is a root from then on. The invariant survives
        exactly if finalization is in Java mode, or every pointer of an unordered object leads to a
        registered object or to one that is kept anyway. */
    method RunFinalize() returns (ghost over: set<Obj>)
      requires Core() && gc.phase == Finishing
      modifies gc`graph, gc`marks, gc`phase, gc`intact, fz
      ensures FinalizeDone(old(gc.St()), gc.St()) && gc.phase == Finalized && fz.java == old(fz.java)
      ensures TablesOk(fz.table, fz.queue, gc.graph)
      ensures gc.intact <==> Inv(gc.St())
      ensures gc.intact <==>
                fz.java || UnorderedPointersKept(ClearLinks(old(gc.graph), old(fz.links), old(gc.marks)),
                                                 old(gc.marks), old(fz.table), over)
    {
      hide Inv, Finalize, Marked, ClosedAbove, Weaker, UnorderedPointersKept, AfterQueue, UnorderedMarked;
      ghost var s := gc.St();
      ghost var table0, queue0, links0 := fz.table, fz.queue, fz.links;
      InvGives(s);
      QueueIsMarked(s, queue0);
      var M := gc.marks;
      ghost var M1, rescan;
      var g1, M3;
      g1, M3, M1, over, rescan := fz.GcFinalize(gc.graph, M);
      var closed := fz.java || UnorderedMarked(g1, fz.queue, M, M3);
      gc.SetFinalized(g1.(roots := QueueRoots(g1.roots, fz.queue), fin := Objs(fz.table)), M3, closed);
      FinalizeStepDone(s, gc.St(), table0, queue0, links0, fz.java, g1, over, M1, rescan, M3);
    }

    /** GC_clear_fl_marks and GC_start_reclaim: blocks without a marked object are freed, and the small ones left are
        queued for sweeping, but for those in `full`, which GC_block_nearly_full does not think worth it. */
    method StartReclaimBlocks(full: set<nat>)
      requires gc.phase == Finalized
      modifies gc`graph, gc`marks, gc`free, gc`reclaim, gc`phase, gc`mustFinish
      ensures StartReclaim(old(gc.St()), gc.St(), gc.reclaim)
      ensures forall b :: b in gc.graph.blocks <==> b in old(gc.graph.blocks) && HoldsMark(old(gc.St()), b)
      ensures forall o :: o in gc.graph.heap <==>
                o in old(gc.graph.heap) && o.block in old(gc.graph.blocks) && HoldsMark(old(gc.St()), o.block)
      ensures forall o :: o in gc.graph.heap ==> gc.graph.heap[o] == old(gc.graph.heap)[o]
      ensures forall b :: b in gc.reclaim <==> b in gc.graph.blocks && gc.graph.blocks[b].len == 1 && b !in full
    {
      hide KeptBlocks, KeptHeap, HoldsMark;
      ghost var s := gc.St();
      var marks := gc.marks - gc.free;
      var kept := KeptBlocks(gc.graph, marks);
      var heap := KeptHeap(gc.graph, kept);
      gc.SetReclaiming(gc.graph.(heap := heap, blocks := kept, live := gc.graph.live * heap.Keys), marks,
                       set b | b in kept && kept[b].len == 1 && b !in full);
      StartReclaimFrees(s, gc.St(), gc.reclaim);
    }

    /** GC_finish_collection. If GC_finalize leaves marks open nothing is promised from then on. */
    method FinishCollection()
      requires Core() && gc.phase == Finishing && gc.markState == MsNone
      modifies this`nAttempts, this`isFullGc, fz
      modifies gc`graph, gc`dirtyBits, gc`marks, gc`free, gc`reclaim, gc`phase, gc`mustFinish, gc`intact
      ensures Steps(old(gc.St()), gc.St()) && gc.markState == MsNone
      ensures Finished(old(gc.St()), gc.St())
      ensures Going()
    {
      hide Steps, Inv, StartReclaim, TablesOk, Ran, FinalizeDone, HoldsMark;
      ghost var s0 := gc.St();
      LetClientRun();
      ghost var s1 := gc.St();
      ghost var s2 := FinalizeAndRun();
      ghost var s3 := gc.St();
      StepsTrans(s0, s1, s3);
      var full: set<nat> := *;
      StartReclaimBlocks(full);
      ReclaimThen(s0, s3, gc.St(), gc.reclaim, fz.table, fz.queue);
      nAttempts := 0;
      isFullGc := false;
    }

    /** GC_finalize, after which the client runs on before blocks are freed. */
    method FinalizeAndRun() returns (ghost s1: State)
      requires Core() && gc.phase == Finishing && gc.markState == MsNone
      modifies gc`graph, gc`dirtyBits, gc`marks, gc`phase, gc`intact, fz
      ensures FinalizeDone(old(gc.St()), s1) && Steps(s1, gc.St())
      ensures Steps(old(gc.St()), gc.St()) && gc.phase == Finalized
      ensures gc.intact ==> CoreOk(gc.St(), fz.table, fz.queue)
      ensures fz.java == old(fz.java) && (fz.java ==> gc.intact)
    {
      hide Steps, Inv, FinalizeDone, TablesOk, UnorderedPointersKept;
      ghost var s0 := gc.St();
      ghost var over := RunFinalize();
      s1 := gc.St();
      FinalizeThen(s0, s1);
      ClientRuns(gc, fz);
      StepsTrans(s0, s1, gc.St());
      if gc.intact {
        RanKeeps(s1, gc.St(), fz.table, fz.queue);
      }
    }

    method Lock()
      requires Core() && gc.phase == Running
      modifies gc`phase
      ensures Core() && gc.phase == Locked && Steps(old(gc.St()), gc.St())
    {
      hide Inv, Steps, TablesOk;
      ghost var s := gc.St();
      gc.phase := Locked;
      OneStep(s, gc.St(), SLockForFull);
    }

    method Release()
      requires Core() && gc.phase == Locked && !gc.mustFinish
      modifies gc`phase
      ensures Core() && gc.phase == Running && Steps(old(gc.St()), gc.St())
    {
      hide Inv, Steps, TablesOk;
      ghost var s := gc.St();
      gc.phase := Running;
      OneStep(s, gc.St(), SUnlock);
    }

    /** GC_reclaim_small_nonempty_block */
    method SweepBlock(b: nat)
      requires gc.phase == Locked && !gc.mustFinish && b in gc.reclaim && b in gc.graph.blocks
      modifies gc`graph, gc`dirtyBits, gc`marks, gc`free, gc`reclaim
      ensures Sweep(old(gc.St()), gc.St(), b)
    {
      var did := DoSweep(gc, b);
    }

    /** One turn of the loop in GC_reclaim_all: a block is swept, unless old blocks are to be ignored and it is one, not
        having been swept in the last cycle. */
    method ReclaimOne(b: nat, ignoreOld: bool, isOld: bool)
      requires Core() && gc.phase == Locked && !gc.mustFinish && b in gc.reclaim
      modifies gc`graph, gc`dirtyBits, gc`marks, gc`free, gc`reclaim
      ensures Core() && Steps(old(gc.St()), gc.St()) && gc.reclaim == old(gc.reclaim) - {b}
      ensures if ignoreOld && isOld then gc.St() == old(gc.St()).(reclaim := gc.reclaim)
              else Sweep(old(gc.St()), gc.St(), b)
    {
      hide Inv, Steps, TablesOk, Sweep, DropReclaim;
      ghost var s := gc.St();
      InvGives(s);
      if ignoreOld && isOld {
        gc.reclaim := gc.reclaim - {b};
        DropThen(s, gc.St(), b);
      } else {
        SweepBlock(b);
        SweepThen(s, gc.St(), b, fz.table, fz.queue);
      }
    }

    /** GC_reclaim_all: sweep or drop every block that waits to be swept. */
    method ReclaimAll(stop: StopFunc, ignoreOld: bool) returns (all: bool)
      requires Core() && gc.phase == Locked && !gc.mustFinish
      modifies gc`graph, gc`dirtyBits, gc`marks, gc`free, gc`reclaim
      ensures Core() && Steps(old(gc.St()), gc.St())
      ensures all ==> gc.reclaim == {}
      ensures stop == NeverStop ==> all
    {
      hide Inv, Steps, TablesOk;
      ghost var s0 := gc.St();
      StepsRefl(s0);
      while gc.reclaim != {}
        invariant Core() && Steps(s0, gc.St())
        decreases |gc.reclaim|
      {
        var told: bool := *;
        if stop == MayStop && told {
          return false;
        }
        ghost var s := gc.St();
        var b :| b in gc.reclaim;
        var isOld: bool := *;
        ReclaimOne(b, ignoreOld, isOld);
        ghost var s1 := gc.St();
        StepsTrans(s0, s, s1);
        LetClientRun();
        StepsTrans(s0, s1, gc.St());
      }
      return true;
    }

    /** GC_invalidate_mark_state and GC_clear_marks. */
    method ClearMarkBits()
      requires gc.phase == Locked
      modifies gc`markState, gc`marks, gc`markStack, gc`scanPtr, gc`objectsAreMarked, gc`mustFinish
      ensures ClearMarks(old(gc.St()), gc.St())
    {
      hide PermanentMarks;
      gc.markState := MsInvalid;
      gc.marks := PermanentMarks(gc.graph, gc.marks);
      gc.markStack := [];
      gc.scanPtr := 0;
      gc.objectsAreMarked := false;
      gc.mustFinish := gc.mustFinish || gc.reclaim != {};
    }

    method ClearAllMarks()
      requires Core() && gc.phase == Locked
      modifies gc`markState, gc`marks, gc`markStack, gc`scanPtr, gc`objectsAreMarked, gc`mustFinish
      ensures Core() && Steps(old(gc.St()), gc.St()) && gc.markState == MsInvalid && gc.markStack == []
      ensures gc.scanPtr == 0 && !gc.objectsAreMarked && ClearMarks(old(gc.St()), gc.St())
      ensures forall o :: o in gc.marks <==> o in old(gc.marks) && IsPermanent(gc.graph, o)
      ensures gc.mustFinish <==> old(gc.mustFinish) || gc.reclaim != {}
    {
      hide Inv, Steps, TablesOk, ClearMarks;
      ghost var s := gc.St();
      ClearMarkBits();
      ClearThen(s, gc.St());
    }

    /** The same, with the client running on before the world is stopped. */
    method ClearAndRun()
      requires Core() && gc.phase == Locked
      modifies gc`graph, gc`dirtyBits
      modifies gc`markState, gc`marks, gc`markStack, gc`scanPtr, gc`objectsAreMarked, gc`mustFinish
      ensures Core() && Steps(old(gc.St()), gc.St()) && gc.markState == MsInvalid
      ensures gc.mustFinish <==> old(gc.mustFinish) || gc.reclaim != {}
      ensures MarksCleared(old(gc.St()), gc.St())
    {
      hide Inv, Steps, TablesOk, Ran, ClearMarks;
      ghost var s := gc.St();
      ClearAllMarks();
      ghost var s1 := gc.St();
      LetClientRun();
      StepsTrans(s, s1, gc.St());
      StepsRefl(s);
    }

    /** GC_invalidate_mark_state after an abandoned collection outside incremental mode. */
    method InvalidateMarks()
      requires Core() && gc.phase == Running && !gc.incremental && gc.markState != MsNone
      modifies gc`markState, gc`markStack
      ensures Core() && Steps(old(gc.St()), gc.St()) && gc.markState == MsInvalid
    {
      hide Inv, Steps, TablesOk;
      ghost var s := gc.St();
      gc.markState := MsInvalid;
      gc.markStack := [];
      OneStep(s, gc.St(), SInvalidate);
    }

    /** The loop of GC_collect_a_little_inner: up to `last` calls of GC_mark_some, between which the client runs. */
    method MarkALittle(first: nat, last: nat) returns (done: bool, ghost calls: nat)
      requires Core() && gc.phase == Running && gc.incremental && gc.markState != MsNone
      modifies gc`graph, gc`dirtyBits
      modifies gc`markState, gc`marks, gc`markStack, gc`stackLimit, gc`stackTooSmall, gc`covered
      modifies gc`scanPtr, gc`objectsAreMarked, gc`hand, gc`scanDone
      ensures Core() && Steps(old(gc.St()), gc.St()) && (done <==> gc.markState == MsNone)
      ensures !done ==> if first < last then Less(gc.St(), old(gc.St())) else gc.St() == old(gc.St())
      ensures calls <= (if first < last then last - first else 0) && (!done ==> first + calls >= last)
    {
      hide Steps, Ready, Less, Inv, TablesOk;
      ghost var s0 := gc.St();
      StepsRefl(s0);
      done, calls := false, 0;
      var i := first;
      while i < last && !done
        invariant Core() && Steps(s0, gc.St()) && (done <==> gc.markState == MsNone)
        invariant i == first + calls && (i == first ==> gc.St() == s0 && !done) && (i > first ==> i <= last)
        invariant i > first && !done ==> Less(gc.St(), s0)
      {
        ghost var s := gc.St();
        done := MarkIncrement();
        StepsTrans(s0, s, gc.St());
        if !done && i > first {
          LessTrans(gc.St(), s, s0);
        }
        i, calls := i + 1, calls + 1;
      }
    }

    /** One increment, after which the client runs. */
    method MarkIncrement() returns (done: bool)
      requires Core() && gc.phase == Running && gc.incremental && gc.markState != MsNone
      modifies gc`graph, gc`dirtyBits
      modifies gc`markState, gc`marks, gc`markStack, gc`stackLimit, gc`stackTooSmall, gc`covered
      modifies gc`scanPtr, gc`objectsAreMarked, gc`hand, gc`scanDone
      ensures Core() && Steps(old(gc.St()), gc.St()) && (done <==> gc.markState == MsNone)
      ensures !done ==> Less(gc.St(), old(gc.St()))
    {
      hide Steps, Ready, Less, Inv, TablesOk;
      ghost var s := gc.St();
      InvReady(s);
      done := gc.MarkSome();
      ghost var s1 := gc.St();
      IncrementKeeps(s, s1, done, fz.table, fz.queue);
      LetClientRun();
      StepsTrans(s, s1, gc.St());
      RanSame(s1, gc.St(), fz.queue);
    }

    /** After a finished mark phase: repeat it with the world stopped, and finish the collection. */
    method FinishOrRetry()
      requires Core() && gc.phase == Running && gc.incremental && gc.markState == MsNone
      modifies this`nAttempts, this`isFullGc, this`gcNo, this`deficit, this`initiated, gc, fz
      ensures Steps(old(gc.St()), gc.St()) && gc.incremental && Going()
      ensures if gc.markState == MsNone then Ended(old(gc.St()), gc.St())
              else nAttempts == old(nAttempts) + 1 && !timeUnlimited
    {
      hide Inv, Steps, TablesOk, Attempted, Finished, Ended;
      ghost var s := gc.St();
      InvGives(s);
      StepsRefl(s);
      var finished := StoppedMark(if nAttempts < MAX_PRIOR_ATTEMPTS && !timeUnlimited then MayStop else NeverStop);
      ghost var v := gc.St();
      AfterAttempt(finished, s);
      if finished {
        EndedBy(s, s, v, gc.St());
      }
    }

    /** What follows an attempt to finish the mark phase of an incremental collection. */
    method AfterAttempt(finished: bool, ghost s0: State)
      requires Core() && Steps(s0, gc.St()) && gc.incremental
      requires if finished then gc.phase == Finishing && gc.markState == MsNone
               else gc.phase == Running && gc.markState != MsNone && nAttempts < MAX_PRIOR_ATTEMPTS
      modifies this`nAttempts, this`isFullGc, gc, fz
      ensures Steps(s0, gc.St()) && gc.incremental && Going() && initiated == old(initiated)
      ensures if finished then gc.markState == MsNone && Finished(old(gc.St()), gc.St())
              else nAttempts == old(nAttempts) + 1 && gc.St() == old(gc.St())
    {
      hide Inv, Steps, TablesOk, Finished;
      ghost var s := gc.St();
      if finished {
        FinishCollection();
        StepsTrans(s0, s, gc.St());
      } else {
        nAttempts := nAttempts + 1;
      }
    }

    /** GC_collect_a_little_inner with a collection in progress. A finished mark phase is repeated with the
        world stopped; the attempt after MAX_PRIOR_ATTEMPTS abandoned ones is not abandoned. */
    method ContinueCollection(n: nat) returns (ghost calls: nat)
      requires Valid() && gc.incremental && gc.markState != MsNone && n > 0
      modifies this`nAttempts, this`isFullGc, this`gcNo, this`deficit, this`initiated, gc, fz
      ensures Steps(old(gc.St()), gc.St()) && gc.incremental && Going()
      ensures if gc.markState == MsNone then Ended(old(gc.St()), gc.St())
              else CloserToEnd(old(nAttempts), old(gc.St()), old(deficit), nAttempts, gc.St(), deficit)
      ensures gc.markState != MsNone && nAttempts == old(nAttempts) ==>
                if old(deficit) > GC_RATE * n then calls == 0 && deficit == old(deficit) - GC_RATE * n
                else calls == GC_RATE * n - old(deficit) && deficit == 0
    {
      hide Inv, Steps, TablesOk, Ready, Less, Ended;
      ghost var s0 := gc.St();
      var done;
      done, calls := MarkALittle(deficit, GC_RATE * n);
      ghost var s1 := gc.St();
      if done {
        FinishOrRetry();
        StepsTrans(s0, s1, gc.St());
        if gc.markState == MsNone {
          EndedLater(s0, s1, gc.St());
        }
      }
      deficit := if deficit > GC_RATE * n then deficit - GC_RATE * n else 0;
    }

    /** GC_maybe_gc, when GC_should_collect says so: `full` stands for the choice of a full collection. */
    method MaybeGc(full: bool)
      requires Valid() && !(gc.incremental && gc.markState != MsNone) && !dontGc
      modifies this`nAttempts, this`isFullGc, this`gcNo, this`deficit, this`initiated, gc, fz
      ensures Steps(old(gc.St()), gc.St()) && gc.incremental == old(gc.incremental) && Going()
      ensures if gc.incremental then Begun(old(gc.St()), gc.St(), full)
              else !gc.intact || Collected(old(gc.St()), gc.St())
      decreases 2
    {
      hide Inv, Steps, TablesOk;
      if !gc.incremental {
        var ok := TryToCollect(NeverStop);
      } else {
        BeginIncremental(full);
      }
    }

    /** A partial or full collection is begun in incremental mode. */
    method BeginIncremental(full: bool)
      requires Valid() && gc.incremental && gc.markState == MsNone
      modifies this`nAttempts, this`isFullGc, this`gcNo, this`deficit, this`initiated, gc, fz
      ensures Steps(old(gc.St()), gc.St()) && gc.incremental && Going() && Begun(old(gc.St()), gc.St(), full)
    {
      hide Inv, Steps, TablesOk, Attempted, Finished, MarksCleared;
      ghost var s0 := gc.St();
      InvGives(s0);
      StepsRefl(s0);
      if full {
        BeginFull();
      }
      ghost var p := gc.St();
      var finished := StoppedMark(if timeUnlimited then NeverStop else MayStop);
      ghost var v := gc.St();
      StepsTrans(s0, p, v);
      if finished {
        FinishCollection();
        StepsTrans(s0, v, gc.St());
      } else if !isFullGc {
        nAttempts := nAttempts + 1;
      }
      BegunBy(s0, p, v, gc.St(), full, finished);
    }

    /** The full-collection branch of GC_maybe_gc: empty the reclaim lists, then clear the marks. */
    method BeginFull()
      requires Valid() && gc.incremental && gc.markState == MsNone
      modifies this`isFullGc, gc
      ensures Core() && gc.phase == Locked && gc.incremental && gc.markState == MsInvalid && !gc.mustFinish
      ensures isFullGc && Steps(old(gc.St()), gc.St()) && MarksCleared(old(gc.St()), gc.St())
    {
      hide Inv, Steps, TablesOk;
      ghost var s0 := gc.St();
      EmptyReclaimLists();
      ghost var s1 := gc.St();
      ClearAndRun();
      StepsTrans(s0, s1, gc.St());
      ClearedLater(s0, s1, gc.St());
      isFullGc := true;
    }

    method EmptyReclaimLists()
      requires Core() && gc.phase == Running
      modifies gc`graph, gc`dirtyBits, gc`marks, gc`free, gc`reclaim, gc`phase
      ensures Core() && Steps(old(gc.St()), gc.St()) && gc.phase == Locked && gc.reclaim == {} && !gc.mustFinish
    {
      hide Inv, Steps, TablesOk;
      ghost var s0 := gc.St();
      InvGives(s0);
      Lock();
      ghost var s1 := gc.St();
      var all := ReclaimAll(NeverStop, true);
      StepsTrans(s0, s1, gc.St());
    }

    /** GC_collect_a_little_inner */
    method CollectALittle(n: nat, should: bool, full: bool)
      requires Valid() && n > 0
      modifies this`nAttempts, this`isFullGc, this`gcNo, this`deficit, this`initiated, gc, fz
      ensures Steps(old(gc.St()), gc.St()) && gc.incremental == old(gc.incremental) && Going()
      ensures LittleDone(old(gc.St()), gc.St(), old(nAttempts), nAttempts, old(deficit), deficit, dontGc, should, full)
      decreases 3
    {
      hide Inv, Steps, TablesOk, Ended, CloserToEnd, Begun, Collected;
      StepsRefl(gc.St());
      if dontGc {
        return;
      }
      if gc.incremental && gc.markState != MsNone {
        ghost var calls := ContinueCollection(n);
      } else if should {
        MaybeGc(full);
      }
    }

    /** Finish a collection in progress; gives up when told to stop. */
    method FinishInProgress(stop: StopFunc) returns (ok: bool)
      requires Valid() && gc.incremental
      modifies this`nAttempts, this`isFullGc, this`gcNo, this`deficit, this`initiated, gc, fz
      ensures Steps(old(gc.St()), gc.St()) && gc.incremental && Going()
      ensures ok ==> gc.markState == MsNone && gc.intact
      ensures stop == NeverStop && gc.intact ==> ok
    {
      hide Inv, Steps, TablesOk;
      ghost var s0 := gc.St();
      StepsRefl(s0);
      while gc.markState != MsNone
        invariant Valid() && gc.incremental && Steps(s0, gc.St()) && fz.java == old(fz.java)
        invariant old(initiated) <= initiated
        decreases if gc.markState == MsNone then 0 else 1, MAX_PRIOR_ATTEMPTS - nAttempts,
          Unmarked(gc.St()), Rank(gc.St().m), Ahead(gc.St()), Work(gc.markStack), deficit
      {
        var told: bool := *;
        if stop == MayStop && told {
          return false;
        }
        ghost var s := gc.St();
        ghost var calls := ContinueCollection(1);
        StepsTrans(s0, s, gc.St());
        if !gc.intact {
          return false;
        }
      }
      return true;
    }

    /** GC_try_to_collect_inner: a full collection with the world stopped. */
    method TryToCollect(stop: StopFunc) returns (ok: bool)
      requires Valid()
      modifies this`nAttempts, this`isFullGc, this`gcNo, this`deficit, this`initiated, gc, fz
      ensures Steps(old(gc.St()), gc.St()) && gc.incremental == old(gc.incremental) && Going()
      ensures stop == NeverStop && !dontGc && gc.intact ==> ok
      ensures dontGc ==> !ok && gc.St() == old(gc.St())
      ensures ok ==> gc.markState == MsNone && Collected(old(gc.St()), gc.St())
      decreases 1
    {
      hide Inv, Steps, TablesOk, Collected;
      ghost var s0 := gc.St();
      StepsRefl(s0);
      if dontGc {
        return false;
      }
      if gc.incremental {
        ok := FinishInProgress(stop);
        if !ok {
          return;
        }
      }
      ghost var s1 := gc.St();
      ok := FullCollection(stop);
      StepsTrans(s0, s1, gc.St());
      if ok {
        CollectedLater(s0, s1, gc.St());
      }
    }

    method FullCollection(stop: StopFunc) returns (ok: bool)
      requires Valid() && (gc.incremental ==> gc.markState == MsNone)
      modifies this`nAttempts, this`isFullGc, this`gcNo, this`deficit, this`initiated, gc, fz
      ensures Steps(old(gc.St()), gc.St()) && gc.incremental == old(gc.incremental) && Going()
      ensures stop == NeverStop ==> ok
      ensures ok ==> gc.markState == MsNone && Collected(old(gc.St()), gc.St())
    {
      hide Inv, Steps, TablesOk, Attempted, Finished, MarksCleared;
      ghost var s0 := gc.St();
      ok := PrepareFull(stop);
      if !ok {
        return;
      }
      ghost var s1 := gc.St();
      ok := StoppedMark(stop);
      ghost var s2 := gc.St();
      StepsTrans(s0, s1, s2);
      ConcludeFull(ok, s0);
    }

    /** What follows the mark phase of a full collection. */
    method ConcludeFull(done: bool, ghost s0: State)
      requires Core() && Steps(s0, gc.St())
      requires if done then gc.phase == Finishing && gc.markState == MsNone
               else gc.phase == Running && gc.markState != MsNone
      modifies this`nAttempts, this`isFullGc, gc, fz
      ensures Steps(s0, gc.St()) && gc.incremental == old(gc.incremental) && Going()
      ensures done ==> gc.markState == MsNone && Finished(old(gc.St()), gc.St())
    {
      hide Inv, Steps, TablesOk, Finished;
      ghost var s := gc.St();
      if done {
        FinishCollection();
        StepsTrans(s0, s, gc.St());
      } else if !gc.incremental {
        InvalidateMarks();
        StepsTrans(s0, s, gc.St());
      }
    }

    /** Blocks that wait to be swept are swept first, unless the collection cannot be abandoned. */
    method PrepareFull(stop: StopFunc) returns (ok: bool)
      requires Valid() && (gc.incremental ==> gc.markState == MsNone)
      modifies this`isFullGc, gc
      ensures Steps(old(gc.St()), gc.St()) && gc.incremental == old(gc.incremental)
      ensures stop == NeverStop ==> ok
      ensures !ok ==> Valid()
      ensures ok ==> Core() && gc.phase == Locked && gc.markState == MsInvalid && isFullGc
      ensures ok ==> MarksCleared(old(gc.St()), gc.St())
      ensures ok && gc.mustFinish ==> stop == NeverStop
    {
      hide Inv, Steps, TablesOk, MarksCleared;
      ghost var s0 := gc.St();
      ok := SweepFirst(stop);
      if ok {
        ghost var s1 := gc.St();
        ClearAndRun();
        StepsTrans(s0, s1, gc.St());
        ClearedLater(s0, s1, gc.St());
        isFullGc := true;
      }
    }

    method SweepFirst(stop: StopFunc) returns (ok: bool)
      requires Core() && gc.phase == Running
      modifies gc`graph, gc`dirtyBits, gc`marks, gc`free, gc`reclaim, gc`phase
      ensures Core() && Steps(old(gc.St()), gc.St()) && !gc.mustFinish
      ensures stop == NeverStop ==> ok
      ensures gc.phase == if ok then Locked else Running
      ensures ok && gc.reclaim != {} ==> stop == NeverStop
    {
      hide Inv, Steps, TablesOk;
      ghost var s0 := gc.St();
      InvGives(s0);
      Lock();
      ghost var s1 := gc.St();
      ok := true;
      if stop != NeverStop {
        ok := ReclaimAll(stop, false);
        ghost var s2 := gc.St();
        StepsTrans(s0, s1, s2);
        if !ok {
          Release();
          StepsTrans(s0, s2, gc.St());
        }
      }
    }
  }

  /** Later in the cycle: another attempt was used up, or marking got further, or the deficit shrank. */
  ghost predicate CloserToEnd(attempts0: nat, s0: State, deficit0: nat, attempts: nat, s: State, deficit: nat) {
    attempts > attempts0 || (attempts == attempts0 && (Less(s, s0) || (s == s0 && deficit < deficit0)))
  }

  /** What GC_collect_a_little_inner does: nothing if collections are turned off; with a collection in progress it ends
      it or gets closer to its end; otherwise it begins one exactly if one is due. */
  ghost predicate LittleDone(s: State, t: State, attempts0: nat, attempts: nat, deficit0: nat, deficit: nat,
                             dontGc: bool, should: bool, full: bool) {
    if dontGc then t == s
    else if s.incremental && s.m.ms != MsNone then
      (if t.m.ms == MsNone then Ended(s, t) else CloserToEnd(attempts0, s, deficit0, attempts, t, deficit))
    else if !should then t == s
    else if s.incremental then Begun(s, t, full)
    else !t.intact || Collected(s, t)
  }

  lemma ClearedLater(s0: State, s: State, t: State)
    requires Steps(s0, s) && MarksCleared(s, t)
    ensures MarksCleared(s0, t)
  {
    hide Steps, ClearMarks;
    var r, c :| Steps(s, r) && ClearMarks(r, c) && Steps(c, t);
    StepsTrans(s0, s, r);
  }

  lemma CollectedLater(s0: State, s: State, t: State)
    requires Steps(s0, s) && Collected(s, t)
    ensures Collected(s0, t)
  {
    hide Steps, MarksCleared, Attempted, Finished;
    var p, v :| MarksCleared(s, p) && Attempted(p, v, true) && Finished(v, t);
    ClearedLater(s0, s, p);
  }

  lemma EndedLater(s0: State, s: State, t: State)
    requires Steps(s0, s) && Ended(s, t)
    ensures Ended(s0, t)
  {
    hide Steps, Attempted, Finished;
    var p, v :| Steps(s, p) && Attempted(p, v, true) && Finished(v, t);
    StepsTrans(s0, s, p);
  }

  lemma EndedBy(s: State, p: State, v: State, t: State)
    requires Steps(s, p) && Attempted(p, v, true) && Finished(v, t)
    ensures Ended(s, t)
  {
  }

  lemma BegunBy(s: State, p: State, v: State, t: State, full: bool, done: bool)
    requires if full then MarksCleared(s, p) else p == s
    requires Attempted(p, v, done) && if done then Finished(v, t) else t == v
    ensures Begun(s, t, full)
  {
  }

  /** What a full collection means for the heap: at some moment p the world was stopped with only permanent objects
      marked; what was marked then, in u, is exactly what those, the roots and the words of marked objects denote,
        and so
      everything the client could reach; and in the end every block left holds a marked object. */
  ghost predicate CollectedAt(s: State, t: State, p: State, q: State, u: State) {
    && Steps(s, p) && Initiate(p, q) && Steps(u, t) && u == q.(m := u.m)
    && (forall o :: o in q.m.marks ==> KindIn(q.g, o, {Uncollectable, AtomicUncollectable}))
    && IsTrace(q.g, q.m.marks, Rescan(q.g, q.m.marks), u.m.marks)
    && (forall o :: ClientReachable(u.g, o) ==> o in u.m.marks)
    && (forall b :: b in t.g.blocks ==> exists o :: o in t.m.marks && o.block == b)
  }

  lemma CollectedMeans(s: State, t: State)
    requires Inv(s) && s.intact && Collected(s, t)
    ensures exists p, q, u :: CollectedAt(s, t, p, q, u)
  {
    hide Inv, Steps, MarkSteps, Initiate, Complete, Reachable;
    var p, v :| MarksCleared(s, p) && Attempted(p, v, true) && Finished(v, t);
    ClearedSteps(s, p);
    StepsKeep(s, p);
    var q, u :| Initiate(p, q) && MarkSteps(q, u) && Complete(u, v);
    MarkedExactly(p, q, u, v);
    FinishedMeans(v, t);
    StepsRefl(u);
    StepsAppend(u, u, v, SComplete);
    StepsTrans(u, v, t);
    assert CollectedAt(s, t, p, q, u);
  }

  lemma ClearedSteps(s: State, p: State)
    requires MarksCleared(s, p)
    ensures Steps(s, p)
  {
    hide Steps;
    var r, c :| Steps(s, r) && ClearMarks(r, c) && Steps(c, p);
    StepsAppend(s, r, c, SClearMarks);
    StepsTrans(s, c, p);
  }

  lemma MarkedExactly(p: State, q: State, u: State, v: State)
    requires Inv(p) && p.intact && p.m.ms == MsInvalid && !p.m.objectsMarked
    requires Initiate(p, q) && MarkSteps(q, u) && Complete(u, v)
    ensures u == q.(m := u.m) && IsTrace(q.g, q.m.marks, Rescan(q.g, q.m.marks), u.m.marks)
    ensures forall o :: o in q.m.marks ==> IsPermanent(q.g, o)
    ensures forall o :: ClientReachable(u.g, o) ==> o in u.m.marks
  {
    hide Steps, MarkSteps, Reachable, IsTrace;
    StepsRefl(p);
    AppendKeeps(p, p, q, SInitiate);
    StoppedMarkExact(q, u);
    MarkIsSteps(q, u);
    StepsKeep(q, u);
    CompleteMarksAll(u);
  }

  lemma FinishedMeans(v: State, t: State)
    requires Finished(v, t)
    ensures Steps(v, t) && forall b :: b in t.g.blocks ==> exists o :: o in t.m.marks && o.block == b
  {
    hide Steps, StartReclaim, FinalizeDone;
    var a, b, c :| Steps(v, a) && FinalizeDone(a, b) && Steps(b, c) && StartReclaim(c, t, t.reclaim);
    FinalizeThen(a, b);
    StepsTrans(v, a, b);
    StepsTrans(v, b, c);
    StepsAppend(v, c, t, SStartReclaim(t.reclaim));
    StartReclaimFrees(c, t, t.reclaim);
    forall b | b in t.g.blocks
      ensures exists o :: o in t.m.marks && o.block == b
    {
      var o :| o in c.m.marks && o !in c.free && o.block == b;
      assert o in t.m.marks;
    }
  }

  lemma LessTrans(t: State, s: State, r: State)
    requires Less(t, s) && Less(s, r)
    ensures Less(t, r)
  {
  }

  lemma ReadyGives(s: State)
    requires Ready(s)
    ensures s.m.hand == {} && !s.m.scanDone && INITIAL_MARK_STACK_SIZE <= s.m.limit
  {
  }

  lemma IncrementKeeps(s: State, t: State, done: bool, table: seq<Entry>, queue: seq<Entry>)
    requires CoreOk(s, table, queue) && Some(s, t, done)
    ensures CoreOk(t, table, queue) && Steps(s, t)
  {
    hide Inv, Steps, MarkSteps, Less;
    MarkIsSteps(s, t);
    StepsKeep(s, t);
  }

  lemma ClearThen(s: State, t: State)
    requires Inv(s) && ClearMarks(s, t) && s.intact
    ensures Steps(s, t) && Inv(t)
    ensures t == s.(m := t.m, mustFinish := s.mustFinish || s.reclaim != {})
    ensures t.m == s.m.(ms := MsInvalid, marks := PermanentMarks(s.g, s.m.marks), stack := [], scanPtr := 0,
            objectsMarked := false)
  {
    hide Inv, Steps;
    OneStep(s, t, SClearMarks);
  }

  lemma OneStep(s: State, t: State, a: Step)
    requires Inv(s) && Takes(s, t, a) && s.intact && !a.SFinalize?
    ensures Steps(s, t) && Inv(t) && t.intact
  {
    hide Inv, Steps, Takes;
    StepsRefl(s);
    AppendKeeps(s, s, t, a);
  }

  lemma DropThen(s: State, t: State, b: nat)
    requires Inv(s) && s.intact && s.phase == Locked && t == s.(reclaim := s.reclaim - {b})
    ensures Steps(s, t) && Inv(t)
  {
    hide Inv, Steps;
    OneStep(s, t, SDropReclaim(b));
  }

  lemma SweepThen(s: State, t: State, b: nat, table: seq<Entry>, queue: seq<Entry>)
    requires Inv(s) && s.intact && Sweep(s, t, b) && TablesOk(table, queue, s.g)
    ensures Steps(s, t) && Inv(t) && TablesOk(table, queue, t.g)
    ensures t == s.(g := t.g, d := t.d, m := s.m.(marks := t.m.marks), free := t.free, reclaim := s.reclaim - {b})
  {
    hide Inv, Steps;
    OneStep(s, t, SSweep(b));
  }

  lemma FinalizeThen(s: State, t: State)
    requires FinalizeDone(s, t)
    ensures Steps(s, t)
    ensures t == s.(g := t.g, m := s.m.(marks := t.m.marks), phase := Finalized, intact := t.intact)
  {
    hide Steps;
    var queued :| Finalize(s, t, t.m.marks, t.g.heap, t.g.roots, queued);
    StepsRefl(s);
    StepsAppend(s, s, t, SFinalize(t.m.marks, t.g.heap, t.g.roots, queued));
  }

  lemma ReclaimThen(s0: State, s: State, t: State, reclaim: set<nat>, table: seq<Entry>, queue: seq<Entry>)
    requires Steps(s0, s) && StartReclaim(s, t, reclaim)
    requires s.intact ==> Inv(s) && TablesOk(table, queue, s.g)
    ensures Steps(s0, t) && t.intact == s.intact && t.m == s.m.(marks := t.m.marks)
    ensures t.phase == Running && t.incremental == s.incremental
    ensures t.intact ==> Inv(t) && TablesOk(table, queue, t.g)
  {
    StepsAppend(s0, s, t, SStartReclaim(reclaim));
    if t.intact {
      StepKeeps(s, t, SStartReclaim(reclaim));
      hide Inv, Steps, Takes;
      FinIsInHeap(t);
      QueueInHeap(t, queue);
    }
  }

  /** The root words with the finalization queue. */
  function QueueRoots(roots: seq<Word>, queue: seq<Entry>): seq<Word> {
    if queue == [] then roots else QueueRoots(roots, queue[1..]) + [Ptr(queue[0].obj)]
  }

  lemma {:induction false} QueueRootsHold(roots: seq<Word>, queue: seq<Entry>, t: Obj)
    ensures Ptr(t) in QueueRoots(roots, queue) <==> Ptr(t) in roots || t in Objs(queue)
  {
    if queue != [] {
      QueueRootsHold(roots, queue[1..], t);
      assert queue == [queue[0]] + queue[1..];
    }
  }

  /** All pointers of an object lead to objects of M. */
  predicate PointersMarked(g: Graph, o: Obj, M: set<Obj>)
    ensures PointersMarked(g, o, M) <==> forall t :: Edge(g, o, t) ==> t in M
  {
    Scannable(g, o) ==> forall i :: 0 <= i < |g.heap[o]| && g.heap[o][i].Ptr? ==> g.heap[o][i].o in M
  }

  /** All pointers of the unordered objects among these entries, if they are not in M, lead to objects of M3. */
  predicate UnorderedMarked(g: Graph, es: seq<Entry>, M: set<Obj>, M3: set<Obj>) {
    forall e :: e in es && e.obj !in M && e.proc == NullProc ==> PointersMarked(g, e.obj, M3)
  }

  /** The graph GC_finalize leaves. */
  function FinalizedGraph(g1: Graph, table: seq<Entry>, queue: seq<Entry>, M1: set<Obj>): Graph {
    g1.(roots := QueueRoots(g1.roots, Queue(table, M1) + queue), fin := Objs(Keep(table, M1)))
  }

  /** What GC_finalize did, from state s: g1 is the graph without the links that disappeared. */
  ghost predicate FinalizeCall(s: State, table: seq<Entry>, queue: seq<Entry>, links: seq<Link>, java: bool, g1: Graph,
                               over: set<Obj>, M1: set<Obj>, rescan: bool, M3: set<Obj>) {
    && Inv(s) && s.phase == Finishing && TablesOk(table, queue, s.g)
    && g1 == ClearLinks(s.g, links, s.m.marks) && Marked(g1, s.m.marks, table, over, M1)
    && M3 <= g1.heap.Keys && AfterQueue(g1, M1, table, Queue(table, M1) + queue, java, rescan, M3)
  }

  lemma FinalizeStepDone(s: State, t: State, table: seq<Entry>, queue: seq<Entry>, links: seq<Link>, java: bool,
                         g1: Graph, over: set<Obj>, M1: set<Obj>, rescan: bool, M3: set<Obj>)
    requires FinalizeCall(s, table, queue, links, java, g1, over, M1, rescan, M3) && s.intact
    requires t == s.(g := FinalizedGraph(g1, table, queue, M1), m := s.m.(marks := M3), phase := Finalized,
             intact := t.intact)
    requires t.intact <==> (java || UnorderedMarked(g1, Queue(table, M1) + queue, s.m.marks, M3))
    ensures FinalizeDone(s, t) && TablesOk(Keep(table, M1), Queue(table, M1) + queue, t.g)
    ensures t.intact <==> Inv(t)
    ensures t.intact <==> java || UnorderedPointersKept(g1, s.m.marks, table, over)
  {
    hide Inv, Marked, AfterQueue, TablesOk, UnorderedPointersKept, UnorderedMarked, FinalizeDone, Finalize;
    var u := t.(intact := NewMarksClosed(t.g, s.m.marks, M3));
    FinalizationStep(s, u, table, queue, links, java, g1, over, M1, rescan, M3);
    UnorderedQueued(s, table, queue, links, java, g1, over, M1, rescan, M3);
    assert t == u;
    assert FinalizeDone(s, t) && (Inv(t) <==> t.intact) by {
      var queued := Objs(Queue(table, M1));
      FinalizeKeepsIff(s, t, M3, t.g.heap, t.g.roots, queued);
      DoneWith(s, t, queued);
    }
    FinalizeTables(s.g, t.g, table, queue, M1);
  }

  lemma DoneWith(s: State, t: State, queued: set<Obj>)
    requires Finalize(s, t, t.m.marks, t.g.heap, t.g.roots, queued)
    ensures FinalizeDone(s, t)
  {
  }

  /** GC_finalize takes the step Finalize of the collector: registered objects end up marked, the queued
      ones move from the table to the roots. The newly marked objects point to marked ones exactly if
      finalization is in Java mode or every pointer of an unordered object is to a registered object or to
      one that is kept anyway. */
  lemma FinalizationStep(s: State, t: State, table: seq<Entry>, queue: seq<Entry>, links: seq<Link>, java: bool,
                         g1: Graph, over: set<Obj>, M1: set<Obj>, rescan: bool, M3: set<Obj>)
    requires FinalizeCall(s, table, queue, links, java, g1, over, M1, rescan, M3) && s.intact
    requires t == s.(g := FinalizedGraph(g1, table, queue, M1), m := s.m.(marks := M3), phase := Finalized,
                     intact := NewMarksClosed(t.g, s.m.marks, M3))
    ensures Finalize(s, t, M3, t.g.heap, t.g.roots, Objs(Queue(table, M1))) && t.g.heap.Keys == s.g.heap.Keys
    ensures NewMarksClosed(t.g, s.m.marks, M3) <==> java || UnorderedPointersKept(g1, s.m.marks, table, over)
  {
    hide Inv, Marked, AfterQueue, TablesOk, UnorderedPointersKept, NewMarksClosed, Finalize, ClosedAbove;
    FinalizeStepTaken(s, t, table, queue, links, java, g1, over, M1, rescan, M3);
    UnorderedQueued(s, table, queue, links, java, g1, over, M1, rescan, M3);
    NewMarksClosedIff(s, t, table, queue, links, java, g1, over, M1, rescan, M3);
  }

  lemma FinalizeStepTaken(s: State, t: State, table: seq<Entry>, queue: seq<Entry>, links: seq<Link>, java: bool,
                          g1: Graph, over: set<Obj>, M1: set<Obj>, rescan: bool, M3: set<Obj>)
    requires FinalizeCall(s, table, queue, links, java, g1, over, M1, rescan, M3) && s.intact
    requires t == s.(g := FinalizedGraph(g1, table, queue, M1), m := s.m.(marks := M3), phase := Finalized,
                     intact := NewMarksClosed(t.g, s.m.marks, M3))
    ensures Finalize(s, t, M3, t.g.heap, t.g.roots, Objs(Queue(table, M1))) && Weaker(s.g, g1)
    ensures t.g.heap.Keys == s.g.heap.Keys
  {
    hide Inv, Marked, AfterQueue, TablesOk, NewMarksClosed, ClosedAbove;
    ClearLinksWeaker(s.g, links, s.m.marks);
    AfterQueueClosed(g1, s.m.marks, table, over, M1, Queue(table, M1) + queue, java, rescan, M3);
    TablesGive(table, queue, s.g);
    TablesSplit(table, M1);
    FinalizeRoots(s.g, g1, table, queue, M1);
    assert s.g.fin - Objs(Queue(table, M1)) == t.g.fin;
    assert t.g == s.g.(heap := t.g.heap, roots := t.g.roots, fin := s.g.fin - Objs(Queue(table, M1)));
  }

  /** The pointers of the queued unordered objects, seen from before the call and from after it. */
  lemma UnorderedQueued(s: State, table: seq<Entry>, queue: seq<Entry>, links: seq<Link>, java: bool, g1: Graph,
                        over: set<Obj>, M1: set<Obj>, rescan: bool, M3: set<Obj>)
    requires FinalizeCall(s, table, queue, links, java, g1, over, M1, rescan, M3)
    ensures !java ==>
              (UnorderedPointersKept(g1, s.m.marks, table, over) <==>
               UnorderedMarked(g1, Queue(table, M1) + queue, s.m.marks, M3))
  {
    hide Inv, Marked, UnorderedPointersKept;
    var M := s.m.marks;
    InvGives(s);
    QueueIsMarked(s, queue);
    ClearLinksWeaker(s.g, links, M);
    forall e, t | e in table && Edge(g1, e.obj, t)
      ensures t in g1.heap
    {
      PointsIntoHeap(s, g1, e.obj, t);
    }
    NonJavaPointersIff(g1, M, table, over, M1);
    forall e | e in Queue(table, M1)
      ensures e.obj !in M
    {
      QueuedNotMarked(g1, M, table, over, M1, e);
    }
    assert forall e :: e in queue ==> e.obj in Objs(queue);
  }

  /** A pointer of a registered object, before or after links were cleared, is to an object of the heap. */
  lemma PointsIntoHeap(s: State, g1: Graph, o: Obj, t: Obj)
    requires Inv(s) && Weaker(s.g, g1) && Edge(g1, o, t) && (o in s.g.fin || Reachable(s.g, o))
    ensures Edge(s.g, o, t) && Reachable(s.g, t) && t in g1.heap && t in Succ(g1, o)
  {
    WeakerEdge(s.g, g1, o, t);
    if o in s.g.fin {
      BaseIsReachable(s.g, o);
    }
    EdgeIsReachable(s.g, o, t);
    assert t in s.g.live;
  }

  lemma NewMarksClosedIff(s: State, t: State, table: seq<Entry>, queue: seq<Entry>, links: seq<Link>, java: bool,
                          g1: Graph, over: set<Obj>, M1: set<Obj>, rescan: bool, M3: set<Obj>)
    requires FinalizeCall(s, table, queue, links, java, g1, over, M1, rescan, M3) && Weaker(s.g, g1)
    requires t.g == FinalizedGraph(g1, table, queue, M1) && t.m.marks == M3
    requires Finalize(s, t, M3, t.g.heap, t.g.roots, Objs(Queue(table, M1)))
    ensures NewMarksClosed(t.g, s.m.marks, M3) <==>
              java || UnorderedMarked(g1, Queue(table, M1) + queue, s.m.marks, M3)
  {
    hide Inv, Marked, AfterQueue, TablesOk, Finalize, Weaker, Reachable;
    var M := s.m.marks;
    AfterQueueClosed(g1, M, table, over, M1, Queue(table, M1) + queue, java, rescan, M3);
    FinalizeShrinks(s, t, M3, t.g.heap, t.g.roots, Objs(Queue(table, M1)));
    TablesGive(table, queue, s.g);
    QueueIsMarked(s, queue);
    if java || UnorderedMarked(g1, Queue(table, M1) + queue, M, M3) {
      forall o, u | o in M3 && o !in M && Reachable(t.g, o) && Edge(t.g, o, u)
        ensures u in M3
      {
        assert Edge(g1, o, u);
        PointsIntoHeap(s, g1, o, u);
        NewMarkPoints(s, table, queue, links, java, g1, over, M1, rescan, M3, o, u);
      }
    }
    if NewMarksClosed(t.g, M, M3) {
      forall e, u | e in Queue(table, M1) + queue && e.obj !in M && Edge(g1, e.obj, u)
        ensures u in M3
      {
        QueuedIsHeld(table, queue, g1, M1, e);
        assert e in Queue(table, M1);
        assert e.obj in M3 && Edge(t.g, e.obj, u);
      }
      forall e | e in Queue(table, M1) + queue && e.obj !in M
        ensures PointersMarked(g1, e.obj, M3)
      {
      }
    }
  }

  lemma NewMarkPoints(s: State, table: seq<Entry>, queue: seq<Entry>, links: seq<Link>, java: bool, g1: Graph,
                      over: set<Obj>, M1: set<Obj>, rescan: bool, M3: set<Obj>, o: Obj, u: Obj)
    requires FinalizeCall(s, table, queue, links, java, g1, over, M1, rescan, M3)
    requires java || UnorderedMarked(g1, Queue(table, M1) + queue, s.m.marks, M3)
    requires o in M3 && o !in s.m.marks && Edge(g1, o, u) && u in Succ(g1, o)
    ensures u in M3
  {
    hide Inv, TablesOk;
    AfterQueueClosed(g1, s.m.marks, table, over, M1, Queue(table, M1) + queue, java, rescan, M3);
    if !java && o !in M1 {
      var e :| e in Queue(table, M1) && e.obj == o;
      QueuedNotMarked(g1, s.m.marks, table, over, M1, e);
      if e.proc == NullProc {
        assert e in Queue(table, M1) + queue;
      } else {
        OrderedClosed(g1, s.m.marks, table, over, M1, e);
      }
    }
  }

  /** A queued object is reachable afterwards. */
  lemma QueuedIsHeld(table: seq<Entry>, queue: seq<Entry>, g1: Graph, M1: set<Obj>, e: Entry)
    requires e in Queue(table, M1) + queue
    ensures Reachable(FinalizedGraph(g1, table, queue, M1), e.obj)
  {
    QueueRootsHold(g1.roots, Queue(table, M1) + queue, e.obj);
    BaseIsReachable(FinalizedGraph(g1, table, queue, M1), e.obj);
  }

  // ---------------------------------------------------------------- the order of finalization

  /** Pointers the client could follow lead from o to t, one at least. */
  ghost predicate PointersLead(g: Graph, p: seq<Obj>, o: Obj, t: Obj) {
    |p| >= 2 && p[0] == o && p[|p| - 1] == t && forall k :: 0 < k < |p| ==> Edge(g, p[k - 1], p[k])
  }

  /** At the end of every cycle, incremental or not: no pointers lead from an ordered unmarked object to a
      queued one, except from an object that ignores itself to itself. */
  lemma QueuedInOrder(s: State, table: seq<Entry>, queue: seq<Entry>, links: seq<Link>, java: bool, g1: Graph,
                      over: set<Obj>, M1: set<Obj>, rescan: bool, M3: set<Obj>, e: Entry, f: Entry, p: seq<Obj>)
    requires FinalizeCall(s, table, queue, links, java, g1, over, M1, rescan, M3)
    requires e in Queue(table, M1) && f in table && f.obj !in s.m.marks
    requires f.proc == NormalProc || (f.proc == IgnoreSelf && e.obj != f.obj)
    ensures !PointersLead(g1, p, f.obj, e.obj)
  {
    if PointersLead(g1, p, f.obj, e.obj) {
      ClearLinksWeaker(s.g, links, s.m.marks);
      QueuedNotMarked(g1, s.m.marks, table, over, M1, e);
      LeadsInside(s, table, g1, over, M1, f, p);
    }
  }

  lemma {:induction false} LeadsInside(s: State, table: seq<Entry>, g1: Graph, over: set<Obj>, M1: set<Obj>, f: Entry,
                                       p: seq<Obj>)
    requires Inv(s) && s.phase == Finishing && Objs(table) == s.g.fin && Weaker(s.g, g1)
    requires Marked(g1, s.m.marks, table, over, M1) && f in table && f.obj !in s.m.marks && f.proc != NullProc
    requires |p| >= 2 && p[0] == f.obj && forall k :: 0 < k < |p| ==> Edge(g1, p[k - 1], p[k])
    ensures p[|p| - 1] in Around(M1, f) && Reachable(s.g, p[|p| - 1])
  {
    hide LayoutOk, SetsOk, PermanentOk, DirtyOk, TriColor, RootsOk, CtrlOk, FreshOk, SweepOk, ReachOk, Weaker,
      Reachable;
    var x, y := p[|p| - 2], p[|p| - 1];
    assert Edge(g1, x, y);
    OrderedClosed(g1, s.m.marks, table, over, M1, f);
    if |p| > 2 {
      LeadsInside(s, table, g1, over, M1, f, p[..|p| - 1]);
    }
    PointsIntoHeap(s, g1, x, y);
  }

  lemma WeakerGives(g: Graph, g1: Graph)
    requires Weaker(g, g1)
    ensures g1.heap.Keys == g.heap.Keys
    ensures forall u :: Ptr(u) in g1.roots ==> Ptr(u) in g.roots
  {
    forall u | Ptr(u) in g1.roots
      ensures Ptr(u) in g.roots
    {
      var i :| 0 <= i < |g1.roots| && g1.roots[i] == Ptr(u);
      assert g.roots[i] == Ptr(u);
    }
  }

  lemma FinalizeRoots(g: Graph, g1: Graph, table: seq<Entry>, queue: seq<Entry>, M1: set<Obj>)
    requires Weaker(g, g1) && TablesOk(table, queue, g)
    ensures forall u :: Ptr(u) in QueueRoots(g1.roots, Queue(table, M1) + queue) ==>
              Ptr(u) in g.roots || u in Objs(Queue(table, M1))
  {
    WeakerGives(g, g1);
    ObjsConcat(Queue(table, M1), queue);
    forall u | Ptr(u) in QueueRoots(g1.roots, Queue(table, M1) + queue)
      ensures Ptr(u) in g.roots || u in Objs(Queue(table, M1))
    {
      QueueRootsHold(g1.roots, Queue(table, M1) + queue, u);
    }
  }

  lemma ObjsConcat(a: seq<Entry>, b: seq<Entry>)
    ensures Objs(a + b) == Objs(a) + Objs(b)
  {
  }

  lemma FinalizeTables(g: Graph, h: Graph, table: seq<Entry>, queue: seq<Entry>, M1: set<Obj>)
    requires TablesOk(table, queue, g) && h.heap.Keys == g.heap.Keys && h.fin == Objs(Keep(table, M1))
    requires exists roots :: h.roots == QueueRoots(roots, Queue(table, M1) + queue)
    ensures TablesOk(Keep(table, M1), Queue(table, M1) + queue, h)
  {
    KeepDistinct(table, M1);
    TablesSplit(table, M1);
    ObjsConcat(Queue(table, M1), queue);
    var roots :| h.roots == QueueRoots(roots, Queue(table, M1) + queue);
    forall e | e in Queue(table, M1) + queue
      ensures Ptr(e.obj) in h.roots
    {
      QueueRootsHold(roots, Queue(table, M1) + queue, e.obj);
    }
  }

  /** s' is a state GC_finalize may leave. */
  ghost predicate FinalizeDone(s: State, s': State) {
    exists queued :: Finalize(s, s', s'.m.marks, s'.g.heap, s'.g.roots, queued)
  }

  lemma QueueIsMarked(s: State, queue: seq<Entry>)
    requires Inv(s) && s.phase == Finishing && forall e :: e in queue ==> Ptr(e.obj) in s.g.roots
    ensures Objs(queue) <= s.m.marks
  {
    forall e | e in queue
      ensures e.obj in s.m.marks
    {
      BaseIsReachable(s.g.(fin := {}), e.obj);
      assert ClientReachable(s.g, e.obj);
    }
  }

  lemma WeakerEdge(g: Graph, g1: Graph, o: Obj, t: Obj)
    requires Weaker(g, g1) && Edge(g1, o, t)
    ensures Edge(g, o, t)
  {
    var i :| 0 <= i < |g1.heap[o]| && g1.heap[o][i] == Ptr(t);
    assert g.heap[o][i] == Ptr(t);
  }

  lemma TablesSplit(table: seq<Entry>, M1: set<Obj>)
    requires Distinct(table)
    ensures Objs(Keep(table, M1)) + Objs(Queue(table, M1)) == Objs(table)
    ensures Objs(Keep(table, M1)) !! Objs(Queue(table, M1))
    ensures Objs(Keep(table, M1)) <= M1
  {
    forall e | e in table
      ensures e.obj in Objs(Keep(table, M1)) + Objs(Queue(table, M1))
    {
      SplitMember(table, M1, e);
    }
    forall e | e in Keep(table, M1)
      ensures e.obj in Objs(table) && e.obj in M1
    {
      SplitMember(table, M1, e);
    }
    forall e | e in Queue(table, M1)
      ensures e.obj in Objs(table) && e.obj !in M1
    {
      SplitMember(table, M1, e);
    }
  }

  /** The parts of the invariant that control code looks at. */
  lemma InvGives(s: State)
    requires Inv(s)
    ensures LayoutOk(s.g) && MarkerOk(s.m) && s.m.marks <= s.g.heap.Keys
    ensures s.m.ms == MsNone ==> s.m.stack == []
    ensures s.m.ms == PartiallyInvalid ==> s.m.objectsMarked
    ensures s.m.ms == PushRescuers ==> s.incremental
    ensures s.mustFinish ==> s.phase != Running
    ensures forall b :: b in s.reclaim ==> b in s.g.blocks
  {
  }

  lemma InvReady(s: State)
    requires Inv(s) && MarkerMayRun(s) && s.m.hand == {} && !s.m.scanDone
    requires INITIAL_MARK_STACK_SIZE <= s.m.limit
    ensures Ready(s)
  {
  }

  lemma InitiateThen(s: State, t: State)
    requires Inv(s) && s.intact && Initiate(s, t) && INITIAL_MARK_STACK_SIZE <= s.m.limit
    ensures Steps(s, t) && Inv(t) && Ready(t) && t.m.ms != MsNone
    ensures t == s.(d := t.d, m := t.m, phase := Stopped)
  {
    StepsRefl(s);
    AppendKeeps(s, s, t, SInitiate);
    InvReady(t);
  }

  lemma CompleteThen(s0: State, s: State, t: State)
    requires Steps(s0, s) && Inv(s) && s.intact && Complete(s, t)
    ensures Steps(s0, t) && Inv(t)
    ensures forall o :: ClientReachable(t.g, o) ==> o in t.m.marks
  {
    CompleteMarksAll(s);
    AppendKeeps(s0, s, t, SComplete);
  }

  lemma AbandonThen(s0: State, s: State, t: State)
    requires Steps(s0, s) && Inv(s) && s.intact && Abandon(s, t)
    ensures Steps(s0, t) && Inv(t)
  {
    AppendKeeps(s0, s, t, SAbandon);
  }

  lemma AppendKeeps(s0: State, s: State, t: State, a: Step)
    requires Steps(s0, s) && Inv(s) && Takes(s, t, a) && s.intact && !a.SFinalize?
    ensures Steps(s0, t) && Inv(t) && t.intact
  {
    hide Inv, Steps, Takes;
    IntactBefore(s, t, a);
    StepsAppend(s0, s, t, a);
    StepKeeps(s, t, a);
  }

  lemma JoinKeeps(s0: State, s: State, t: State)
    requires Steps(s0, s) && Inv(s) && Steps(s, t) && t.intact
    ensures Steps(s0, t) && Inv(t)
  {
    hide Inv, Steps;
    StepsTrans(s0, s, t);
    StepsKeep(s, t);
  }
}
