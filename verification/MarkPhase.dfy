/** The marker's globals and the procedures that work on them, with nothing running in between: every
    procedure is a sequence of steps of the collector, and repeated calls of GC_mark_some come to an
    end even if the mark stack overflows again and again and never grows. */
module MarkPhase {
  import opened Sizes
  import opened Heap
  import opened Collector
  import opened CollectorSafety
  import opened Arithmetic

  const SPLIT_RANGE_WORDS: nat := 128

  // ---------------------------------------------------------------- progress

  ghost function Unmarked(s: State): nat {
    |s.g.heap.Keys - s.m.marks|
  }

  /** How far the mark state still is from MS_NONE. */
  function Rank(m: Marker): nat {
    match m.ms
    case MsInvalid => if !m.objectsMarked then 7 else if m.scanPtr != 0 then 6 else 5
    case PartiallyInvalid => 4
    case PushRescuers => 3
    case PushUncollectable => 3
    case RootsPushed => 2
    case MsNone => 0
  }

  function AtOrAbove(blocks: set<nat>, b: nat): set<nat> {
    set c | c in blocks && b <= c
  }

  /** Blocks the heap scan has not passed. */
  ghost function Ahead(s: State): nat {
    |AtOrAbove(s.g.blocks.Keys, s.m.scanPtr)|
  }

  /** Words on the mark stack, and one for each entry. */
  function Work(stack: seq<set<Loc>>): nat {
    if stack == [] then 0 else Work(stack[..|stack| - 1]) + |stack[|stack| - 1]| + 1
  }

  /** The order in which calls of GC_mark_some go down. */
  ghost predicate Less(t: State, s: State) {
    || Unmarked(t) < Unmarked(s)
    || (Unmarked(t) == Unmarked(s) && Rank(t.m) < Rank(s.m))
    || (Unmarked(t) == Unmarked(s) && Rank(t.m) == Rank(s.m) && Ahead(t) < Ahead(s))
    || (Unmarked(t) == Unmarked(s) && Rank(t.m) == Rank(s.m) && Ahead(t) == Ahead(s) &&
      Work(t.m.stack) < Work(s.m.stack))
  }

  ghost predicate OnlyMarker(s: State, t: State) {
    t == s.(m := t.m)
  }

  lemma MoreMarksLess(s: State, t: State)
    requires t.g == s.g && s.m.marks < t.m.marks <= s.g.heap.Keys
    ensures Unmarked(t) < Unmarked(s)
  {
    var o :| o in t.m.marks && o !in s.m.marks;
    var A, B := s.g.heap.Keys - s.m.marks, t.g.heap.Keys - t.m.marks;
    assert B <= A - {o};
    SubsetCard(B, A - {o});
  }

  /** Either some object got marked, or the mark state is as it was. */
  ghost predicate Paid(s: State, t: State) {
    && OnlyMarker(s, t) && s.m.marks <= t.m.marks <= s.g.heap.Keys
    && t.m.scanPtr == s.m.scanPtr && t.m.limit == s.m.limit && t.m.scanDone == s.m.scanDone
    && (t.m.ms == s.m.ms || t.m.ms == MsInvalid)
    && (t.m.marks == s.m.marks ==> t.m.ms == s.m.ms)
  }

  /** Every overflow is paid for by a newly marked object. */
  lemma MarkAndPushPays(g: Graph, m: Marker, w: Word)
    requires MarkerOk(m)
    ensures var r := MarkAndPush(g, m, w);
            r == m || (m.marks < r.marks &&
              r == m.(ms := r.ms, marks := r.marks, stack := r.stack, covered := r.covered)
                       && (r.ms == m.ms || r.ms == MsInvalid))
  {
  }

  method TakeSome(e: set<Loc>, n: nat) returns (part: set<Loc>)
    requires n <= |e|
    ensures part <= e && |part| == n
  {
    part := {};
    var rest := e;
    while |part| < n
      invariant part <= e && rest == e - part && |part| <= n && |rest| == |e| - |part|
    {
      var l :| l in rest;
      part, rest := part + {l}, rest - {l};
    }
  }

  class Globals {
    // the heap, as the client and the allocator leave it
    var graph: Graph
    var dirtyBits: VirtualDirty
    var free: set<Obj>
    var reclaim: set<nat>
    var incremental: bool
    // the marker
    var markState: MarkState
    var marks: set<Obj>
    var markStack: seq<set<Loc>>
    var stackLimit: nat
    var stackTooSmall: bool
    var scanPtr: nat
    var objectsAreMarked: bool
    var hand: set<Loc>
    // several threads mark, once the roots are pushed (GC_parallel)
    var parallel: bool
    // history
    var intact: bool
    ghost var scanDone: bool
    ghost var covered: set<nat>
    ghost var phase: Phase
    ghost var mustFinish: bool

    ghost function St(): State
      reads this
    {
      State(graph, dirtyBits,
            Marker(markState, marks, markStack, hand, stackLimit, scanPtr, scanDone, objectsAreMarked, covered),
            free, reclaim, incremental, phase, mustFinish, intact)
    }

    /** What GC_initiate_gc leaves, with the world stopped. */
    method SetInitiated(d: VirtualDirty, ms: MarkState)
      modifies this`dirtyBits, this`markState, this`scanPtr, this`covered, this`phase
      ensures St() == old(St()).(d := d, m := old(St()).m.(ms := ms, scanPtr := 0, covered := {}), phase := Stopped)
    {
      dirtyBits, markState, scanPtr, covered, phase := d, ms, 0, {}, Stopped;
    }

    /** The heap and the marks as GC_finalize leaves them. */
    method SetFinalized(g: Graph, newMarks: set<Obj>, closed: bool)
      modifies this`graph, this`marks, this`phase, this`intact
      ensures St() == old(St()).(g := g, m := old(St()).m.(marks := newMarks), phase := Finalized, intact := closed)
    {
      graph, marks, phase, intact := g, newMarks, Finalized, closed;
    }

    /** The heap and the marks as GC_start_reclaim leaves them. */
    method SetReclaiming(g: Graph, newMarks: set<Obj>, waiting: set<nat>)
      modifies this`graph, this`marks, this`free, this`reclaim, this`phase, this`mustFinish
      ensures St() == old(St()).(g := g, m := old(St()).m.(marks := newMarks), free := {}, reclaim := waiting,
                                 phase := Running, mustFinish := false)
    {
      graph, marks, free, reclaim, phase, mustFinish := g, newMarks, {}, waiting, Running, false;
    }

    /** The heap and the marks as a sweep of one block leaves them. */
    method SetSwept(g: Graph, d: VirtualDirty, newMarks: set<Obj>, newFree: set<Obj>, waiting: set<nat>)
      modifies this`graph, this`dirtyBits, this`marks, this`free, this`reclaim
      ensures St() == old(St()).(g := g, d := d, m := old(St()).m.(marks := newMarks), free := newFree,
              reclaim := waiting)
    {
      graph, dirtyBits, marks, free, reclaim := g, d, newMarks, newFree, waiting;
    }

    /** PUSH_OBJ, with GC_signal_mark_stack_overflow. */
    method PushOnStack(e: set<Loc>)
      requires MarkerOk(St().m)
      modifies this`markState, this`markStack, this`stackTooSmall, this`covered
      ensures St() == old(St()).(m := PushEntry(old(St()).m, e))
      ensures stackTooSmall <==> old(stackTooSmall) || |old(markStack)| == stackLimit
    {
      if |markStack| < stackLimit {
        markStack := markStack + [e];
      } else {
        markState := MsInvalid;
        stackTooSmall := true;
        markStack := markStack[..|markStack| - DISCARDS] + [e];
        covered := {};
      }
    }

    /** PUSH_CONTENTS */
    method MarkAndPushWord(w: Word)
      requires MarkerOk(St().m)
      modifies this`markState, this`marks, this`markStack, this`stackTooSmall, this`covered
      ensures St() == old(St()).(m := MarkAndPush(graph, old(St()).m, w))
    {
      if !w.NonPtr? && w.o in graph.heap && w.o !in marks {
        marks := marks + {w.o};
        if Scannable(graph, w.o) {
          PushOnStack(Fields(graph, w.o));
        }
      }
    }

    /** Examine one word in hand. */
    method ScanOne(l: Loc)
      requires MarkerMayRun(St()) && MarkerOk(St().m) && markState != MsNone && l in hand
      modifies this`markState, this`marks, this`markStack, this`stackTooSmall, this`hand, this`covered
      ensures ScanWord(old(St()), St(), l, WordAt(graph, l)) && hand == old(hand) - {l}
    {
      hand := hand - {l};
      MarkAndPushWord(WordAt(graph, l));
    }

    /** Examine every word in hand. */
    method ScanHand()
      requires MarkerMayRun(St()) && MarkerOk(St().m) && marks <= graph.heap.Keys && markState != MsNone
      modifies this`markState, this`marks, this`markStack, this`stackTooSmall, this`hand, this`covered
      ensures hand == {} && Scanned(old(St()), St()) && (old(hand) == {} ==> St() == old(St()))
    {
      ghost var s0 := St();
      MarkRefl(s0);
      while hand != {}
        invariant Scanned(s0, St()) && (s0.m.hand == {} ==> St() == s0)
        decreases |hand|
      {
        ghost var s := St();
        var l :| l in hand;
        ScanOne(l);
        ScannedStep(s0, s, St(), l, WordAt(s.g, l));
      }
    }

    /** Take the top entry of the mark stack in hand; leave the rest of a long range. */
    method PopEntry() returns (part: set<Loc>, rest: set<Loc>)
      requires MarkerMayRun(St()) && markState != MsNone && hand == {} && !scanDone && |markStack| > 0
      modifies this`markStack, this`objectsAreMarked, this`hand
      ensures Pop(old(St()), St(), part, rest) && Work(markStack) < Work(old(markStack))
      ensures |part| < SPLIT_RANGE_WORDS && (rest != {} ==> |part| == SPLIT_RANGE_WORDS - 1)
    {
      var n := |markStack| - 1;
      var e := markStack[n];
      part, rest := e, {};
      if |e| >= SPLIT_RANGE_WORDS {
        part := TakeSome(e, SPLIT_RANGE_WORDS - 1);
        rest := e - part;
        RestSmaller(e, part);
      }
      assert (markStack[..n] + [rest])[..n] == markStack[..n];
      hand := part;
      markStack := if rest == {} then markStack[..n] else markStack[..n] + [rest];
      objectsAreMarked := true;
    }

    /** GC_mark_from: about a page worth of marking from the mark stack, less only if the stack gets empty. */
    method MarkFrom() returns (ghost words: nat)
      requires MarkerMayRun(St()) && MarkerOk(St().m) && marks <= graph.heap.Keys && hand == {} && !scanDone
      requires markState != MsNone && |markStack| > 0 && (markState == MsInvalid ==> objectsAreMarked)
      modifies this`markState, this`marks, this`markStack, this`stackTooSmall, this`objectsAreMarked, this`hand,
               this`covered
      ensures MarkRun(old(St()), St(), true) && Less(St(), old(St()))
      ensures words < HBLK_WORDS + SPLIT_RANGE_WORDS && (markStack != [] ==> words > HBLK_WORDS)
    {
      ghost var s0 := St();
      MarkRefl(s0);
      var credit: int := HBLKSIZE;
      ghost var started := false;
      words := 0;
      while |markStack| > 0 && credit >= 0
        invariant MarkRun(s0, St(), started)
        invariant credit == HBLKSIZE - 4 * words && (!started ==> words == 0) && words < HBLK_WORDS + SPLIT_RANGE_WORDS
        decreases Unmarked(St()), Work(markStack)
      {
        ghost var s := St();
        var part, rest := PopEntry();
        credit := credit - 4 * |part|;
        words := words + |part|;
        ghost var s1 := St();
        ScanHand();
        MarkRunStep(s0, s, s1, St(), part, rest, started);
        started := true;
      }
      MarkRunLess(s0, St());
    }

    /** GC_next_used_block: the first used block at or above h, 0 if there is none. */
    method NextUsedBlock(h: nat) returns (b: nat)
      requires LayoutOk(graph)
      ensures b == 0 ==> forall c :: c in graph.blocks ==> c < h
      ensures b != 0 ==> b in graph.blocks && h <= b && forall c :: c in graph.blocks && h <= c ==> b <= c
    {
      b := 0;
      var todo := graph.blocks.Keys;
      while todo != {}
        invariant todo <= graph.blocks.Keys
        invariant b == 0 ==> forall c :: c in graph.blocks && c !in todo ==> c < h
        invariant b != 0 ==> b in graph.blocks && h <= b && forall c :: c in graph.blocks && c !in todo && h <= c ==>
                  b <= c
      {
        var c :| c in todo;
        assert c in graph.blocks;
        todo := todo - {c};
        if h <= c && (b == 0 || c < b) {
          b := c;
        }
      }
    }

    predicate WantsBlock(b: nat)
      requires b in graph.blocks
      reads this
      ensures WantsBlock(b) == Wanted(St(), b)
    {
      match markState
      case PushRescuers => BlockWasDirty(graph, dirtyBits, b)
      case PushUncollectable => graph.blocks[b].kind == Uncollectable
      case _ => true
    }

    /** The search loops of GC_push_next_marked, _dirty and _uncollectable. */
    method NextWanted(h: nat) returns (b: nat)
      requires LayoutOk(graph)
      ensures b == 0 ==> forall c :: c in graph.blocks && h <= c ==> !Wanted(St(), c)
      ensures b != 0 ==> b in graph.blocks && h <= b && Wanted(St(), b) && NothingWanted(St(), h, b)
      ensures b != 0 && markState == PushRescuers ==>
                exists p: nat :: b <= p < b + graph.blocks[b].len && PageHash(p) in dirtyBits.grungy
      ensures markState == PushUncollectable ==> forall c :: c in graph.blocks && h <= c && (b == 0 || c <= b) ==>
                (c == b <==> graph.blocks[c].kind == Uncollectable)
    {
      b := NextUsedBlock(h);
      while b != 0 && !WantsBlock(b)
        invariant b != 0 ==> b in graph.blocks && h <= b && NothingWanted(St(), h, b)
        invariant b == 0 ==> forall c :: c in graph.blocks && h <= c ==> !Wanted(St(), c)
        decreases if b == 0 then 0 else 1 + |AtOrAbove(graph.blocks.Keys, b)|
      {
        var c := NextUsedBlock(b + graph.blocks[b].len);
        if c != 0 {
          SmallerAhead(graph.blocks.Keys, b, b, c);
        }
        b := c;
      }
    }

    /** GC_push_marked on an ordinary block: one entry for each marked object. */
    method EntriesOf(b: nat) returns (es: seq<set<Loc>>)
      requires LayoutOk(graph) && marks <= graph.heap.Keys
      ensures |es| <= HBLK_WORDS && Splits(es, {}, BlockWork(graph, marks, b))
    {
      es := [];
      var objs := set o | o in marks && o.block == b;
      FewObjects(graph, b);
      SubsetCard(objs, ObjectsIn(graph, b));
      var todo := objs;
      while todo != {}
        invariant todo <= objs && |es| + |todo| == |objs|
        invariant forall k, l :: 0 <= k < |es| && l in es[k] ==> l in BlockWork(graph, marks, b)
        invariant forall l :: l in BlockWork(graph, marks, b) ==> l.o in todo || exists k :: 0 <= k < |es| && l in es[k]
      {
        var o :| o in todo;
        todo := todo - {o};
        ghost var es0 := es;
        es := es + [Fields(graph, o)];
        assert es[|es0|] == Fields(graph, o);
        assert forall k :: 0 <= k < |es0| ==> es[k] == es0[k];
      }
    }

    /** GC_push_marked: push the words of the marked objects of block c, or take them in hand. */
    method PushMarked(c: nat) returns (ghost es: seq<set<Loc>>, ghost h: set<Loc>)
      requires MarkerMayRun(St()) && Scanning(St()) && hand == {} && !scanDone
      requires LayoutOk(graph) && marks <= graph.heap.Keys && |markStack| + HBLK_WORDS <= stackLimit
      requires c in graph.blocks && scanPtr <= c && NothingWanted(St(), scanPtr, c) && Wanted(St(), c)
      modifies this`markStack, this`scanPtr, this`objectsAreMarked, this`hand
      ensures PushBlock(old(St()), St(), c, es, h)
    {
      if * {
        // objects of 1, 2 or 4 words: their words are examined at once
        es, h := [], BlockWork(graph, marks, c);
        PushWork(c, [], BlockWork(graph, marks, c));
      } else {
        var entries := EntriesOf(c);
        es, h := entries, {};
        PushWork(c, entries, {});
      }
    }

    method PushWork(c: nat, entries: seq<set<Loc>>, words: set<Loc>)
      requires MarkerMayRun(St()) && Scanning(St()) && hand == {} && !scanDone
      requires |markStack| + |entries| <= stackLimit && Splits(entries, words, BlockWork(graph, marks, c))
      requires c in graph.blocks && scanPtr <= c && NothingWanted(St(), scanPtr, c) && Wanted(St(), c)
      modifies this`markStack, this`scanPtr, this`objectsAreMarked, this`hand
      ensures PushBlock(old(St()), St(), c, entries, words)
    {
      hide Splits, BlockWork, NothingWanted, Wanted, Scanning;
      markStack, hand := markStack + entries, words;
      scanPtr := c + graph.blocks[c].len;
      objectsAreMarked := objectsAreMarked || entries != [] || words != {};
    }

    method EndScan()
      requires MarkerMayRun(St()) && Scanning(St()) && hand == {} && !scanDone
      requires forall c :: c in graph.blocks && scanPtr <= c ==> !Wanted(St(), c)
      modifies this`scanPtr, this`scanDone
      ensures ScanEnd(old(St()), St())
    {
      scanPtr := 0;
      scanDone := markState != MsInvalid;
    }

    /** Push from the next block of the heap scan and examine what came in hand, or find that there is no block. */
    method PushNext() returns (found: bool)
      requires MarkerMayRun(St()) && MarkerOk(St().m) && Scanning(St()) && hand == {} && !scanDone
      requires LayoutOk(graph) && marks <= graph.heap.Keys && |markStack| + HBLK_WORDS <= stackLimit
      modifies this`markState, this`marks, this`markStack, this`stackTooSmall, this`covered
      modifies this`scanPtr, this`objectsAreMarked, this`hand, this`scanDone
      ensures found ==> Pushed(old(St()), St())
      ensures !found ==> ScanEnd(old(St()), St())
    {
      ghost var s := St();
      var c := NextWanted(scanPtr);
      found := c != 0;
      if found {
        ghost var es, h := PushMarked(c);
        ghost var s1 := St();
        ScanHand();
        PushedFrom(s, s1, St(), c, es, h);
      } else {
        EndScan();
      }
    }

    /** GC_push_all on the root words from lo up to hi. */
    method PushRange(lo: nat, hi: nat)
      requires MarkerMayRun(St()) && scanDone && |markStack| < stackLimit
      modifies this`markStack, this`covered
      ensures PushRootRange(old(St()), St(), Below(hi) - Below(lo))
    {
      hide Below;
      var range := Below(hi) - Below(lo);
      markStack := markStack + [set i | i in range :: RootLoc(i)];
      covered := if phase == Stopped then covered + range else {};
    }

    /** GC_push_all_eager on root word i. */
    method PushEagerly(i: nat)
      requires MarkerMayRun(St()) && scanDone && MarkerOk(St().m)
      modifies this`markState, this`marks, this`markStack, this`stackTooSmall, this`covered
      ensures PushRootEagerly(old(St()), St(), i, WordAt(graph, RootLoc(i)))
    {
      MarkAndPushWord(WordAt(graph, RootLoc(i)));
      covered := if phase == Stopped then covered + {i} else {};
    }

    /** GC_push_roots: any number of root ranges are pushed as they are, as long as there is room for them, and
        the words of the others are examined at once. */
    method PushRoots()
      requires MarkerMayRun(St()) && MarkerOk(St().m) && marks <= graph.heap.Keys && hand == {} && scanDone
      requires markState !in {MsNone, RootsPushed, MsInvalid}
      modifies this`markState, this`marks, this`markStack, this`stackTooSmall, this`covered, this`scanDone
      modifies this`objectsAreMarked
      ensures RootsRun(old(St()), St())
    {
      hide MarkSteps, RootRun;
      ghost var s0 := St();
      MarkRefl(s0);
      RootRunStart(s0);
      var i := 0;
      while i < |graph.roots|
        invariant RootRun(s0, St(), i)
      {
        ghost var s := St();
        var lazily: bool := *;
        var j := *;
        RootRunGives(s0, s, i);
        if lazily && i < j <= |graph.roots| && |markStack| < stackLimit {
          PushRange(i, j);
          RootRunRange(s0, s, St(), i, j);
          i := j;
        } else {
          PushEagerly(i);
          RootRunStep(s0, s, St(), i);
          i := i + 1;
        }
      }
      ghost var s := St();
      RootRunGives(s0, s, i);
      FinishRoots();
      RootsRunFrom(s0, s, St(), i);
    }

    method FinishRoots()
      requires MarkerMayRun(St()) && scanDone && hand == {}
      requires phase == Stopped && markState != MsInvalid ==> AllRootsCovered(St())
      modifies this`markState, this`scanDone, this`objectsAreMarked
      ensures RootsDone(old(St()), St())
    {
      scanDone := false;
      objectsAreMarked := true;
      if markState != MsInvalid {
        markState := RootsPushed;
      }
    }

    /** alloc_mark_stack: may silently fail. */
    method AllocMarkStack(n: nat)
      requires MarkerMayRun(St()) && markStack == [] && hand == {} && stackLimit <= n
      modifies this`stackLimit, this`stackTooSmall
      ensures GrowStack(old(St()), St(), stackLimit) && stackLimit in {n, old(stackLimit)} && !stackTooSmall
    {
      stackTooSmall := false;
      if * {
        stackLimit := n;
      }
    }

    method GrowIfTooSmall(ghost s0: State)
      requires MarkSteps(s0, St()) && MarkerMayRun(St()) && markStack == [] && hand == {}
      modifies this`stackLimit, this`stackTooSmall
      ensures MarkSteps(s0, St()) && !stackTooSmall
      ensures stackLimit == old(stackLimit) || (old(stackTooSmall) && stackLimit == 2 * old(stackLimit))
    {
      hide MarkSteps;
      ghost var s := St();
      if stackTooSmall {
        AllocMarkStack(2 * stackLimit);
        MarkAppend(s0, s, St(), SGrowStack(stackLimit));
      }
    }

    /** MS_ROOTS_PUSHED with an empty stack: marking is done. */
    method FinishMark()
      requires Ready(St()) && markState == RootsPushed && markStack == []
      modifies this`markState, this`stackLimit, this`stackTooSmall
      ensures Some(old(St()), St(), true)
    {
      hide MarkSteps;
      ghost var s := St();
      markState := MsNone;
      ghost var s1 := St();
      MarkRefl(s);
      MarkAppend(s, s, s1, SMarkDone);
      GrowIfTooSmall(s);
    }

    method MarkFromStack()
      requires Ready(St()) && markState != MsNone && |markStack| > 0 && (markState == MsInvalid ==> objectsAreMarked)
      modifies this`markState, this`marks, this`markStack, this`stackTooSmall, this`objectsAreMarked, this`hand,
               this`covered
      ensures Some(old(St()), St(), false)
    {
      ghost var s := St();
      ghost var words := MarkFrom();
      SomeFromMarkRun(s, St());
    }

    /** GC_do_parallel_mark, up to the order of its work: everything on the mark stack is marked from, by one
        thread or several. */
    method DoParallelMark()
      requires MarkerMayRun(St()) && MarkerOk(St().m) && marks <= graph.heap.Keys && hand == {} && !scanDone
      requires markState == RootsPushed
      modifies this`markState, this`marks, this`markStack, this`stackTooSmall, this`objectsAreMarked, this`hand,
               this`covered
      ensures markStack == [] && MarkRun(old(St()), St(), |old(markStack)| > 0)
    {
      hide Less, MarkSteps;
      ghost var s0 := St();
      MarkRefl(s0);
      ghost var started := false;
      while |markStack| > 0
        invariant MarkRun(s0, St(), started) && (!started ==> markStack == old(markStack))
        invariant started ==> |old(markStack)| > 0
        decreases Unmarked(St()), Work(markStack)
      {
        ghost var s := St();
        ghost var words := MarkFrom();
        MarkRunTrans(s0, s, St(), started);
        started := true;
      }
    }

    /** MS_ROOTS_PUSHED with several markers: marking is done, unless the mark stack overflowed. */
    method MarkInParallel() returns (done: bool)
      requires Ready(St()) && markState == RootsPushed
      modifies this`markState, this`marks, this`markStack, this`stackLimit, this`stackTooSmall, this`covered
      modifies this`objectsAreMarked, this`hand
      ensures Some(old(St()), St(), done) && markStack == []
    {
      hide Less, MarkSteps;
      ghost var s0 := St();
      DoParallelMark();
      ghost var s1 := St();
      done := markState == RootsPushed;
      if done {
        FinishMark();
        DoneAfterRun(s0, s1, St());
      } else {
        GrowIfTooSmall(s0);
        InvalidAfterRun(s0, s1, St());
      }
    }

    /** One step of the heap scan; at its end the roots are pushed, unless the mark state is invalid. */
    method ScanSome()
      requires Ready(St()) && Scanning(St()) && |markStack| + HBLK_WORDS <= stackLimit
      modifies this`markState, this`marks, this`markStack, this`stackTooSmall, this`covered
      modifies this`scanPtr, this`objectsAreMarked, this`hand, this`scanDone
      ensures Some(old(St()), St(), false)
    {
      ghost var s := St();
      var found := PushNext();
      if found {
        SomeFromPushed(s, St());
      } else {
        ghost var s1 := St();
        MarkRefl(s);
        MarkAppend(s, s, s1, SScanEnd);
        if markState != MsInvalid {
          PushRoots();
          SomeFromRoots(s, s1, St());
        }
      }
    }

    /** MS_INVALID with nothing marked: start from the uncollectable objects. */
    method BeginUncollectable()
      requires Ready(St()) && markState == MsInvalid && !objectsAreMarked
      modifies this`markState
      ensures Some(old(St()), St(), false)
    {
      ghost var s := St();
      markState := PushUncollectable;
      MarkRefl(s);
      MarkAppend(s, s, St(), SStartUncollectable);
    }

    /** MS_INVALID, stack empty, at the start of the heap: begin a complete rescan. */
    method BeginRescan()
      requires Ready(St()) && markState == MsInvalid && objectsAreMarked && markStack == [] && scanPtr == 0
      modifies this`markState, this`stackLimit, this`stackTooSmall
      ensures MarkSteps(old(St()), St()) && Ready(St()) && Rank(St().m) < Rank(old(St()).m)
      ensures St() == old(St()).(m := old(St()).m.(ms := PartiallyInvalid, limit := stackLimit))
    {
      ghost var s := St();
      MarkRefl(s);
      GrowIfTooSmall(s);
      ghost var s1 := St();
      markState := PartiallyInvalid;
      MarkAppend(s, s1, St(), SStartRescan);
    }

    method RescanSome()
      requires Ready(St()) && markState in {MsInvalid, PartiallyInvalid} && objectsAreMarked && markStack == []
      modifies this`markState, this`marks, this`markStack, this`stackLimit, this`stackTooSmall, this`covered
      modifies this`scanPtr, this`objectsAreMarked, this`hand, this`scanDone
      ensures Some(old(St()), St(), false)
    {
      ghost var s := St();
      if scanPtr == 0 && markState == MsInvalid {
        BeginRescan();
        ghost var s1 := St();
        ScanSome();
        SomeAfter(s, s1, St());
      } else {
        ScanSome();
      }
    }

    /** GC_mark_some. Each call either finishes the mark phase or brings its end closer. */
    method MarkSome() returns (done: bool)
      requires Ready(St())
      modifies this`markState, this`marks, this`markStack, this`stackLimit, this`stackTooSmall, this`covered
      modifies this`scanPtr, this`objectsAreMarked, this`hand, this`scanDone
      ensures old(markState) == MsNone ==> !done && St() == old(St())
      ensures old(markState) != MsNone ==> Some(old(St()), St(), done)
    {
      done := false;
      match markState {
        case MsNone =>
        case PushRescuers =>
          if |markStack| - 1 >= stackLimit - INITIAL_MARK_STACK_SIZE / 2 {
            stackTooSmall := true;
            MarkFromStack();
          } else {
            ScanSome();
          }
        case PushUncollectable =>
          if |markStack| - 1 >= stackLimit / 4 {
            stackTooSmall := stackTooSmall || parallel;
            MarkFromStack();
          } else {
            ScanSome();
          }
        case RootsPushed =>
          if parallel {
            done := MarkInParallel();
          } else if |markStack| > 0 {
            MarkFromStack();
          } else {
            FinishMark();
            done := true;
          }
        case MsInvalid =>
          if !objectsAreMarked {
            BeginUncollectable();
          } else if |markStack| > 0 {
            MarkFromStack();
          } else {
            RescanSome();
          }
        case PartiallyInvalid =>
          // objects are marked in this state, so the first test above cannot succeed
          if |markStack| > 0 {
            MarkFromStack();
          } else {
            RescanSome();
          }
      }
    }
  }

  /** The marker between two calls. */
  ghost predicate Ready(s: State) {
    && MarkerMayRun(s) && MarkerOk(s.m) && s.m.marks <= s.g.heap.Keys && s.m.hand == {} && !s.m.scanDone
    && INITIAL_MARK_STACK_SIZE <= s.m.limit && LayoutOk(s.g)
    && (s.m.ms == PartiallyInvalid ==> s.m.objectsMarked)
    && (s.m.ms == PushRescuers ==> s.incremental)
    && (s.m.ms == MsNone ==> s.m.stack == [])
  }

  /** What a call of GC_mark_some in the middle of a mark phase comes to. */
  ghost predicate Some(s: State, t: State, done: bool) {
    && MarkSteps(s, t) && OnlyMarker(s, t) && Ready(t)
    && (done <==> t.m.ms == MsNone)
    && (!done ==> Less(t, s))
  }

  lemma SomeFromMarkRun(s: State, t: State)
    requires Ready(s) && MarkRun(s, t, true) && Less(t, s)
    ensures Some(s, t, false)
  {
  }

  lemma SomeFromPushed(s: State, t: State)
    requires Ready(s) && Scanning(s) && Pushed(s, t)
    ensures Some(s, t, false)
  {
    if t.m.marks != s.m.marks {
      MoreMarksLess(s, t);
    }
  }

  lemma SomeFromRoots(s: State, s1: State, t: State)
    requires Ready(s) && ScanEnd(s, s1) && s.m.ms != MsInvalid && MarkSteps(s, s1) && RootsRun(s1, t)
    ensures Some(s, t, false)
  {
    MarkTrans(s, s1, t);
    if t.m.marks != s.m.marks {
      MoreMarksLess(s, t);
    }
  }

  lemma SomeAfter(s: State, s1: State, t: State)
    requires MarkSteps(s, s1) && OnlyMarker(s, s1) && s1.m.marks == s.m.marks && Rank(s1.m) < Rank(s.m)
    requires Some(s1, t, false)
    ensures Some(s, t, false)
  {
    MarkTrans(s, s1, t);
  }

  lemma SmallerAhead(blocks: set<nat>, a: nat, b: nat, c: nat)
    requires b in blocks && a <= b < c
    ensures |AtOrAbove(blocks, c)| < |AtOrAbove(blocks, a)|
  {
    var A, C := AtOrAbove(blocks, a), AtOrAbove(blocks, c);
    assert b in A && C <= A - {b};
    SubsetCard(C, A - {b});
  }

  function ObjectsIn(g: Graph, b: nat): set<Obj> {
    set o | o in g.heap && o.block == b
  }

  /** The first k natural numbers. */
  function Below(k: nat): (r: set<nat>)
    ensures forall i: nat :: i in r <==> i < k
  {
    if k == 0 then {} else Below(k - 1) + {k - 1}
  }

  /** A block holds at most as many objects as a heap block has words. */
  lemma FewObjects(g: Graph, b: nat)
    requires LayoutOk(g)
    ensures |ObjectsIn(g, b)| <= HBLK_WORDS
  {
    CountStarts(b, HBLK_WORDS);
    SubsetCard(ObjectsIn(g, b), StartsBelow(b, HBLK_WORDS));
  }

  /** All places in block b below word n at which an object could start. */
  ghost function StartsBelow(b: nat, n: nat): set<Obj> {
    if n == 0 then {} else StartsBelow(b, n - 1) + {Obj(b, n - 1)}
  }

  lemma {:induction false} CountStarts(b: nat, n: nat)
    ensures |StartsBelow(b, n)| == n && forall o :: o in StartsBelow(b, n) <==> o.block == b && o.off < n
  {
    if n > 0 {
      CountStarts(b, n - 1);
    }
  }

  /** Pushing roots, up to root word n. */
  ghost predicate RootRun(s: State, t: State, n: nat) {
    && MarkSteps(s, t) && Paid(s, t) && MarkerOk(t.m) && t.m.hand == {} && t.m.scanDone &&
      t.m.objectsMarked == s.m.objectsMarked
    && (s.phase == Stopped && t.m.ms != MsInvalid ==> forall i: nat :: i < n && i < |s.g.roots| ==> i in t.m.covered)
  }

  lemma RootRunStart(s0: State)
    requires MarkSteps(s0, s0) && MarkerOk(s0.m) && s0.m.hand == {} && s0.m.scanDone && s0.m.marks <= s0.g.heap.Keys
    ensures RootRun(s0, s0, 0)
  {
  }

  lemma RootRunGives(s0: State, s: State, n: nat)
    requires RootRun(s0, s, n)
    ensures OnlyMarker(s0, s) && MarkerOk(s.m) && s.m.hand == {} && s.m.scanDone && s.m.marks <= s.g.heap.Keys
    ensures s.phase == Stopped && s.m.ms != MsInvalid && |s.g.roots| <= n ==> AllRootsCovered(s)
  {
  }

  lemma RootRunRange(s0: State, s: State, t: State, i: nat, j: nat)
    requires RootRun(s0, s, i) && i <= j && PushRootRange(s, t, Below(j) - Below(i))
    ensures RootRun(s0, t, j)
  {
    hide MarkSteps;
    MarkAppend(s0, s, t, SPushRootRange(Below(j) - Below(i)));
  }

  lemma RootRunStep(s0: State, s: State, t: State, i: nat)
    requires RootRun(s0, s, i) && PushRootEagerly(s, t, i, WordAt(s.g, RootLoc(i)))
    ensures RootRun(s0, t, i + 1)
  {
    MarkAndPushPays(s.g, s.m, WordAt(s.g, RootLoc(i)));
    MarkAndPushEffect(s.g, s.m, WordAt(s.g, RootLoc(i)));
    MarkAppend(s0, s, t, SPushRootEagerly(i, WordAt(s.g, RootLoc(i))));
  }

  lemma RootsRunFrom(s0: State, s: State, t: State, n: nat)
    requires RootRun(s0, s, n) && RootsDone(s, t) && s0.m.ms !in {MsNone, RootsPushed, MsInvalid}
    ensures RootsRun(s0, t)
  {
    MarkAppend(s0, s, t, SRootsDone);
  }

  /** What GC_push_roots and the change of state after it come to. */
  ghost predicate RootsRun(s: State, t: State) {
    && MarkSteps(s, t) && OnlyMarker(s, t) && MarkerOk(t.m) && s.m.marks <= t.m.marks <= s.g.heap.Keys
    && t.m.hand == {} && !t.m.scanDone && t.m.objectsMarked && t.m.limit == s.m.limit && t.m.scanPtr == s.m.scanPtr
    && (t.m.ms == RootsPushed || (t.m.ms == MsInvalid && s.m.marks < t.m.marks))
  }

  /** What one step of the heap scan that finds a block comes to: either some object got marked, or
      the mark state is as it was and the scan has moved up. */
  ghost predicate Pushed(s: State, t: State) {
    && MarkSteps(s, t) && OnlyMarker(s, t) && MarkerOk(t.m) && s.m.marks <= t.m.marks <= s.g.heap.Keys
    && t.m.hand == {} && t.m.scanDone == s.m.scanDone && t.m.limit == s.m.limit && t.m.scanPtr != 0
    && (s.m.objectsMarked ==> t.m.objectsMarked)
    && (t.m.ms == s.m.ms || (t.m.ms == MsInvalid && t.m.objectsMarked))
    && (t.m.marks == s.m.marks ==> t.m.ms == s.m.ms && Ahead(t) < Ahead(s))
  }

  lemma PushedFrom(s: State, s1: State, t: State, b: nat, es: seq<set<Loc>>, h: set<Loc>)
    requires PushBlock(s, s1, b, es, h) && Scanned(s1, t) && t.m.hand == {} && s.m.marks <= s.g.heap.Keys
    requires LayoutOk(s.g) && (s1.m.hand == {} ==> t == s1)
    ensures Pushed(s, t)
  {
    MarkRefl(s);
    MarkAppend(s, s, s1, SPushBlock(b, es, h));
    MarkTrans(s, s1, t);
    SmallerAhead(s.g.blocks.Keys, s.m.scanPtr, b, s1.m.scanPtr);
  }

  /** What examining words comes to. */
  ghost predicate Scanned(s: State, t: State) {
    && MarkSteps(s, t) && Paid(s, t) && MarkerOk(t.m) && t.m.ms != MsNone
    && t.m.objectsMarked == s.m.objectsMarked
    && (t.m.marks == s.m.marks ==> t.m.stack == s.m.stack)
  }

  lemma ScannedStep(s0: State, s: State, t: State, l: Loc, w: Word)
    requires Scanned(s0, s) && ScanWord(s, t, l, w)
    ensures Scanned(s0, t)
  {
    MarkAndPushPays(s.g, s.m.(hand := s.m.hand - {l}), w);
    MarkAppend(s0, s, t, SScanWord(l, w));
  }

  /** What marking from the mark stack comes to. */
  ghost predicate MarkRun(s: State, t: State, started: bool) {
    && MarkSteps(s, t) && Paid(s, t) && MarkerOk(t.m) && t.m.hand == {} && t.m.ms != MsNone
    && (!started ==> t == s)
    && (started ==> t.m.objectsMarked && (t.m.marks == s.m.marks ==> Work(t.m.stack) < Work(s.m.stack)))
  }

  lemma MarkRunStep(s0: State, s: State, s1: State, t: State, part: set<Loc>, rest: set<Loc>, started: bool)
    requires MarkRun(s0, s, started) && Pop(s, s1, part, rest) && Work(s1.m.stack) < Work(s.m.stack)
    requires Scanned(s1, t) && t.m.hand == {}
    ensures MarkRun(s0, t, true)
    ensures Unmarked(t) < Unmarked(s) || (Unmarked(t) == Unmarked(s) && Work(t.m.stack) < Work(s.m.stack))
  {
    MarkAppend(s0, s, s1, SPop(part, rest));
    MarkTrans(s0, s1, t);
    if t.m.marks != s.m.marks {
      MoreMarksLess(s, t);
    }
  }

  lemma MarkRunLess(s: State, t: State)
    requires MarkRun(s, t, true) && (s.m.ms == MsInvalid ==> s.m.objectsMarked)
    ensures Less(t, s)
  {
    if t.m.marks != s.m.marks {
      MoreMarksLess(s, t);
    }
  }

  lemma MarkRunTrans(s0: State, s: State, t: State, started: bool)
    requires MarkRun(s0, s, started) && MarkRun(s, t, true)
    ensures MarkRun(s0, t, true)
    ensures Unmarked(t) < Unmarked(s) || (Unmarked(t) == Unmarked(s) && Work(t.m.stack) < Work(s.m.stack))
  {
    MarkTrans(s0, s, t);
    if t.m.marks != s.m.marks {
      MoreMarksLess(s, t);
    }
  }

  lemma DoneAfterRun(s0: State, s: State, t: State)
    requires Some(s, t, true) && MarkSteps(s0, s) && OnlyMarker(s0, s)
    ensures Some(s0, t, true)
  {
    MarkTrans(s0, s, t);
  }

  lemma InvalidAfterRun(s0: State, s: State, t: State)
    requires Ready(s0) && s0.m.ms == RootsPushed && MarkRun(s0, s, true) && s.m.ms != RootsPushed && s.m.stack == []
    requires MarkSteps(s0, t) && s.m.limit <= t.m.limit && t == s.(m := s.m.(limit := t.m.limit))
    ensures Some(s0, t, false)
  {
    MoreMarksLess(s0, t);
  }

  lemma RestSmaller(e: set<Loc>, part: set<Loc>)
    requires part <= e && part != {}
    ensures |e - part| < |e|
  {
    var l :| l in part;
    SubsetCard(e - part, e - {l});
  }
}
