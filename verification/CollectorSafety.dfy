/** The invariant every step of the collector keeps, and what follows from it for whole runs. */
module CollectorSafety {
  import opened Sizes
  import opened Heap
  import opened Collector

  // ---------------------------------------------------------------- the invariant

  ghost predicate SetsOk(s: State) {
    && s.m.marks <= s.g.heap.Keys && s.free <= s.g.heap.Keys && s.g.live <= s.g.heap.Keys
    && s.g.live !! s.free
    && (forall b :: b in s.reclaim ==> b in s.g.blocks && s.g.blocks[b].len == 1)
    && (forall o :: o in s.free ==> o.block !in s.reclaim)
    && (forall o, i :: o in s.free && 0 <= i < |s.g.heap[o]| ==> !s.g.heap[o][i].Ptr?)
  }

  /** Reachable objects belong to the client; in particular none is on a free list. */
  ghost predicate ReachOk(g: Graph) {
    forall o :: Reachable(g, o) ==> o in g.live
  }

  ghost predicate PermanentOk(s: State) {
    forall o :: o in s.g.live + s.free && IsPermanent(s.g, o) ==> o in s.m.marks
  }

  ghost predicate HeapPage(g: Graph, b: nat, p: nat) {
    b in g.blocks && g.blocks[b].kind.Scanned() && InRange(p, b, g.blocks[b].len)
  }

  /** A page that may hold pointers is write-protected or has its dirty bit set; written ones have it set. */
  ghost predicate DirtyOk(s: State) {
    && (s.incremental ==> forall b, p: nat :: HeapPage(s.g, b, p) ==> p in s.d.prot || PageHash(p) in s.d.dirty)
    && (s.incremental ==> forall b, p: nat :: HeapPage(s.g, b, p) && p in s.d.touched ==> PageHash(p) in s.d.dirty)
  }

  /** A pointer out of a marked reachable object. */
  ghost predicate Obliged(s: State, o: Obj, i: nat) {
    o in s.m.marks && Reachable(s.g, o) && HasWord(s.g, o, i) && s.g.heap[o][i].Ptr?
  }

  /** What each mark state still lets the heap scan make good. */
  ghost predicate Excused(s: State, o: Obj, i: nat) {
    match s.m.ms
    case PushRescuers => !s.m.scanDone && PageHash(PageOf(o, i)) in s.d.grungy && s.m.scanPtr <= o.block
    case PushUncollectable => !s.m.scanDone && o.block in s.g.blocks && s.g.blocks[o.block].kind == Uncollectable &&
      s.m.scanPtr <= o.block
    case PartiallyInvalid => !s.m.scanDone && s.m.scanPtr <= o.block
    case MsInvalid => true
    case _ => false
  }

  /** A pointer out of a marked object leads to a marked object, or its word is pending, or its page was
      written since the dirty bits were read, or the heap scan will still come by. */
  ghost predicate Safe(s: State, o: Obj, i: nat)
    requires HasWord(s.g, o, i) && s.g.heap[o][i].Ptr?
  {
    s.g.heap[o][i].o in s.m.marks || Pending(s.m, Field(o, i)) || PageOf(o, i) in s.d.touched || Excused(s, o, i)
  }

  ghost predicate TriColor(s: State) {
    forall o, i: nat :: Obliged(s, o, i) ==> Safe(s, o, i)
  }

  ghost predicate RootSafe(s: State, i: nat) {
    i < |s.g.roots| && s.g.roots[i].Ptr? ==> s.g.roots[i].o in s.m.marks || Pending(s.m, RootLoc(i))
  }

  ghost predicate RootsOk(s: State) {
    forall i: nat :: i in s.m.covered ==> RootSafe(s, i)
  }

  ghost predicate CtrlOk(s: State) {
    && MarkerOk(s.m)
    && (s.m.ms == MsNone ==> s.m.stack == [] && s.m.hand == {})
    && (s.m.ms == PushRescuers ==> s.incremental)
    && (s.m.ms in {PartiallyInvalid, RootsPushed} ==> s.m.objectsMarked)
    && (s.m.scanDone ==> s.m.ms !in {MsNone, RootsPushed})
    && (s.m.hand != {} ==> s.m.objectsMarked)
    && (s.phase != Stopped ==> s.m.covered == {})
    && (s.phase == Stopped ==> s.d.touched == {})
    && (s.phase == Stopped && s.m.ms in {MsNone, RootsPushed} ==> AllRootsCovered(s))
    && (s.phase in {Locked, Finishing, Finalized} ==> s.m.hand == {} && !s.m.scanDone)
    && (s.phase in {Finishing, Finalized} ==> s.m.ms == MsNone)
    && (s.mustFinish ==> s.phase != Running)
  }

  /** After GC_clear_marks only uncollectable objects are marked, until marking sets GC_objects_are_marked. */
  ghost predicate FreshOk(s: State) {
    s.m.ms in {MsInvalid, PushUncollectable} && !s.m.objectsMarked && !s.m.scanDone ==>
      && s.m.stack == [] && s.m.hand == {}
      && (s.m.ms == MsInvalid && (s.incremental || s.phase == Stopped) ==> s.m.scanPtr == 0)
      && forall o :: o in s.m.marks ==> IsPermanent(s.g, o)
  }

  /** Reachable objects of a block that waits to be swept are marked. */
  ghost predicate SweepOk(s: State) {
    !s.mustFinish ==> forall o :: Reachable(s.g, o) && o.block in s.reclaim ==> o in s.m.marks
  }

  ghost predicate FinishOk(s: State) {
    && (s.phase == Finishing ==> forall o :: ClientReachable(s.g, o) ==> o in s.m.marks)
    && (s.phase == Finishing ==> forall o, t :: o in s.m.marks && Reachable(s.g, o) && Edge(s.g, o, t) ==>
      t in s.m.marks)
    && (s.phase == Finalized ==> forall o :: Reachable(s.g, o) ==> o in s.m.marks)
  }

  ghost predicate Inv(s: State) {
    && LayoutOk(s.g) && SetsOk(s) && ReachOk(s.g) && PermanentOk(s) && DirtyOk(s)
    && TriColor(s) && RootsOk(s) && CtrlOk(s) && FreshOk(s) && SweepOk(s) && FinishOk(s)
  }

  // ---------------------------------------------------------------- dirty bits

  /** Pages less than a table apart do not share a dirty bit. */
  lemma HashesDiffer(p: nat, q: nat)
    requires p < q < p + PHT_ENTRIES
    ensures PageHash(p) != PageHash(q)
  {
  }

  /** Starting a collection in incremental mode reads the dirty bits: what was dirty is grungy, no page is dirty,
      exactly the pages of used blocks that may hold pointers are protected, and a block is scanned again exactly
      if one of its pages has a bit that was set. Otherwise the bits are left alone. */
  lemma InitiateReads(s: State, s': State)
    requires Initiate(s, s')
    ensures s.incremental ==> s'.d.grungy == s.d.dirty && s'.d.dirty == {} && s'.d.touched == {}
    ensures s.incremental ==> forall p: nat :: p in s'.d.prot <==> exists b: nat :: HeapPage(s.g, b, p)
    ensures s.incremental ==> forall b :: b in s.g.blocks ==>
              (BlockWasDirty(s'.g, s'.d, b) <==>
                 exists p: nat :: InRange(p, b, s.g.blocks[b].len) && PageHash(p) in s.d.dirty)
    ensures !s.incremental ==> s'.d == s.d.(touched := {})
  {
    if s.incremental {
      forall p: nat
        ensures p in s'.d.prot <==> exists b: nat :: HeapPage(s.g, b, p)
      {
        if b: nat :| HeapPage(s.g, b, p) {
          assert p < b + s.g.blocks[b].len && InRange(p, b, s.g.blocks[b].len);
        }
        if p in s'.d.prot {
          var b: nat :| b in s.g.blocks && s.g.blocks[b].kind.Scanned() && InRange(p, b, s.g.blocks[b].len);
          assert HeapPage(s.g, b, p);
        }
      }
      forall b | b in s.g.blocks
        ensures BlockWasDirty(s'.g, s'.d, b) <==>
                  exists p: nat :: InRange(p, b, s.g.blocks[b].len) && PageHash(p) in s.d.dirty
      {
        if p: nat :| InRange(p, b, s.g.blocks[b].len) && PageHash(p) in s.d.dirty {
          assert b <= p < b + s.g.blocks[b].len && PageHash(p) in s'.d.grungy;
        }
        if BlockWasDirty(s'.g, s'.d, b) {
          var p: nat :| b <= p < b + s.g.blocks[b].len && PageHash(p) in s'.d.grungy;
          assert InRange(p, b, s.g.blocks[b].len);
        }
      }
    }
  }

  /** A store unprotects its own page only, and sets a dirty bit only if that page was protected. */
  lemma WriteFaults(s: State, s': State, o: Obj, i: nat, w: Word)
    requires Write(s, s', o, i, w)
    ensures var page := PageOf(o, i);
            && s'.d.prot == s.d.prot - {page} && s'.d.touched == s.d.touched + {page} && s'.d.grungy == s.d.grungy
            && s'.d.dirty == if page in s.d.prot then s.d.dirty + {PageHash(page)} else s.d.dirty
  {
  }

  /** Removing protection touches the pages of the block only, and makes them dirty unless it is pointer-free. */
  lemma RemoveProtectionExact(d: VirtualDirty, b: nat, len: nat, isPtrFree: bool)
    ensures var d' := RemoveProtection(d, b, len, isPtrFree);
            && (forall p: nat :: p in d'.prot <==> p in d.prot && !InRange(p, b, len))
            && (forall h: nat :: h in d'.dirty <==>
                  h in d.dirty || (!isPtrFree && exists p: nat :: InRange(p, b, len) && PageHash(p) == h))
            && d'.touched == d.touched && d'.grungy == d.grungy
  {
    var d' := RemoveProtection(d, b, len, isPtrFree);
    forall h: nat
      ensures h in d'.dirty <==> h in d.dirty || (!isPtrFree && exists p: nat :: InRange(p, b, len) && PageHash(p) == h)
    {
      if p: nat :| InRange(p, b, len) && PageHash(p) == h {
        assert b <= p < b + len;
      }
      if !isPtrFree && h in d'.dirty && h !in d.dirty {
        var p: nat :| b <= p < b + len && PageHash(p) == h;
        assert InRange(p, b, len);
      }
    }
  }

  // ---------------------------------------------------------------- marker steps

  /** What marking never changes: everything but the marker's own state, and marks only grow. */
  ghost predicate MarkerFrame(s: State, s': State) {
    && s' == s.(m := s'.m)
    && s.m.marks <= s'.m.marks <= s.g.heap.Keys
    && MarkerMayRun(s)
  }

  lemma FrameKeeps(s: State, s': State)
    requires Inv(s) && MarkerFrame(s, s')
    requires TriColor(s') && RootsOk(s') && CtrlOk(s') && FreshOk(s')
    ensures Inv(s')
  {
  }

  lemma PopKeeps(s: State, s': State, part: set<Loc>, rest: set<Loc>)
    requires Inv(s) && Pop(s, s', part, rest)
    ensures Inv(s')
  {
    var n := |s.m.stack| - 1;
    forall l | Pending(s.m, l)
      ensures Pending(s'.m, l)
    {
      if l in s.m.stack[n] && l !in part {
        assert l in rest;
        assert s'.m.stack[n] == rest;
      } else if l !in s.m.stack[n] {
        var k :| 0 <= k < |s.m.stack| && l in s.m.stack[k];
        assert s'.m.stack[k] == s.m.stack[k];
      }
    }
    forall o, i: nat | Obliged(s', o, i)
      ensures Safe(s', o, i)
    {
      assert Obliged(s, o, i);
    }
    forall i: nat | i in s'.m.covered
      ensures RootSafe(s', i)
    {
      assert RootSafe(s, i);
    }
    FrameKeeps(s, s');
  }

  /** PushEntry keeps what was pending, unless it overflows. */
  lemma PushEntryPending(m: Marker, e: set<Loc>, l: Loc)
    requires MarkerOk(m)
    ensures l in e ==> Pending(PushEntry(m, e), l)
    ensures Pending(m, l) ==>
              Pending(PushEntry(m, e), l) || (PushEntry(m, e).ms == MsInvalid && PushEntry(m, e).covered == {})
  {
    var m' := PushEntry(m, e);
    assert m'.stack[|m'.stack| - 1] == e;
    if Pending(m, l) && |m.stack| < m.limit && l !in m.hand {
      var k :| 0 <= k < |m.stack| && l in m.stack[k];
      assert m'.stack[k] == m.stack[k];
    }
  }

  /** What PUSH_CONTENTS does: it marks at most the denoted object, and either keeps all pending words
      or gives up the mark state. */
  lemma MarkAndPushEffect(g: Graph, m: Marker, w: Word)
    requires MarkerOk(m)
    ensures var m' := MarkAndPush(g, m, w);
            && m' == m.(ms := m'.ms, marks := m'.marks, stack := m'.stack, covered := m'.covered)
            && ((m'.ms == m.ms && m'.covered == m.covered) || (m'.ms == MsInvalid && m'.covered == {}))
            && m.marks <= m'.marks && (forall o :: o in m'.marks && o !in m.marks ==> Denotes(w, o) && o in g.heap)
            && (!w.NonPtr? && w.o in g.heap ==> w.o in m'.marks)
            && (forall l :: Pending(m, l) ==> Pending(m', l) || (m'.ms == MsInvalid && m'.covered == {}))
            && (forall o, i: nat :: o in m'.marks && o !in m.marks && HasWord(g, o, i) ==> Pending(m', Field(o, i)))
  {
    var m' := MarkAndPush(g, m, w);
    if !(w.NonPtr? || w.o !in g.heap || w.o in m.marks) {
      var m1 := m.(marks := m.marks + {w.o});
      if Scannable(g, w.o) {
        forall l | Pending(m, l)
          ensures Pending(m', l) || (m'.ms == MsInvalid && m'.covered == {})
        {
          assert Pending(m1, l);
          PushEntryPending(m1, Fields(g, w.o), l);
        }
        forall o, i: nat | o in m'.marks && o !in m.marks && HasWord(g, o, i)
          ensures Pending(m', Field(o, i))
        {
          PushEntryPending(m1, Fields(g, w.o), Field(o, i));
        }
      } else {
        assert forall l :: Pending(m, l) ==> Pending(m', l);
      }
    }
  }

  lemma ScanWordKeeps(s: State, s': State, l: Loc, w: Word)
    requires Inv(s) && ScanWord(s, s', l, w)
    ensures Inv(s')
  {
    var m0 := s.m.(hand := s.m.hand - {l});
    MarkAndPushEffect(s.g, m0, w);
    assert forall x :: Pending(s.m, x) && x != l ==> Pending(m0, x);
    forall o, i: nat | Obliged(s', o, i)
      ensures Safe(s', o, i)
    {
      if o in s.m.marks {
        assert Obliged(s, o, i) && Safe(s, o, i);
        if Field(o, i) == l {
          EdgeIsReachable(s.g, o, s.g.heap[o][i].o);
          assert w == s.g.heap[o][i] || PageOf(o, i) in s.d.touched;
        }
      }
    }
    forall i: nat | i in s'.m.covered
      ensures RootSafe(s', i)
    {
      assert RootSafe(s, i);
      if i < |s.g.roots| && s.g.roots[i].Ptr? && RootLoc(i) == l {
        BaseIsReachable(s.g, s.g.roots[i].o);
        assert s.phase == Stopped;
      }
    }
    FrameKeeps(s, s');
  }

  lemma WantedIfGrungy(s: State, o: Obj, i: nat)
    requires LayoutOk(s.g) && HasWord(s.g, o, i) && s.m.ms == PushRescuers
    requires PageHash(PageOf(o, i)) in s.d.grungy
    ensures Wanted(s, o.block)
  {
    PageInBlock(s.g, o, i);
  }

  lemma PushBlockKeeps(s: State, s': State, b: nat, es: seq<set<Loc>>, hand: set<Loc>)
    requires Inv(s) && PushBlock(s, s', b, es, hand)
    ensures Inv(s')
  {
    var n := |s.m.stack|;
    forall x | Pending(s.m, x) || x in BlockWork(s.g, s.m.marks, b)
      ensures Pending(s'.m, x)
    {
      if k :| 0 <= k < n && x in s.m.stack[k] {
        assert s'.m.stack[k] == s.m.stack[k];
      } else if k :| 0 <= k < |es| && x in es[k] {
        assert s'.m.stack[n + k] == es[k];
      }
    }
    forall o, i: nat | Obliged(s', o, i)
      ensures Safe(s', o, i)
    {
      assert Obliged(s, o, i) && Safe(s, o, i);
      if Excused(s, o, i) && !Excused(s', o, i) {
        if s.m.ms == PushRescuers {
          WantedIfGrungy(s, o, i);
        }
        assert Wanted(s, o.block);
        assert o.block == b;
        assert Field(o, i) in BlockWork(s.g, s.m.marks, b);
      }
    }
    forall i: nat | i in s'.m.covered
      ensures RootSafe(s', i)
    {
      assert RootSafe(s, i);
    }
    FrameKeeps(s, s');
  }

  lemma ScanEndKeeps(s: State, s': State)
    requires Inv(s) && ScanEnd(s, s')
    ensures Inv(s')
  {
    assert forall x :: Pending(s.m, x) ==> Pending(s'.m, x);
    forall o, i: nat | Obliged(s', o, i)
      ensures Safe(s', o, i)
    {
      assert Obliged(s, o, i) && Safe(s, o, i);
      if Excused(s, o, i) && s.m.ms == PushRescuers {
        WantedIfGrungy(s, o, i);
      }
    }
    forall i: nat | i in s'.m.covered
      ensures RootSafe(s', i)
    {
      assert RootSafe(s, i);
    }
    FrameKeeps(s, s');
  }

  lemma PushRootRangeKeeps(s: State, s': State, range: set<nat>)
    requires Inv(s) && PushRootRange(s, s', range)
    ensures Inv(s')
  {
    var e := set i | i in range :: RootLoc(i);
    var n := |s.m.stack|;
    assert s'.m.stack[n] == e;
    forall x | Pending(s.m, x)
      ensures Pending(s'.m, x)
    {
      if k :| 0 <= k < n && x in s.m.stack[k] {
        assert s'.m.stack[k] == s.m.stack[k];
      }
    }
    forall o, i: nat | Obliged(s', o, i)
      ensures Safe(s', o, i)
    {
      assert Obliged(s, o, i) && Safe(s, o, i);
    }
    forall i: nat | i in s'.m.covered
      ensures RootSafe(s', i)
    {
      if i in range {
        assert RootLoc(i) in e;
      } else {
        assert RootSafe(s, i);
      }
    }
    FrameKeeps(s, s');
  }

  lemma PushRootEagerlyKeeps(s: State, s': State, i: nat, w: Word)
    requires Inv(s) && PushRootEagerly(s, s', i, w)
    ensures Inv(s')
  {
    MarkAndPushEffect(s.g, s.m, w);
    var m1 := MarkAndPush(s.g, s.m, w);
    assert forall x :: Pending(m1, x) ==> Pending(s'.m, x);
    forall o, j: nat | Obliged(s', o, j)
      ensures Safe(s', o, j)
    {
      if o in s.m.marks {
        assert Obliged(s, o, j) && Safe(s, o, j);
      }
    }
    forall j: nat | j in s'.m.covered
      ensures RootSafe(s', j)
    {
      if j in m1.covered {
        assert RootSafe(s, j);
      } else if j < |s.g.roots| && s.g.roots[j].Ptr? {
        BaseIsReachable(s.g, s.g.roots[j].o);
      }
    }
    FrameKeeps(s, s');
  }

  /** The steps that only move the mark state along. */
  lemma StateStepKeeps(s: State, s': State, n: nat)
    requires Inv(s)
    requires RootsDone(s, s') || MarkDone(s, s') || StartUncollectable(s, s') || StartRescan(s, s') ||
             GrowStack(s, s', n)
    ensures Inv(s')
  {
    assert forall x :: Pending(s.m, x) == Pending(s'.m, x);
    forall o, i: nat | Obliged(s', o, i)
      ensures Safe(s', o, i)
    {
      assert Obliged(s, o, i) && Safe(s, o, i);
    }
    forall i: nat | i in s'.m.covered
      ensures RootSafe(s', i)
    {
      assert RootSafe(s, i);
    }
    FrameKeeps(s, s');
  }

  // ---------------------------------------------------------------- steps of the client

  /** What the client can reach after a step of its own it could reach before, and likewise for all holders. */
  ghost predicate ReachShrinks(g: Graph, h: Graph) {
    && (forall o :: Reachable(h, o) ==> Reachable(g, o))
    && (forall o :: ClientReachable(h, o) ==> ClientReachable(g, o))
  }

  lemma WriteReach(s: State, s': State, o: Obj, i: nat, w: Word)
    requires Write(s, s', o, i, w)
    ensures ReachShrinks(s.g, s'.g)
  {
    var g, h := s.g, s'.g;
    if w.Ptr? {
      ClientReachableIsReachable(g, w.o);
    }
    forall x, t | Edge(h, x, t)
      ensures Edge(g, x, t) || (w == Ptr(t))
    {
    }
    forall x, t | Reachable(g, x) && Edge(h, x, t)
      ensures Reachable(g, t)
    {
      if Edge(g, x, t) {
        EdgeIsReachable(g, x, t);
      }
    }
    forall t | Base(h, t)
      ensures Reachable(g, t)
    {
      BaseIsReachable(g, t);
    }
    ReachStep(g, h, iset{});
    WriteClientReach(g, h, o, i, w);
  }

  lemma WriteClientReach(g: Graph, h: Graph, o: Obj, i: nat, w: Word)
    requires o in g.heap && i < |g.heap[o]| && h == g.(heap := g.heap[o := g.heap[o][i := w]])
    requires w.Ptr? ==> ClientReachable(g, w.o)
    ensures forall t :: ClientReachable(h, t) ==> ClientReachable(g, t)
  {
    var cg, ch := g.(fin := {}), h.(fin := {});
    forall x, t | Reachable(cg, x) && Edge(ch, x, t)
      ensures Reachable(cg, t)
    {
      if w != Ptr(t) {
        assert Edge(cg, x, t);
        EdgeIsReachable(cg, x, t);
      }
    }
    forall t | Base(ch, t)
      ensures Reachable(cg, t)
    {
      BaseIsReachable(cg, t);
    }
    ReachStep(cg, ch, iset{});
  }

  lemma WriteKeeps(s: State, s': State, o: Obj, i: nat, w: Word)
    requires Inv(s) && Write(s, s', o, i, w)
    ensures Inv(s')
  {
    WriteReach(s, s', o, i, w);
    ClientReachableIsReachable(s.g, o);
    WriteTriColor(s, s', o, i, w);
    WriteDirty(s, s', o, i, w);
    WriteFinish(s, s', o, i, w);
  }

  lemma WriteTriColor(s: State, s': State, o: Obj, i: nat, w: Word)
    requires Inv(s) && Write(s, s', o, i, w) && ReachShrinks(s.g, s'.g)
    ensures TriColor(s')
  {
    assert s'.m == s.m;
    forall x, j: nat | Obliged(s', x, j)
      ensures Safe(s', x, j)
    {
      if x != o || j != i {
        assert s'.g.heap[x][j] == s.g.heap[x][j];
        assert Obliged(s, x, j) && Safe(s, x, j);
      }
    }
  }

  lemma WriteDirty(s: State, s': State, o: Obj, i: nat, w: Word)
    requires Inv(s) && Write(s, s', o, i, w)
    ensures DirtyOk(s')
  {
    if s.incremental {
      forall b, p: nat | HeapPage(s'.g, b, p) && p in s'.d.touched
        ensures PageHash(p) in s'.d.dirty
      {
        assert HeapPage(s.g, b, p);
      }
      forall b, p: nat | HeapPage(s'.g, b, p)
        ensures p in s'.d.prot || PageHash(p) in s'.d.dirty
      {
        assert HeapPage(s.g, b, p);
      }
    }
  }

  lemma WriteFinish(s: State, s': State, o: Obj, i: nat, w: Word)
    requires Inv(s) && Write(s, s', o, i, w) && ReachShrinks(s.g, s'.g)
    ensures FinishOk(s')
  {
    if s.phase == Finishing {
      forall x, t | x in s'.m.marks && Reachable(s'.g, x) && Edge(s'.g, x, t)
        ensures t in s'.m.marks
      {
        if w != Ptr(t) {
          assert Edge(s.g, x, t);
        }
      }
    }
  }

  lemma RootsReach(g: Graph, h: Graph)
    requires h == g.(roots := h.roots) && forall t :: Ptr(t) in h.roots ==> ClientReachable(g, t)
    ensures ReachShrinks(g, h)
  {
    forall x, t | Reachable(g, x) && Edge(h, x, t)
      ensures Reachable(g, t)
    {
      EdgeIsReachable(g, x, t);
    }
    forall t | Base(h, t)
      ensures Reachable(g, t)
    {
      if Ptr(t) in h.roots {
        ClientReachableIsReachable(g, t);
      } else {
        BaseIsReachable(g, t);
      }
    }
    ReachStep(g, h, iset{});
    var cg, ch := g.(fin := {}), h.(fin := {});
    forall x, t | Reachable(cg, x) && Edge(ch, x, t)
      ensures Reachable(cg, t)
    {
      EdgeIsReachable(cg, x, t);
    }
    forall t | Base(ch, t)
      ensures Reachable(cg, t)
    {
      if Ptr(t) !in h.roots {
        BaseIsReachable(cg, t);
      }
    }
    ReachStep(cg, ch, iset{});
  }

  lemma FinReach(g: Graph, h: Graph)
    requires h == g.(fin := h.fin) && forall o :: o in h.fin ==> Reachable(g, o)
    ensures ReachShrinks(g, h)
  {
    forall x, t | Reachable(g, x) && Edge(h, x, t)
      ensures Reachable(g, t)
    {
      EdgeIsReachable(g, x, t);
    }
    forall t | Base(h, t)
      ensures Reachable(g, t)
    {
      if t !in h.fin {
        BaseIsReachable(g, t);
      }
    }
    ReachStep(g, h, iset{});
    assert g.(fin := {}) == h.(fin := {});
  }

  lemma ChangeRootsKeeps(s: State, s': State, roots: seq<Word>)
    requires Inv(s) && ChangeRoots(s, s', roots)
    ensures Inv(s')
  {
    RootsReach(s.g, s'.g);
    SameHeapTriColor(s, s');
    SameBlocksDirty(s, s');
    assert forall x, t :: Edge(s'.g, x, t) == Edge(s.g, x, t);
  }

  lemma RegisterKeeps(s: State, s': State, o: Obj)
    requires Inv(s) && (Register(s, s', o) || Unregister(s, s', o))
    ensures Inv(s')
  {
    forall x | x in s'.g.fin
      ensures Reachable(s.g, x)
    {
      if x in s.g.fin {
        BaseIsReachable(s.g, x);
      } else {
        ClientReachableIsReachable(s.g, x);
      }
    }
    FinReach(s.g, s'.g);
    SameHeapTriColor(s, s');
    SameBlocksDirty(s, s');
  }

  lemma SameHeapTriColor(s: State, s': State)
    requires TriColor(s) && s'.m == s.m && s'.d == s.d && s'.g.heap == s.g.heap && s'.g.blocks == s.g.blocks
    requires forall o :: Reachable(s'.g, o) && o in s.m.marks ==> Reachable(s.g, o)
    ensures TriColor(s')
  {
    forall x, j: nat | Obliged(s', x, j)
      ensures Safe(s', x, j)
    {
      assert Obliged(s, x, j) && Safe(s, x, j);
    }
  }

  lemma SameBlocksDirty(s: State, s': State)
    requires DirtyOk(s) && s'.d == s.d && s'.g.blocks == s.g.blocks && s'.incremental == s.incremental
    ensures DirtyOk(s')
  {
    assert forall b, p: nat :: HeapPage(s'.g, b, p) ==> HeapPage(s.g, b, p);
  }

  lemma AllocateKeeps(s: State, s': State, o: Obj)
    requires Inv(s) && Allocate(s, s', o)
    ensures Inv(s')
  {
    var g, h := s.g, s'.g;
    forall t | Base(h, t)
      ensures Reachable(g, t) || t == o
    {
      if t != o {
        assert Base(g, t);
        BaseIsReachable(g, t);
      }
    }
    forall x, t | (Reachable(g, x) || x == o) && Edge(h, x, t)
      ensures Reachable(g, t) || t == o
    {
      assert Edge(g, x, t);
      if x != o {
        EdgeIsReachable(g, x, t);
      }
    }
    ReachStep(g, h, iset{o});
    forall x, j: nat | Obliged(s', x, j)
      ensures Safe(s', x, j)
    {
      assert x != o;
      assert Obliged(s, x, j) && Safe(s, x, j);
    }
    SameBlocksDirty(s, s');
  }

  /** A new block holds no object that is reachable, or marked, so far. */
  lemma NewBlockReach(s: State, s': State, b: nat, blk: Block, objs: map<Obj, seq<Word>>)
    requires Inv(s) && NewBlock(s, s', b, blk, objs)
    ensures objs.Keys !! s.g.heap.Keys && b !in s.g.blocks
    ensures ReachShrinks(s.g, s'.g)
  {
    var g, h := s.g, s'.g;
    forall x, t | Edge(h, x, t)
      ensures Edge(g, x, t)
    {
      assert x in g.heap;
    }
    forall t | Base(h, t)
      ensures Reachable(g, t)
    {
      assert Base(g, t);
      BaseIsReachable(g, t);
    }
    forall x, t | Reachable(g, x) && Edge(h, x, t)
      ensures Reachable(g, t)
    {
      EdgeIsReachable(g, x, t);
    }
    ReachStep(g, h, iset{});
    var cg, ch := g.(fin := {}), h.(fin := {});
    forall x, t | Reachable(cg, x) && Edge(ch, x, t)
      ensures Reachable(cg, t)
    {
      assert Edge(h, x, t);
      assert Edge(cg, x, t);
      EdgeIsReachable(cg, x, t);
    }
    forall t | Base(ch, t)
      ensures Reachable(cg, t)
    {
      assert Base(cg, t);
      BaseIsReachable(cg, t);
    }
    ReachStep(cg, ch, iset{});
  }

  lemma NewBlockDirty(s: State, s': State, b: nat, blk: Block, objs: map<Obj, seq<Word>>)
    requires Inv(s) && NewBlock(s, s', b, blk, objs)
    ensures DirtyOk(s')
  {
    if s.incremental {
      forall c, p: nat | HeapPage(s'.g, c, p)
        ensures p in s'.d.prot || PageHash(p) in s'.d.dirty
        ensures p in s'.d.touched ==> PageHash(p) in s'.d.dirty
      {
        if c != b {
          assert HeapPage(s.g, c, p);
        }
      }
    }
  }

  lemma NewBlockTriColor(s: State, s': State, b: nat, blk: Block, objs: map<Obj, seq<Word>>)
    requires Inv(s) && NewBlock(s, s', b, blk, objs)
    requires objs.Keys !! s.g.heap.Keys && b !in s.g.blocks && ReachShrinks(s.g, s'.g)
    ensures TriColor(s')
  {
    assert forall x :: Pending(s.m, x) == Pending(s'.m, x);
    forall x, j: nat | Obliged(s', x, j)
      ensures Safe(s', x, j)
    {
      assert x in s.g.live;
      assert Obliged(s, x, j) && Safe(s, x, j);
    }
  }

  lemma NewBlockSets(s: State, s': State, b: nat, blk: Block, objs: map<Obj, seq<Word>>)
    requires Inv(s) && NewBlock(s, s', b, blk, objs)
    requires objs.Keys !! s.g.heap.Keys && b !in s.g.blocks && ReachShrinks(s.g, s'.g)
    ensures LayoutOk(s'.g) && SetsOk(s') && ReachOk(s'.g) && PermanentOk(s')
  {
    hide TriColor, RootsOk, CtrlOk, FreshOk, FinishOk, DirtyOk, SweepOk, LayoutOk, NewBlock;
    NewBlockLayout(s, s', b, blk, objs);
    NewBlockMarks(s, s', b, blk, objs);
  }

  /** Where the objects of a new block start. */
  lemma LaidOutStarts(b: nat, blk: Block, objs: map<Obj, seq<Word>>, o: Obj)
    requires LaidOut(b, blk, objs) && 1 <= blk.len && o in objs
    ensures o.off < HBLK_WORDS
  {
  }

  lemma AddedLayout(g: Graph, h: Graph, b: nat, blk: Block, objs: map<Obj, seq<Word>>)
    requires LayoutOk(g) && LaidOut(b, blk, objs) && b !in g.blocks && 1 <= b && 1 <= blk.len
    requires forall c :: c in g.blocks ==> b + blk.len <= c || c + g.blocks[c].len <= b
    requires h.heap == g.heap + objs && h.blocks == g.blocks[b := blk]
    ensures LayoutOk(h)
  {
    forall o | o in h.heap
      ensures o.block in h.blocks && o.off < HBLK_WORDS
      ensures o.off + |h.heap[o]| <= h.blocks[o.block].len * HBLK_WORDS
    {
      if o in objs {
        LaidOutStarts(b, blk, objs, o);
      }
    }
  }

  lemma NewBlockLayout(s: State, s': State, b: nat, blk: Block, objs: map<Obj, seq<Word>>)
    requires LayoutOk(s.g) && NewBlock(s, s', b, blk, objs) && objs.Keys !! s.g.heap.Keys && b !in s.g.blocks
    ensures LayoutOk(s'.g)
  {
    hide LayoutOk, LaidOut, RemoveProtection;
    AddedLayout(s.g, s'.g, b, blk, objs);
  }

  lemma NewBlockMarks(s: State, s': State, b: nat, blk: Block, objs: map<Obj, seq<Word>>)
    requires Inv(s) && NewBlock(s, s', b, blk, objs)
    requires objs.Keys !! s.g.heap.Keys && b !in s.g.blocks && ReachShrinks(s.g, s'.g)
    ensures SetsOk(s') && ReachOk(s'.g) && PermanentOk(s')
  {
    hide TriColor, RootsOk, CtrlOk, FreshOk, FinishOk, DirtyOk, SweepOk, RemoveProtection;
  }

  lemma NewBlockPhases(s: State, s': State, b: nat, blk: Block, objs: map<Obj, seq<Word>>)
    requires Inv(s) && NewBlock(s, s', b, blk, objs)
    requires objs.Keys !! s.g.heap.Keys && b !in s.g.blocks && ReachShrinks(s.g, s'.g)
    ensures RootsOk(s') && CtrlOk(s') && FreshOk(s') && SweepOk(s') && FinishOk(s')
  {
    hide TriColor, DirtyOk, ReachOk, PermanentOk;
    assert forall i: nat :: RootSafe(s, i) ==> RootSafe(s', i);
  }

  lemma NewBlockKeeps(s: State, s': State, b: nat, blk: Block, objs: map<Obj, seq<Word>>)
    requires Inv(s) && NewBlock(s, s', b, blk, objs)
    ensures Inv(s')
  {
    hide NewBlock, LayoutOk, SetsOk, ReachOk, PermanentOk, DirtyOk, TriColor, RootsOk, CtrlOk, FreshOk, SweepOk,
      FinishOk;
    NewBlockReach(s, s', b, blk, objs);
    NewBlockDirty(s, s', b, blk, objs);
    NewBlockTriColor(s, s', b, blk, objs);
    NewBlockSets(s, s', b, blk, objs);
    NewBlockPhases(s, s', b, blk, objs);
  }

  // ---------------------------------------------------------------- sweeping

  /** Sweeping a block takes no reachable object: the point of the whole collector. */
  lemma SweepFreesGarbage(s: State, s': State, b: nat)
    requires Inv(s) && Sweep(s, s', b)
    ensures forall o :: o in Swept(s, b) ==> !Reachable(s.g, o)
    ensures Swept(s, b) !! s.free
  {
  }

  lemma SweepReach(s: State, s': State, b: nat)
    requires Inv(s) && Sweep(s, s', b)
    ensures ReachShrinks(s.g, s'.g)
  {
    var g, h := s.g, s'.g;
    forall x, t | Edge(h, x, t)
      ensures Edge(g, x, t)
    {
      assert x !in Swept(s, b);
    }
    forall t | Base(h, t)
      ensures Reachable(g, t)
    {
      assert Base(g, t);
      BaseIsReachable(g, t);
    }
    forall x, t | Reachable(g, x) && Edge(h, x, t)
      ensures Reachable(g, t)
    {
      EdgeIsReachable(g, x, t);
    }
    ReachStep(g, h, iset{});
    var cg, ch := g.(fin := {}), h.(fin := {});
    forall x, t | Reachable(cg, x) && Edge(ch, x, t)
      ensures Reachable(cg, t)
    {
      assert Edge(h, x, t);
      assert Edge(cg, x, t);
      EdgeIsReachable(cg, x, t);
    }
    forall t | Base(ch, t)
      ensures Reachable(cg, t)
    {
      assert Base(cg, t);
      BaseIsReachable(cg, t);
    }
    ReachStep(cg, ch, iset{});
  }

  lemma SweepTriColor(s: State, s': State, b: nat)
    requires Inv(s) && Sweep(s, s', b) && ReachShrinks(s.g, s'.g)
    ensures TriColor(s')
  {
    assert forall x :: Pending(s.m, x) == Pending(s'.m, x);
    forall x, j: nat | Obliged(s', x, j)
      ensures Safe(s', x, j)
    {
      assert Reachable(s.g, x) && x !in Swept(s, b);
      assert s'.g.heap[x] == s.g.heap[x];
      if x in s.m.marks {
        assert Obliged(s, x, j) && Safe(s, x, j);
      }
    }
  }

  lemma SweepDirty(s: State, s': State, b: nat)
    requires Inv(s) && Sweep(s, s', b)
    ensures DirtyOk(s')
  {
    if s.incremental {
      forall c, p: nat | HeapPage(s'.g, c, p)
        ensures p in s'.d.prot || PageHash(p) in s'.d.dirty
        ensures p in s'.d.touched ==> PageHash(p) in s'.d.dirty
      {
        assert HeapPage(s.g, c, p);
      }
    }
  }

  lemma SweepSets(s: State, s': State, b: nat)
    requires Inv(s) && Sweep(s, s', b) && ReachShrinks(s.g, s'.g)
    ensures LayoutOk(s'.g) && SetsOk(s') && ReachOk(s'.g) && PermanentOk(s')
  {
    hide TriColor, RootsOk, CtrlOk, FreshOk, FinishOk, DirtyOk;
    SweepFreesGarbage(s, s', b);
  }

  lemma SweepPhases(s: State, s': State, b: nat)
    requires Inv(s) && Sweep(s, s', b) && ReachShrinks(s.g, s'.g)
    ensures RootsOk(s') && CtrlOk(s') && FreshOk(s') && SweepOk(s') && FinishOk(s')
  {
    hide TriColor, DirtyOk, LayoutOk, SetsOk, PermanentOk, ReachOk;
    assert forall i: nat :: RootSafe(s, i) ==> RootSafe(s', i);
  }

  lemma SweepKeeps(s: State, s': State, b: nat)
    requires Inv(s) && Sweep(s, s', b)
    ensures Inv(s')
  {
    hide Sweep, ReachShrinks, LayoutOk, SetsOk, ReachOk, PermanentOk, DirtyOk, TriColor, RootsOk, CtrlOk, FreshOk,
      SweepOk, FinishOk;
    SweepReach(s, s', b);
    SweepTriColor(s, s', b);
    SweepDirty(s, s', b);
    SweepSets(s, s', b);
    SweepPhases(s, s', b);
  }

  // ---------------------------------------------------------------- control

  lemma InitiateKeeps(s: State, s': State)
    requires Inv(s) && Initiate(s, s')
    ensures Inv(s')
  {
    assert forall x :: Pending(s.m, x) == Pending(s'.m, x);
    forall x, j: nat | Obliged(s', x, j)
      ensures Safe(s', x, j)
    {
      assert Obliged(s, x, j) && Safe(s, x, j);
      PageInBlock(s.g, x, j);
      assert HeapPage(s.g, x.block, PageOf(x, j));
    }
    if s.incremental {
      forall b: nat, p: nat | HeapPage(s'.g, b, p)
        ensures p in s'.d.prot
      {
        assert p < b + s.g.blocks[b].len && InRange(p, b, s.g.blocks[b].len);
      }
    }
  }

  /** Once GC_stopped_mark has returned TRUE, everything the client can reach is marked, and marked
      objects that anything can reach only point to marked ones. */
  lemma CompleteMarksAll(s: State)
    requires Inv(s) && s.phase == Stopped && s.m.ms == MsNone
    ensures forall o :: ClientReachable(s.g, o) ==> o in s.m.marks
    ensures forall o, t :: o in s.m.marks && Reachable(s.g, o) && Edge(s.g, o, t) ==> t in s.m.marks
  {
    forall o, t | o in s.m.marks && Reachable(s.g, o) && Edge(s.g, o, t)
      ensures t in s.m.marks
    {
      var i :| 0 <= i < |s.g.heap[o]| && s.g.heap[o][i] == Ptr(t);
      assert Obliged(s, o, i) && Safe(s, o, i);
    }
    var cg := s.g.(fin := {});
    var S := iset o | o in s.m.marks && Reachable(s.g, o);
    forall t | Base(cg, t)
      ensures t in S
    {
      BaseIsReachable(s.g, t);
      if Ptr(t) in s.g.roots {
        var i :| 0 <= i < |s.g.roots| && s.g.roots[i] == Ptr(t);
        assert RootSafe(s, i);
      }
    }
    forall o, t | o in S && Edge(cg, o, t)
      ensures t in S
    {
      assert Edge(s.g, o, t);
      EdgeIsReachable(s.g, o, t);
    }
    assert Closed(cg, S);
  }

  lemma PhaseStepKeeps(s: State, s': State, b: nat)
    requires Inv(s)
    requires Abandon(s, s') || Invalidate(s, s') || Complete(s, s') || LockForFull(s, s') || Unlock(s, s') ||
             DropReclaim(s, s', b)
    ensures Inv(s')
  {
    hide Inv, Complete, Invalidate, Abandon, LockForFull, Unlock, DropReclaim;
    if Complete(s, s') {
      CompleteKeeps(s, s');
    } else if Invalidate(s, s') {
      InvalidateKeeps(s, s');
    } else {
      LockStepKeeps(s, s', b);
    }
  }

  lemma CompleteKeeps(s: State, s': State)
    requires Inv(s) && Complete(s, s')
    ensures Inv(s')
  {
    CompleteMarksAll(s);
    SameBlocksDirty(s, s');
    forall x, j: nat | Obliged(s', x, j)
      ensures Safe(s', x, j)
    {
      assert Obliged(s, x, j) && Safe(s, x, j);
    }
  }

  lemma InvalidateKeeps(s: State, s': State)
    requires Inv(s) && Invalidate(s, s')
    ensures Inv(s')
  {
    SameBlocksDirty(s, s');
  }

  lemma LockStepKeeps(s: State, s': State, b: nat)
    requires Inv(s) && (Abandon(s, s') || LockForFull(s, s') || Unlock(s, s') || DropReclaim(s, s', b))
    ensures Inv(s')
  {
    assert forall x :: Pending(s.m, x) == Pending(s'.m, x);
    forall x, j: nat | Obliged(s', x, j)
      ensures Safe(s', x, j)
    {
      assert Obliged(s, x, j) && Safe(s, x, j);
    }
    SameBlocksDirty(s, s');
  }

  lemma ClearMarksKeeps(s: State, s': State)
    requires Inv(s) && ClearMarks(s, s')
    ensures Inv(s')
  {
    SameBlocksDirty(s, s');
  }

  lemma FinalizeEdge(s: State, s': State, marks: set<Obj>, heap: map<Obj, seq<Word>>, roots: seq<Word>,
                     queued: set<Obj>, x: Obj, t: Obj)
    requires Finalize(s, s', marks, heap, roots, queued) && Edge(s'.g, x, t)
    ensures Edge(s.g, x, t)
  {
    var i :| 0 <= i < |heap[x]| && heap[x][i] == Ptr(t);
    assert s.g.heap[x][i] == Ptr(t);
  }

  lemma FinalizeBase(s: State, s': State, marks: set<Obj>, heap: map<Obj, seq<Word>>, roots: seq<Word>,
                     queued: set<Obj>, t: Obj)
    requires Inv(s) && Finalize(s, s', marks, heap, roots, queued) && Base(s'.g, t)
    ensures t in marks && Reachable(s.g, t)
  {
    assert Base(s.g, t);
    BaseIsReachable(s.g, t);
    if t !in s.g.fin {
      BaseIsReachable(s.g.(fin := {}), t);
      assert ClientReachable(s.g, t);
    }
  }

  /** GC_finalize makes nothing reachable. */
  lemma FinalizeShrinks(s: State, s': State, marks: set<Obj>, heap: map<Obj, seq<Word>>, roots: seq<Word>,
                        queued: set<Obj>)
    requires Inv(s) && Finalize(s, s', marks, heap, roots, queued)
    ensures forall o :: Reachable(s'.g, o) ==> Reachable(s.g, o)
  {
    forall t | Base(s'.g, t)
      ensures Reachable(s.g, t)
    {
      FinalizeBase(s, s', marks, heap, roots, queued, t);
    }
    forall x, t | Reachable(s.g, x) && Edge(s'.g, x, t)
      ensures Reachable(s.g, t)
    {
      FinalizeEdge(s, s', marks, heap, roots, queued, x, t);
      EdgeIsReachable(s.g, x, t);
    }
    ReachStep(s.g, s'.g, iset{});
  }

  /** After GC_finalize everything reachable is marked, resurrected objects included, exactly if the newly
      marked objects point to marked ones. */
  lemma FinalizeReach(s: State, s': State, marks: set<Obj>, heap: map<Obj, seq<Word>>, roots: seq<Word>,
                      queued: set<Obj>)
    requires Inv(s) && Finalize(s, s', marks, heap, roots, queued)
    ensures (forall o :: Reachable(s'.g, o) ==> o in marks) <==> NewMarksClosed(s'.g, s.m.marks, marks)
  {
    if NewMarksClosed(s'.g, s.m.marks, marks) {
      var S := iset o | o in marks && Reachable(s'.g, o);
      forall t | Base(s'.g, t)
        ensures t in S
      {
        FinalizeBase(s, s', marks, heap, roots, queued, t);
        BaseIsReachable(s'.g, t);
      }
      forall x, t | x in S && Edge(s'.g, x, t)
        ensures t in S
      {
        EdgeIsReachable(s'.g, x, t);
        if x in s.m.marks {
          FinalizeShrinks(s, s', marks, heap, roots, queued);
          FinalizeEdge(s, s', marks, heap, roots, queued, x, t);
        }
      }
      assert Closed(s'.g, S);
    } else {
      var o, t :| o in marks && o !in s.m.marks && Reachable(s'.g, o) && Edge(s'.g, o, t) && t !in marks;
      EdgeIsReachable(s'.g, o, t);
    }
  }

  /** GC_finalize keeps the invariant exactly if the newly marked objects point to marked ones. */
  lemma FinalizeKeepsIff(s: State, s': State, marks: set<Obj>, heap: map<Obj, seq<Word>>, roots: seq<Word>,
                         queued: set<Obj>)
    requires Inv(s) && Finalize(s, s', marks, heap, roots, queued)
    ensures Inv(s') <==> NewMarksClosed(s'.g, s.m.marks, marks)
  {
    FinalizeReach(s, s', marks, heap, roots, queued);
    if NewMarksClosed(s'.g, s.m.marks, marks) {
      FinalizeShrinks(s, s', marks, heap, roots, queued);
      FinalizeTriColor(s, s', marks, heap, roots, queued);
      SameBlocksDirty(s, s');
    }
  }

  lemma FinalizeIntact(s: State, s': State, marks: set<Obj>, heap: map<Obj, seq<Word>>, roots: seq<Word>,
                       queued: set<Obj>)
    requires Inv(s) && Finalize(s, s', marks, heap, roots, queued) && s'.intact
    ensures Inv(s')
  {
    hide Inv;
    FinalizeKeepsIff(s, s', marks, heap, roots, queued);
  }

  lemma FinalizeTriColor(s: State, s': State, marks: set<Obj>, heap: map<Obj, seq<Word>>, roots: seq<Word>,
                         queued: set<Obj>)
    requires Inv(s) && Finalize(s, s', marks, heap, roots, queued)
    requires forall o :: Reachable(s'.g, o) ==> o in marks
    ensures TriColor(s')
  {
    forall x, j: nat | Obliged(s', x, j)
      ensures Safe(s', x, j)
    {
      assert Edge(s'.g, x, s'.g.heap[x][j].o);
      EdgeIsReachable(s'.g, x, s'.g.heap[x][j].o);
    }
  }

  lemma StartReclaimKeeps(s: State, s': State, reclaim: set<nat>)
    requires Inv(s) && StartReclaim(s, s', reclaim)
    ensures Inv(s')
  {
    var g, h := s.g, s'.g;
    forall t | Base(h, t)
      ensures Reachable(g, t)
    {
      assert Base(g, t);
      BaseIsReachable(g, t);
    }
    forall x, t | Reachable(g, x) && Edge(h, x, t)
      ensures Reachable(g, t)
    {
      assert Edge(g, x, t);
      EdgeIsReachable(g, x, t);
    }
    ReachStep(g, h, iset{});
    StartReclaimRest(s, s', reclaim);
  }

  /** The blocks GC_start_reclaim frees hold no reachable object. */
  lemma FreedBlocksAreGarbage(s: State, s': State, reclaim: set<nat>)
    requires Inv(s) && StartReclaim(s, s', reclaim)
    ensures forall o :: Reachable(s.g, o) ==>
              o in s'.g.heap && s'.g.heap[o] == s.g.heap[o] && o in s'.g.live && o in s'.m.marks
  {
    forall o | Reachable(s.g, o)
      ensures o in s'.g.heap && o in s'.m.marks
    {
      assert o in s.m.marks - s.free;
    }
  }

  /** Some object of block b is marked and not on a free list. */
  ghost predicate HoldsMark(s: State, b: nat) {
    exists o :: o in s.m.marks && o !in s.free && o.block == b
  }

  /** GC_start_reclaim frees exactly the blocks without such an object, long ones included, with everything in them, and
      changes no other object; only blocks of one heap block are queued for sweeping. */
  lemma StartReclaimFrees(s: State, s': State, reclaim: set<nat>)
    requires StartReclaim(s, s', reclaim)
    ensures forall b :: b in s'.g.blocks <==> b in s.g.blocks && HoldsMark(s, b)
    ensures forall b :: b in s'.g.blocks ==> s'.g.blocks[b] == s.g.blocks[b]
    ensures forall o :: o in s'.g.heap <==> o in s.g.heap && o.block in s.g.blocks && HoldsMark(s, o.block)
    ensures forall o :: o in s'.g.heap ==> s'.g.heap[o] == s.g.heap[o]
    ensures forall o :: o in s'.g.live <==> o in s.g.live && o in s'.g.heap
    ensures forall o :: o in s'.m.marks <==> o in s.m.marks && o !in s.free
    ensures forall b :: b in s'.reclaim ==> b in s'.g.blocks && s'.g.blocks[b].len == 1
    ensures s'.free == {}
  {
    var marks := s.m.marks - s.free;
    forall b
      ensures HoldsMark(s, b) <==> exists o :: o in marks && o.block == b
    {
      if o :| o in marks && o.block == b {
        assert o in s.m.marks && o !in s.free;
      }
      if HoldsMark(s, b) {
        var o :| o in s.m.marks && o !in s.free && o.block == b;
        assert o in marks;
      }
    }
  }

  lemma StartReclaimTriColor(s: State, s': State, reclaim: set<nat>)
    requires Inv(s) && StartReclaim(s, s', reclaim)
    requires forall o :: Reachable(s'.g, o) ==> Reachable(s.g, o)
    ensures TriColor(s') && DirtyOk(s')
  {
    hide RootsOk, CtrlOk, FreshOk, SweepOk, PermanentOk;
    FreedBlocksAreGarbage(s, s', reclaim);
    forall x, j: nat | Obliged(s', x, j)
      ensures Safe(s', x, j)
    {
      assert Edge(s'.g, x, s'.g.heap[x][j].o);
      EdgeIsReachable(s'.g, x, s'.g.heap[x][j].o);
    }
    assert forall b, p: nat :: HeapPage(s'.g, b, p) ==> HeapPage(s.g, b, p);
  }

  lemma StartReclaimSets(s: State, s': State, reclaim: set<nat>)
    requires Inv(s) && StartReclaim(s, s', reclaim)
    requires forall o :: Reachable(s'.g, o) ==> Reachable(s.g, o)
    ensures LayoutOk(s'.g) && SetsOk(s') && ReachOk(s'.g) && PermanentOk(s')
  {
    hide TriColor, RootsOk, CtrlOk, FreshOk, DirtyOk, SweepOk;
    FreedBlocksAreGarbage(s, s', reclaim);
  }

  lemma StartReclaimPhases(s: State, s': State, reclaim: set<nat>)
    requires Inv(s) && StartReclaim(s, s', reclaim)
    requires forall o :: Reachable(s'.g, o) ==> Reachable(s.g, o)
    ensures RootsOk(s') && CtrlOk(s') && FreshOk(s') && SweepOk(s') && FinishOk(s')
  {
    hide TriColor, DirtyOk, PermanentOk, LayoutOk, ReachOk;
    FreedBlocksAreGarbage(s, s', reclaim);
  }

  lemma StartReclaimRest(s: State, s': State, reclaim: set<nat>)
    requires Inv(s) && StartReclaim(s, s', reclaim)
    requires forall o :: Reachable(s'.g, o) ==> Reachable(s.g, o)
    ensures Inv(s')
  {
    hide StartReclaim, LayoutOk, SetsOk, ReachOk, PermanentOk, DirtyOk, TriColor, RootsOk, CtrlOk, FreshOk, SweepOk,
      FinishOk;
    StartReclaimTriColor(s, s', reclaim);
    StartReclaimSets(s, s', reclaim);
    StartReclaimPhases(s, s', reclaim);
  }

  // ---------------------------------------------------------------- whole runs

  lemma InitHolds(s: State)
    requires Init(s)
    ensures Inv(s)
  {
    assert Closed(s.g, iset{});
    assert Closed(s.g.(fin := {}), iset{});
  }

  /** A parallel mark phase keeps the invariant, whether entries were dropped or not. */
  lemma MarkAllKeeps(s: State, s': State, marks: set<Obj>, dropped: bool)
    requires Inv(s) && MarkAll(s, s', marks, dropped)
    ensures Inv(s')
  {
    hide Reachable, LayoutOk, DirtyOk, PermanentOk, SweepOk, FinishOk;
    forall x, i: nat | Obliged(s', x, i)
      ensures Safe(s', x, i)
    {
      if !dropped {
        MarkAllSafe(s, s', marks, x, i);
      }
    }
    forall i: nat | i in s'.m.covered
      ensures RootSafe(s', i)
    {
      if i < |s.g.roots| && s.g.roots[i].Ptr? {
        RootMarked(s, s', marks, i);
      }
    }
    MarkAllFrame(s, s', marks, dropped);
  }

  lemma MarkAllFrame(s: State, s': State, marks: set<Obj>, dropped: bool)
    requires Inv(s) && MarkAll(s, s', marks, dropped) && TriColor(s') && RootsOk(s')
    ensures Inv(s')
  {
    hide TriColor, RootsOk, AllMarked, LayoutOk, DirtyOk, PermanentOk, SweepOk, SetsOk, FinishOk, ReachOk;
    assert CtrlOk(s') && FreshOk(s');
    FrameKeeps(s, s');
  }

  lemma MarkAllSafe(s: State, s': State, marks: set<Obj>, x: Obj, i: nat)
    requires Inv(s) && MarkAll(s, s', marks, false) && Obliged(s', x, i)
    ensures s'.g.heap[x][i].o in marks
  {
    hide LayoutOk, DirtyOk, PermanentOk, SweepOk, FinishOk, RootsOk, FreshOk;
    var l, t := Field(x, i), s.g.heap[x][i].o;
    assert Edge(s.g, x, t);
    EdgeIsReachable(s.g, x, t);
    assert t in s.g.heap && Denotes(WordAt(s.g, l), t);
    if x in s.m.marks {
      assert Obliged(s, x, i) && Safe(s, x, i);
    }
  }

  lemma RootMarked(s: State, s': State, marks: set<Obj>, i: nat)
    requires Inv(s) && MarkAll(s, s', marks, false) && i in s.m.covered && i < |s.g.roots| && s.g.roots[i].Ptr?
    ensures s.g.roots[i].o in marks
  {
    hide LayoutOk, DirtyOk, PermanentOk, SweepOk, FinishOk, TriColor, FreshOk;
    var t := s.g.roots[i].o;
    BaseIsReachable(s.g, t);
    assert RootSafe(s, i) && Denotes(WordAt(s.g, RootLoc(i)), t);
  }

  /** Only GC_finalize can end the validity of the invariant. */
  lemma IntactBefore(s: State, s': State, a: Step)
    requires Takes(s, s', a)
    ensures s'.intact ==> s.intact
    ensures !a.SFinalize? ==> s'.intact == s.intact
  {
    hide Swept, RemoveProtection, ClearObjects, BlockWork, MarkAndPush, ReadDirty, KeptBlocks, KeptHeap, Reachable;
  }

  lemma StepKeeps(s: State, s': State, a: Step)
    requires Inv(s) && Takes(s, s', a) && s'.intact
    ensures Inv(s')
  {
    hide Inv, Write, ChangeRoots, Register, Unregister, Allocate, NewBlock, Sweep, Pop, ScanWord, PushBlock, ScanEnd,
      PushRootRange, PushRootEagerly, RootsDone, MarkDone, MarkAll, StartUncollectable, StartRescan, GrowStack,
      Initiate, Abandon, Invalidate, Complete, LockForFull, Unlock, DropReclaim, ClearMarks, Finalize, StartReclaim;
    match a {
      case SWrite(o, i, w) => WriteKeeps(s, s', o, i, w);
      case SChangeRoots(roots) => ChangeRootsKeeps(s, s', roots);
      case SRegister(o) => RegisterKeeps(s, s', o);
      case SUnregister(o) => RegisterKeeps(s, s', o);
      case SAllocate(o) => AllocateKeeps(s, s', o);
      case SNewBlock(b, blk, objs) => NewBlockKeeps(s, s', b, blk, objs);
      case SSweep(b) => SweepKeeps(s, s', b);
      case SPop(part, rest) => PopKeeps(s, s', part, rest);
      case SScanWord(l, w) => ScanWordKeeps(s, s', l, w);
      case SPushBlock(b, es, hand) => PushBlockKeeps(s, s', b, es, hand);
      case SScanEnd => ScanEndKeeps(s, s');
      case SPushRootRange(range) => PushRootRangeKeeps(s, s', range);
      case SPushRootEagerly(i, w) => PushRootEagerlyKeeps(s, s', i, w);
      case SRootsDone => StateStepKeeps(s, s', 0);
      case SMarkDone => StateStepKeeps(s, s', 0);
      case SMarkAll(marks, dropped) => MarkAllKeeps(s, s', marks, dropped);
      case SStartUncollectable => StateStepKeeps(s, s', 0);
      case SStartRescan => StateStepKeeps(s, s', 0);
      case SGrowStack(n) => StateStepKeeps(s, s', n);
      case SInitiate => InitiateKeeps(s, s');
      case SAbandon => PhaseStepKeeps(s, s', 0);
      case SInvalidate => PhaseStepKeeps(s, s', 0);
      case SComplete => PhaseStepKeeps(s, s', 0);
      case SLockForFull => PhaseStepKeeps(s, s', 0);
      case SUnlock => PhaseStepKeeps(s, s', 0);
      case SDropReclaim(b) => PhaseStepKeeps(s, s', b);
      case SClearMarks => ClearMarksKeeps(s, s');
      case SFinalize(marks, heap, roots, queued) => FinalizeIntact(s, s', marks, heap, roots, queued);
      case SStartReclaim(reclaim) => StartReclaimKeeps(s, s', reclaim);
    }
  }

  /** In every run, as long as no GC_finalize has left the marks open, the invariant holds. */
  lemma {:induction false} RunKeeps(run: seq<State>, steps: seq<Step>, k: nat)
    requires IsRun(run, steps) && k < |run| && run[k].intact
    ensures Inv(run[k])
  {
    hide Inv, Takes, Init;
    if k == 0 {
      InitHolds(run[0]);
    } else {
      IntactBefore(run[k - 1], run[k], steps[k - 1]);
      RunKeeps(run, steps, k - 1);
      StepKeeps(run[k - 1], run[k], steps[k - 1]);
    }
  }

  /** In every run, at every moment at which no GC_finalize has left the marks open: no reachable object is
      on a free list; a step that sweeps a block leaves every reachable object, its words included, alone;
      and so does the step that frees blocks. */
  lemma NoReachableObjectIsReclaimed(run: seq<State>, steps: seq<Step>, k: nat)
    requires IsRun(run, steps) && k < |steps| && run[k].intact
    ensures forall o :: Reachable(run[k].g, o) ==> o in run[k].g.live && o !in run[k].free
    ensures steps[k].SSweep? || steps[k].SStartReclaim? ==>
              forall o :: Reachable(run[k].g, o) ==>
                o in run[k + 1].g.heap && run[k + 1].g.heap[o] == run[k].g.heap[o] && o in run[k + 1].g.live
    ensures steps[k].SSweep? ==> forall o :: o in Swept(run[k], steps[k].b) ==>
              !Reachable(run[k].g, o) && o !in run[k].free
  {
    var s, s' := run[k], run[k + 1];
    RunKeeps(run, steps, k);
    assert Takes(s, s', steps[k]);
    if steps[k].SSweep? {
      SweepFreesGarbage(s, s', steps[k].b);
    } else if steps[k].SStartReclaim? {
      FreedBlocksAreGarbage(s, s', steps[k].reclaim);
    }
  }

  /** In every such run, whenever GC_stopped_mark returns TRUE every object the client can reach is marked,
      whatever the client stored between the increments and however often the mark stack overflowed. */
  lemma StoppedMarkMarksReachable(run: seq<State>, steps: seq<Step>, k: nat)
    requires IsRun(run, steps) && k < |steps| && steps[k] == SComplete && run[k].intact
    ensures forall o :: ClientReachable(run[k].g, o) ==> o in run[k].m.marks
  {
    RunKeeps(run, steps, k);
    assert Takes(run[k], run[k + 1], steps[k]);
    CompleteMarksAll(run[k]);
  }

  /** Marks are never cleared under a block that is swept later: at every sweep, each reachable object of
      the block has its mark. */
  lemma SweptBlocksHaveMarks(run: seq<State>, steps: seq<Step>, k: nat)
    requires IsRun(run, steps) && k < |steps| && steps[k].SSweep? && run[k].intact
    ensures forall o :: Reachable(run[k].g, o) && o.block == steps[k].b ==> o in run[k].m.marks
  {
    RunKeeps(run, steps, k);
    assert Takes(run[k], run[k + 1], steps[k]);
  }

  ghost predicate KindIn(g: Graph, o: Obj, kinds: set<Kind>) {
    o.block in g.blocks && g.blocks[o.block].kind in kinds
  }

  /** A chain of pointers: it starts at an object that a root or the finalizer table holds, or that is in use and
      uncollectable, and goes on through words of objects that may hold pointers. */
  ghost predicate Chain(g: Graph, p: seq<Obj>) {
    && |p| > 0
    && (|| Ptr(p[0]) in g.roots || p[0] in g.fin
        || (p[0] in g.live && KindIn(g, p[0], {Uncollectable, AtomicUncollectable})))
    && forall k :: 0 < k < |p| ==> PointsTo(g, p[k - 1], p[k])
  }

  ghost predicate PointsTo(g: Graph, o: Obj, t: Obj) {
    o in g.heap && KindIn(g, o, {Normal, Uncollectable}) && Ptr(t) in g.heap[o]
  }

  /** The same in terms of chains of pointers: in every such run the object at the end of one is in use and on no free
      list, and sweeping and freeing leave its words alone. */
  lemma ChainsStayLive(run: seq<State>, steps: seq<Step>, k: nat, p: seq<Obj>)
    requires IsRun(run, steps) && k < |steps| && run[k].intact && Chain(run[k].g, p)
    ensures var o := p[|p| - 1]; o in run[k].g.live && o !in run[k].free
    ensures var o := p[|p| - 1]; steps[k].SSweep? || steps[k].SStartReclaim? ==>
              o in run[k].g.heap && o in run[k + 1].g.heap && run[k + 1].g.heap[o] == run[k].g.heap[o] &&
              o in run[k + 1].g.live
  {
    var g := run[k].g;
    forall j | 0 < j < |p|
      ensures Edge(g, p[j - 1], p[j])
    {
      assert PointsTo(g, p[j - 1], p[j]);
    }
    PathToReachable(g, p);
    NoReachableObjectIsReclaimed(run, steps, k);
    RunKeeps(run, steps, k);
  }

  /** In every run as long as the marks are closed, an uncollectable object stays in use once it is. */
  lemma {:induction false} UncollectableStays(run: seq<State>, steps: seq<Step>, j: nat, k: nat, o: Obj)
    requires IsRun(run, steps) && j <= k < |run| && run[k].intact && o in run[j].g.live
    requires KindIn(run[j].g, o, {Uncollectable, AtomicUncollectable})
    ensures o in run[k].g.live && KindIn(run[k].g, o, {Uncollectable, AtomicUncollectable})
  {
    hide Takes, Inv, Init, KindIn;
    if j < k {
      IntactBefore(run[k - 1], run[k], steps[k - 1]);
      UncollectableStays(run, steps, j, k - 1, o);
      RunKeeps(run, steps, k - 1);
      UncollectableStep(run[k - 1], run[k], steps[k - 1], o);
    }
  }

  lemma UncollectableStep(s: State, s': State, a: Step, o: Obj)
    requires Inv(s) && Takes(s, s', a) && o in s.g.live && KindIn(s.g, o, {Uncollectable, AtomicUncollectable})
    ensures o in s'.g.live && KindIn(s'.g, o, {Uncollectable, AtomicUncollectable})
  {
    hide Inv;
    if a.SSweep? {
      SweepFrame(s, s', a.b, o);
    } else if a.SStartReclaim? {
      ReclaimFrame(s, s', a.reclaim, o);
    } else if a.SNewBlock? {
      NewBlockIsNew(s, s', a.b, a.blk, a.objs);
    } else {
      LiveFrame(s, s', a);
    }
  }

  /** The other steps free nothing. */
  lemma LiveFrame(s: State, s': State, a: Step)
    requires Takes(s, s', a) && !a.SSweep? && !a.SStartReclaim? && !a.SNewBlock?
    ensures s'.g.blocks == s.g.blocks && s.g.live <= s'.g.live
  {
    if IsMark(a) {
      MarkStepFrame(s, s', a);
    } else if a.SFinalize? {
      FinalizeFrame(s, s', a.marks, a.heap, a.roots, a.queued);
    } else {
      OtherFrame(s, s', a);
    }
  }

  lemma FinalizeFrame(s: State, s': State, marks: set<Obj>, heap: map<Obj, seq<Word>>, roots: seq<Word>,
                      queued: set<Obj>)
    requires Finalize(s, s', marks, heap, roots, queued)
    ensures s'.g.blocks == s.g.blocks && s.g.live <= s'.g.live
  {
  }

  lemma OtherFrame(s: State, s': State, a: Step)
    requires Takes(s, s', a) && !IsMark(a) && !a.SSweep? && !a.SStartReclaim? && !a.SNewBlock? && !a.SFinalize?
    ensures s'.g.blocks == s.g.blocks && s.g.live <= s'.g.live
  {
    hide WriteFault, Reachable, ReadDirty, PageOf, PermanentMarks;
  }

  lemma SweepFrame(s: State, s': State, b: nat, o: Obj)
    requires Inv(s) && Sweep(s, s', b) && o in s.g.live && IsPermanent(s.g, o)
    ensures o in s'.g.live && s'.g.blocks == s.g.blocks
  {
    BaseIsReachable(s.g, o);
    SweepFreesGarbage(s, s', b);
  }

  lemma ReclaimFrame(s: State, s': State, reclaim: set<nat>, o: Obj)
    requires Inv(s) && StartReclaim(s, s', reclaim) && o in s.g.live && IsPermanent(s.g, o)
    ensures o in s'.g.live && o.block in s'.g.blocks && s'.g.blocks[o.block] == s.g.blocks[o.block]
  {
    BaseIsReachable(s.g, o);
    FreedBlocksAreGarbage(s, s', reclaim);
    assert o in s'.g.heap;
  }

  lemma NewBlockIsNew(s: State, s': State, b: nat, blk: Block, objs: map<Obj, seq<Word>>)
    requires Inv(s) && NewBlock(s, s', b, blk, objs)
    ensures b !in s.g.blocks
  {
  }

  // ---------------------------------------------------------------- sequences of steps

  ghost predicate StepsN(n: nat, s: State, t: State) {
    if n == 0 then s == t else exists u, a :: StepsN(n - 1, s, u) && Takes(u, t, a)
  }

  /** Some sequence of steps leads from s to t. */
  ghost predicate Steps(s: State, t: State) {
    exists n: nat :: StepsN(n, s, t)
  }

  lemma StepsRefl(s: State)
    ensures Steps(s, s)
  {
    assert StepsN(0, s, s);
  }

  lemma StepsAppend(s: State, u: State, t: State, a: Step)
    requires Steps(s, u) && Takes(u, t, a)
    ensures Steps(s, t)
  {
    var n: nat :| StepsN(n, s, u);
    assert StepsN(n + 1, s, t);
  }

  lemma {:induction false} StepsTransN(n: nat, s: State, u: State, t: State)
    requires Steps(s, u) && StepsN(n, u, t)
    ensures Steps(s, t)
  {
    if n > 0 {
      var v, a :| StepsN(n - 1, u, v) && Takes(v, t, a);
      StepsTransN(n - 1, s, u, v);
      StepsAppend(s, v, t, a);
    }
  }

  lemma StepsTrans(s: State, u: State, t: State)
    requires Steps(s, u) && Steps(u, t)
    ensures Steps(s, t)
  {
    var n: nat :| StepsN(n, u, t);
    StepsTransN(n, s, u, t);
  }

  lemma {:induction false} StepsKeepN(n: nat, s: State, t: State)
    requires Inv(s) && StepsN(n, s, t) && t.intact
    ensures Inv(t)
  {
    hide Inv, Takes;
    if n > 0 {
      var u, a :| StepsN(n - 1, s, u) && Takes(u, t, a);
      IntactBefore(u, t, a);
      StepsKeepN(n - 1, s, u);
      StepKeeps(u, t, a);
    }
  }

  /** The invariant survives any sequence of steps that leaves the marks closed. */
  lemma StepsKeep(s: State, t: State)
    requires Inv(s) && Steps(s, t) && t.intact
    ensures Inv(t)
  {
    var n: nat :| StepsN(n, s, t);
    StepsKeepN(n, s, t);
  }

  // ---------------------------------------------------------------- the marker alone

  /** Steps of the marker. */
  predicate IsMark(a: Step) {
    || a.SPop? || a.SScanWord? || a.SPushBlock? || a.SScanEnd? || a.SPushRootRange? || a.SPushRootEagerly? ||
      a.SRootsDone?
    || a.SMarkDone? || a.SMarkAll? || a.SStartUncollectable? || a.SStartRescan? || a.SGrowStack?
  }

  ghost predicate MarkStepsN(n: nat, s: State, t: State) {
    if n == 0 then s == t else exists u, a :: MarkStepsN(n - 1, s, u) && IsMark(a) && Takes(u, t, a)
  }

  /** Some sequence of steps of the marker leads from s to t. */
  ghost predicate MarkSteps(s: State, t: State) {
    exists n: nat :: MarkStepsN(n, s, t)
  }

  lemma MarkRefl(s: State)
    ensures MarkSteps(s, s)
  {
    assert MarkStepsN(0, s, s);
  }

  lemma MarkAppend(s: State, u: State, t: State, a: Step)
    requires MarkSteps(s, u) && IsMark(a) && Takes(u, t, a)
    ensures MarkSteps(s, t)
  {
    var n: nat :| MarkStepsN(n, s, u);
    assert MarkStepsN(n + 1, s, t);
  }

  lemma {:induction false} MarkTransN(n: nat, s: State, u: State, t: State)
    requires MarkSteps(s, u) && MarkStepsN(n, u, t)
    ensures MarkSteps(s, t)
  {
    hide Takes;
    if n > 0 {
      var v, a :| MarkStepsN(n - 1, u, v) && IsMark(a) && Takes(v, t, a);
      MarkTransN(n - 1, s, u, v);
      MarkAppend(s, v, t, a);
    }
  }

  lemma MarkTrans(s: State, u: State, t: State)
    requires MarkSteps(s, u) && MarkSteps(u, t)
    ensures MarkSteps(s, t)
  {
    var n: nat :| MarkStepsN(n, u, t);
    MarkTransN(n, s, u, t);
  }

  lemma {:induction false} MarkIsStepsN(n: nat, s: State, t: State)
    requires MarkStepsN(n, s, t)
    ensures Steps(s, t)
  {
    hide Takes;
    if n == 0 {
      StepsRefl(s);
    } else {
      var u, a :| MarkStepsN(n - 1, s, u) && IsMark(a) && Takes(u, t, a);
      MarkIsStepsN(n - 1, s, u);
      StepsAppend(s, u, t, a);
    }
  }

  lemma MarkIsSteps(s: State, t: State)
    requires MarkSteps(s, t)
    ensures Steps(s, t)
  {
    var n: nat :| MarkStepsN(n, s, t);
    MarkIsStepsN(n, s, t);
  }

  lemma MarkStepFrame(s: State, t: State, a: Step)
    requires IsMark(a) && Takes(s, t, a)
    ensures t == s.(m := t.m) && s.m.marks <= t.m.marks
  {
    hide Wanted, NothingWanted, Splits, BlockWork, AllMarked, ReadOk;
    if a.SScanWord? {
      MarkAndPushEffect(s.g, s.m.(hand := s.m.hand - {a.l}), a.w);
    } else if a.SPushRootEagerly? {
      MarkAndPushEffect(s.g, s.m, a.w);
    }
  }
}
