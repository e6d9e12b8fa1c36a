/** The collector as a transition system: one state, and one predicate per atomic step.

    Steps of the client program (mutator), of the marker and of the control code interleave freely,
    except that nothing but the marker moves while the world is stopped, and that the allocation lock
    keeps allocation and sweeping out of the collector's own critical regions. Marker steps are as
    small as one word read, so a step of the mutator may fall between any two of them. */
module Collector {
  import opened Sizes
  import opened Heap

  const INITIAL_MARK_STACK_SIZE: nat := 4096
  /** GC_MARK_STACK_DISCARDS */
  const DISCARDS: nat := 512

  /** GC_mark_state */
  datatype MarkState = MsNone | PushRescuers | PushUncollectable | RootsPushed | PartiallyInvalid | MsInvalid

  /** Virtual dirty bits. `dirty` and `grungy` are hashed page tables; `prot` holds the write-protected
      pages. `touched` is a history variable: the pages written since the bits were last read. */
  datatype VirtualDirty = VirtualDirty(touched: set<nat>, dirty: set<nat>, grungy: set<nat>, prot: set<nat>)

  /** The marker's globals. A mark stack entry is the set of words its descriptor covers. `hand` holds
      the words the marker has taken off the stack, or out of a block, and still has to examine.
      `scanDone` (the heap scan has reached the end and roots are being pushed) and `covered` (root
      words pushed since the world stopped) are history variables. */
  datatype Marker = Marker(
    ms: MarkState,
    marks: set<Obj>,
    stack: seq<set<Loc>>,
    hand: set<Loc>,
    limit: nat,
    scanPtr: nat,
    scanDone: bool,
    objectsMarked: bool,
    covered: set<nat>
  )

  /** Running: the client runs and the allocation lock is free between steps.
      Locked: the client runs, but the collector holds the lock to prepare a full collection.
      Stopped: inside GC_stopped_mark with the world stopped.
      Finishing, Finalized: marking is complete and, in the second, GC_finalize is done as well;
      the client runs, the lock is still held. */
  datatype Phase = Running | Locked | Stopped | Finishing | Finalized

  datatype State = State(
    g: Graph,
    d: VirtualDirty,
    m: Marker,
    free: set<Obj>,       // objects on the free lists
    reclaim: set<nat>,    // blocks waiting to be swept
    incremental: bool,    // GC_incremental, GC_dirty_maintained
    phase: Phase,
    mustFinish: bool,     // the current collection may not be abandoned
    intact: bool          // history: every GC_finalize so far has left the marks closed
  )

  // ---------------------------------------------------------------- dirty bits

  /** A store to a page: a protected page faults first, and the handler unprotects it and sets its bit. */
  function WriteFault(d: VirtualDirty, page: nat): VirtualDirty {
    var d1 := d.(touched := d.touched + {page});
    if page in d.prot then d1.(dirty := d1.dirty + {PageHash(page)}, prot := d1.prot - {page}) else d1
  }

  predicate InRange(p: nat, b: nat, len: nat) {
    b <= p < b + len
  }

  /** GC_remove_protection */
  function RemoveProtection(d: VirtualDirty, b: nat, len: nat, isPtrFree: bool): VirtualDirty {
    var pages := set p: nat | p < b + len && InRange(p, b, len);
    var bits := set p: nat | b <= p < b + len :: PageHash(p);
    d.(prot := d.prot - pages, dirty := if isPtrFree then d.dirty else d.dirty + bits)
  }

  /** The pages GC_protect_heap protects: those of used blocks that may hold pointers. */
  function HeapPages(g: Graph): set<nat> {
    set b, p: nat | b in g.blocks && g.blocks[b].kind.Scanned() && p < b + g.blocks[b].len &&
      InRange(p, b, g.blocks[b].len) :: p
  }

  /** GC_read_dirty, with GC_protect_heap. */
  function ReadDirty(d: VirtualDirty, g: Graph): VirtualDirty {
    VirtualDirty({}, {}, d.dirty, HeapPages(g))
  }

  /** GC_block_was_dirty */
  predicate BlockWasDirty(g: Graph, d: VirtualDirty, b: nat)
    requires b in g.blocks
  {
    exists p: nat :: b <= p < b + g.blocks[b].len && PageHash(p) in d.grungy
  }

  // ---------------------------------------------------------------- the mark stack

  predicate MarkerOk(m: Marker) {
    DISCARDS <= m.limit && |m.stack| <= m.limit
  }

  /** PUSH_OBJ: on overflow the top DISCARDS entries are dropped and the mark state becomes invalid. */
  function PushEntry(m: Marker, e: set<Loc>): (r: Marker)
    requires MarkerOk(m)
    ensures MarkerOk(r)
  {
    if |m.stack| < m.limit then
      m.(stack := m.stack + [e])
    else
      m.(ms := MsInvalid, stack := m.stack[..|m.stack| - DISCARDS] + [e], covered := {})
  }

  /** PUSH_CONTENTS: if w looks like a pointer to an unmarked object, mark it and push its words. */
  function MarkAndPush(g: Graph, m: Marker, w: Word): (r: Marker)
    requires MarkerOk(m)
    ensures MarkerOk(r)
  {
    if w.NonPtr? || w.o !in g.heap || w.o in m.marks then m
    else
      var m1 := m.(marks := m.marks + {w.o});
      if Scannable(g, w.o) then PushEntry(m1, Fields(g, w.o)) else m1
  }

  function WordAt(g: Graph, l: Loc): Word {
    match l
    case RootLoc(i) => if i < |g.roots| then g.roots[i] else NonPtr
    case Field(o, i) => if HasWord(g, o, i) then g.heap[o][i] else NonPtr
  }

  ghost predicate Pending(m: Marker, l: Loc) {
    l in m.hand || exists k :: 0 <= k < |m.stack| && l in m.stack[k]
  }

  /** The words of the marked objects in block b. */
  function BlockWork(g: Graph, marks: set<Obj>, b: nat): (ls: set<Loc>)
    ensures forall l :: l in ls <==> l.Field? && l.o in marks && l.o.block == b && HasWord(g, l.o, l.i)
  {
    assert forall l: Loc :: l.Field? && HasWord(g, l.o, l.i) ==> l in Fields(g, l.o);
    set o, l | o in marks && o.block == b && l in Fields(g, o) :: l
  }

  /** Does the heap scan of the current mark state push from block b? */
  predicate Wanted(s: State, b: nat)
    requires b in s.g.blocks
  {
    match s.m.ms
    case PushRescuers => BlockWasDirty(s.g, s.d, b)
    case PushUncollectable => s.g.blocks[b].kind == Uncollectable
    case _ => true
  }

  ghost predicate NothingWanted(s: State, lo: nat, hi: nat) {
    forall c :: c in s.g.blocks && lo <= c < hi ==> !Wanted(s, c)
  }

  // ---------------------------------------------------------------- steps of the client

  ghost predicate Write(s: State, s': State, o: Obj, i: nat, w: Word) {
    && s.phase != Stopped
    && ClientReachable(s.g, o) && o in s.g.heap && i < |s.g.heap[o]|
    && (w.Ptr? ==> ClientReachable(s.g, w.o))
    && s' == s.(g := s.g.(heap := s.g.heap[o := s.g.heap[o][i := w]]), d := WriteFault(s.d, PageOf(o, i)))
  }

  ghost predicate ChangeRoots(s: State, s': State, roots: seq<Word>) {
    && s.phase != Stopped
    && (forall t :: Ptr(t) in roots ==> ClientReachable(s.g, t))
    && s' == s.(g := s.g.(roots := roots))
  }

  ghost predicate Register(s: State, s': State, o: Obj) {
    s.phase == Running && ClientReachable(s.g, o) && s' == s.(g := s.g.(fin := s.g.fin + {o}))
  }

  ghost predicate Unregister(s: State, s': State, o: Obj) {
    s.phase == Running && s' == s.(g := s.g.(fin := s.g.fin - {o}))
  }

  /** The client takes an object off a free list; it holds a pointer to it in a root from then on. */
  ghost predicate Allocate(s: State, s': State, o: Obj) {
    && s.phase == Running && o in s.free
    && s' == s.(g := s.g.(roots := s.g.roots + [Ptr(o)], live := s.g.live + {o}), free := s.free - {o})
  }

  /** The objects of a block: they are not empty, lie inside the block and do not overlap, and a block longer than one
      heap block holds a single object. Free objects hold no pointers but links. */
  predicate LaidOut(b: nat, blk: Block, objs: map<Obj, seq<Word>>) {
    && (forall o :: o in objs ==> o.block == b && 0 < |objs[o]| && o.off + |objs[o]| <= blk.len * HBLK_WORDS)
    && (forall o, p :: o in objs && p in objs && o.off < p.off ==> o.off + |objs[o]| <= p.off)
    && (blk.len > 1 ==> objs.Keys == {Obj(b, 0)})
    && (forall o :: o in objs ==> forall i :: 0 <= i < |objs[o]| ==> !objs[o][i].Ptr?)
  }

  /** GC_allochblk and GC_new_hblk: a new block, disjoint from all others, whose objects are free. */
  ghost predicate NewBlock(s: State, s': State, b: nat, blk: Block, objs: map<Obj, seq<Word>>) {
    && s.phase == Running
    && 1 <= b && 1 <= blk.len
    && (forall c :: c in s.g.blocks ==> b + blk.len <= c || c + s.g.blocks[c].len <= b)
    && LaidOut(b, blk, objs)
    && s' == s.(g := s.g.(heap := s.g.heap + objs, blocks := s.g.blocks[b := blk]),
                d := RemoveProtection(s.d, b, blk.len, !blk.kind.Scanned()),
                m := if blk.kind.Permanent() then s.m.(marks := s.m.marks + objs.Keys) else s.m,
                free := s.free + objs.Keys)
  }

  /** The objects sweeping block b puts on a free list. */
  function Swept(s: State, b: nat): set<Obj> {
    set o | o in s.g.heap && o.block == b && o !in s.m.marks
  }

  function Cleared(ws: seq<Word>): (r: seq<Word>)
    ensures |r| == |ws| && forall i :: 0 <= i < |r| ==> r[i] == NonPtr
  {
    seq(|ws|, i => NonPtr)
  }

  function ClearObjects(heap: map<Obj, seq<Word>>, kill: set<Obj>): map<Obj, seq<Word>> {
    map o | o in heap :: if o in kill then Cleared(heap[o]) else heap[o]
  }

  /** GC_reclaim_small_nonempty_block on a block of a reclaim list. */
  ghost predicate Sweep(s: State, s': State, b: nat) {
    && s.phase in {Running, Locked} && !s.mustFinish
    && b in s.reclaim && b in s.g.blocks
    && var kill := Swept(s, b);
       var blk := s.g.blocks[b];
       s' == s.(g := s.g.(heap := ClearObjects(s.g.heap, kill), live := s.g.live - kill),
                d := RemoveProtection(s.d, b, 1, !blk.kind.Scanned()),
                m := if blk.kind.Permanent() then s.m.(marks := s.m.marks + kill) else s.m,
                free := s.free + kill,
                reclaim := s.reclaim - {b})
  }

  // ---------------------------------------------------------------- steps of the marker

  /** Marking happens with the world stopped or, in incremental mode, in increments. */
  predicate MarkerMayRun(s: State) {
    s.phase == Stopped || (s.phase == Running && s.incremental)
  }

  /** Take the top entry in hand; a long range may be split and its rest left on the stack. */
  ghost predicate Pop(s: State, s': State, part: set<Loc>, rest: set<Loc>) {
    && MarkerMayRun(s) && s.m.ms != MsNone && s.m.hand == {} && !s.m.scanDone && |s.m.stack| > 0
    && part + rest == s.m.stack[|s.m.stack| - 1]
    && var below := s.m.stack[..|s.m.stack| - 1];
       s' == s.(m := s.m.(hand := part, stack := if rest == {} then below else below + [rest], objectsMarked := true))
  }

  /** The value the marker has for a word: the current one, unless the client may have stored to it since. */
  predicate ReadOk(s: State, l: Loc, w: Word) {
    w == WordAt(s.g, l) || (s.phase != Stopped && (l.RootLoc? || PageOf(l.o, l.i) in s.d.touched))
  }

  ghost predicate ScanWord(s: State, s': State, l: Loc, w: Word) {
    && MarkerMayRun(s) && s.m.ms != MsNone && MarkerOk(s.m) && l in s.m.hand && ReadOk(s, l, w)
    && s' == s.(m := MarkAndPush(s.g, s.m.(hand := s.m.hand - {l}), w))
  }

  /** The words of `es` and `hand` together are those of `work`. */
  ghost predicate Splits(es: seq<set<Loc>>, hand: set<Loc>, work: set<Loc>) {
    forall l :: l in work <==> l in hand || exists k :: 0 <= k < |es| && l in es[k]
  }

  predicate Scanning(s: State) {
    match s.m.ms
    case PushRescuers => s.incremental
    case PushUncollectable => true
    case PartiallyInvalid => s.m.stack == []
    case MsInvalid => s.m.stack == [] && s.m.objectsMarked && s.m.scanPtr != 0
    case _ => false
  }

  /** GC_push_next_marked, GC_push_next_marked_dirty and GC_push_next_marked_uncollectable when they
      find a block: push, or take in hand, the words of its marked objects and move on. */
  ghost predicate PushBlock(s: State, s': State, b: nat, es: seq<set<Loc>>, hand: set<Loc>) {
    && MarkerMayRun(s) && Scanning(s) && s.m.hand == {} && !s.m.scanDone
    && b in s.g.blocks && s.m.scanPtr <= b && NothingWanted(s, s.m.scanPtr, b) && Wanted(s, b)
    && |s.m.stack| + |es| <= s.m.limit
    && Splits(es, hand, BlockWork(s.g, s.m.marks, b))
    && s' == s.(m := s.m.(stack := s.m.stack + es, hand := hand, scanPtr := b + s.g.blocks[b].len,
                          objectsMarked := s.m.objectsMarked || es != [] || hand != {}))
  }

  /** ... and when there is no further block. */
  ghost predicate ScanEnd(s: State, s': State) {
    && MarkerMayRun(s) && Scanning(s) && s.m.hand == {} && !s.m.scanDone
    && (forall c :: c in s.g.blocks && s.m.scanPtr <= c ==> !Wanted(s, c))
    && s' == s.(m := s.m.(scanPtr := 0, scanDone := s.m.ms != MsInvalid))
  }

  /** GC_push_all on a range of root words. */
  ghost predicate PushRootRange(s: State, s': State, range: set<nat>) {
    && MarkerMayRun(s) && s.m.scanDone && |s.m.stack| < s.m.limit
    && var e := set i | i in range :: RootLoc(i);
       s' == s.(m := s.m.(stack := s.m.stack + [e],
                          covered := if s.phase == Stopped then s.m.covered + range else {}))
  }

  /** GC_push_all_eager on one root word. */
  ghost predicate PushRootEagerly(s: State, s': State, i: nat, w: Word) {
    && MarkerMayRun(s) && s.m.scanDone && MarkerOk(s.m) && ReadOk(s, RootLoc(i), w)
    && var m1 := MarkAndPush(s.g, s.m, w);
       s' == s.(m := m1.(covered := if s.phase == Stopped then m1.covered + {i} else {}))
  }

  ghost predicate AllRootsCovered(s: State) {
    forall i: nat :: i < |s.g.roots| ==> i in s.m.covered
  }

  ghost predicate RootsDone(s: State, s': State) {
    && MarkerMayRun(s) && s.m.scanDone && s.m.hand == {}
    && (s.phase == Stopped && s.m.ms != MsInvalid ==> AllRootsCovered(s))
    && s' == s.(m := s.m.(scanDone := false, objectsMarked := true,
                          ms := if s.m.ms == MsInvalid then MsInvalid else RootsPushed))
  }

  /** Everything the pending words denote is marked, and everything the words of newly marked objects denote. */
  ghost predicate AllMarked(s: State, marks: set<Obj>) {
    && s.m.marks <= marks <= s.g.heap.Keys
    && (forall l, o :: Pending(s.m, l) && Denotes(WordAt(s.g, l), o) && o in s.g.heap ==> o in marks)
    && (forall l: Loc, o :: l.Field? && l.o in marks && l.o !in s.m.marks && Denotes(WordAt(s.g, l), o) ==>
          o in s.g.heap ==> o in marks)
  }

  /** GC_do_parallel_mark with the world stopped, as a whole: it marks from everything on the mark stack, unless
      entries were dropped, and from nothing else. ParallelSteps shows that the work-stealing threads do just this. */
  ghost predicate MarkAll(s: State, s': State, marks: set<Obj>, dropped: bool) {
    && s.phase == Stopped && s.m.ms == RootsPushed && s.m.hand == {} && s.m.marks <= marks <= s.g.heap.Keys
    && (!dropped ==> AllMarked(s, marks))
    && (forall S :: AllMarked(s, S) ==> marks <= S)
    && s' == s.(m := s.m.(marks := marks, stack := [], objectsMarked := true,
                          ms := if dropped then MsInvalid else RootsPushed,
                          covered := if dropped then {} else s.m.covered))
  }

  ghost predicate MarkDone(s: State, s': State) {
    && MarkerMayRun(s) && s.m.ms == RootsPushed && s.m.stack == [] && s.m.hand == {}
    && s' == s.(m := s.m.(ms := MsNone))
  }

  ghost predicate StartUncollectable(s: State, s': State) {
    && MarkerMayRun(s) && s.m.ms == MsInvalid && !s.m.objectsMarked && !s.m.scanDone
    && s' == s.(m := s.m.(ms := PushUncollectable))
  }

  ghost predicate StartRescan(s: State, s': State) {
    && MarkerMayRun(s) && s.m.ms == MsInvalid && s.m.objectsMarked && !s.m.scanDone
    && s.m.stack == [] && s.m.hand == {} && s.m.scanPtr == 0
    && s' == s.(m := s.m.(ms := PartiallyInvalid))
  }

  /** alloc_mark_stack */
  ghost predicate GrowStack(s: State, s': State, n: nat) {
    && MarkerMayRun(s) && s.m.stack == [] && s.m.hand == {} && s.m.limit <= n
    && s' == s.(m := s.m.(limit := n))
  }

  // ---------------------------------------------------------------- control

  /** STOP_WORLD and GC_initiate_gc */
  ghost predicate Initiate(s: State, s': State) {
    && s.phase in {Running, Locked} && s.m.hand == {} && !s.m.scanDone
    && (s.m.ms == MsInvalid || (s.m.ms == MsNone && s.incremental))
    && s' == s.(d := if s.incremental then ReadDirty(s.d, s.g) else s.d.(touched := {}),
                m := s.m.(ms := if s.m.ms == MsNone then PushRescuers else MsInvalid, scanPtr := 0, covered := {}),
                phase := Stopped)
  }

  /** GC_stopped_mark returns FALSE. */
  ghost predicate Abandon(s: State, s': State) {
    && s.phase == Stopped && !s.mustFinish && s.m.hand == {} && !s.m.scanDone
    && s' == s.(phase := Running, m := s.m.(covered := {}))
  }

  /** GC_invalidate_mark_state after an abandoned collection, outside incremental mode. */
  ghost predicate Invalidate(s: State, s': State) {
    && s.phase == Running && !s.incremental && s.m.hand == {} && !s.m.scanDone && s.m.ms != MsNone
    && s' == s.(m := s.m.(ms := MsInvalid, stack := []))
  }

  /** GC_stopped_mark returns TRUE. */
  ghost predicate Complete(s: State, s': State) {
    && s.phase == Stopped && s.m.ms == MsNone
    && s' == s.(phase := Finishing, m := s.m.(covered := {}))
  }

  ghost predicate LockForFull(s: State, s': State) {
    s.phase == Running && s.m.hand == {} && !s.m.scanDone && s' == s.(phase := Locked)
  }

  ghost predicate Unlock(s: State, s': State) {
    s.phase == Locked && !s.mustFinish && s' == s.(phase := Running)
  }

  /** GC_reclaim_all with ignore_old: a block is taken off its reclaim list without being swept. */
  ghost predicate DropReclaim(s: State, s': State, b: nat) {
    s.phase == Locked && s' == s.(reclaim := s.reclaim - {b})
  }

  /** The marks GC_clear_marks leaves. */
  function PermanentMarks(g: Graph, marks: set<Obj>): set<Obj> {
    set o | o in marks && IsPermanent(g, o)
  }

  /** GC_invalidate_mark_state and GC_clear_marks. If blocks still wait to be swept, the collection
      must not be abandoned. */
  ghost predicate ClearMarks(s: State, s': State) {
    && s.phase == Locked
    && s' == s.(m := s.m.(ms := MsInvalid, marks := PermanentMarks(s.g, s.m.marks),
                          stack := [], scanPtr := 0, objectsMarked := false),
                mustFinish := s.mustFinish || s.reclaim != {})
  }

  /** What GC_finalize does to the mark bits, the finalizer table and the words it clears or queues.
      FinalizationStep in the module CollectorControl shows that GC_finalize does just this. */
  ghost predicate Finalize(s: State, s': State, marks: set<Obj>, heap: map<Obj, seq<Word>>, roots: seq<Word>,
                           queued: set<Obj>) {
    && s.phase == Finishing
    && s.m.marks <= marks <= s.g.heap.Keys
    // disappearing links are cleared
    && heap.Keys == s.g.heap.Keys
    && (forall o :: o in heap ==> |heap[o]| == |s.g.heap[o]|)
    && (forall o, i :: o in heap && 0 <= i < |heap[o]| ==> heap[o][i] == s.g.heap[o][i] || heap[o][i] == NonPtr)
    // every registered object ends up marked
    && s.g.fin <= marks
    // queued objects leave the table and are held by the finalization queue
    && queued <= s.g.fin
    && (forall t :: Ptr(t) in roots ==> Ptr(t) in s.g.roots || t in queued)
    && var g := s.g.(heap := heap, roots := roots, fin := s.g.fin - queued);
       s' == s.(g := g, m := s.m.(marks := marks), phase := Finalized,
                intact := s.intact && NewMarksClosed(g, s.m.marks, marks))
  }

  /** The reachable objects among the newly marked ones point to marked objects. */
  ghost predicate NewMarksClosed(g: Graph, before: set<Obj>, marks: set<Obj>) {
    forall o, t :: o in marks && o !in before && Reachable(g, o) && Edge(g, o, t) ==> t in marks
  }

  /** The blocks that hold a marked object. */
  function KeptBlocks(g: Graph, marks: set<Obj>): map<nat, Block> {
    map b | b in g.blocks && (exists o :: o in marks && o.block == b) :: g.blocks[b]
  }

  function KeptHeap(g: Graph, kept: map<nat, Block>): map<Obj, seq<Word>> {
    map o | o in g.heap && o.block in kept :: g.heap[o]
  }

  /** The rest of GC_finish_collection: clear the marks and the links of free lists, free every block
      without a marked object and queue some of the others for sweeping. */
  ghost predicate StartReclaim(s: State, s': State, reclaim: set<nat>) {
    && s.phase == Finalized
    && var marks := s.m.marks - s.free;
       var kept := KeptBlocks(s.g, marks);
       var heap := KeptHeap(s.g, kept);
       && reclaim <= kept.Keys && (forall b :: b in reclaim ==> kept[b].len == 1)
       && s' == s.(g := s.g.(heap := heap, blocks := kept, live := s.g.live * heap.Keys),
                   m := s.m.(marks := marks), free := {}, reclaim := reclaim, phase := Running, mustFinish := false)
  }

  // ---------------------------------------------------------------- all steps

  datatype Step =
    | SWrite(o: Obj, i: nat, w: Word) | SChangeRoots(roots: seq<Word>) | SRegister(o: Obj) | SUnregister(o: Obj)
    | SAllocate(o: Obj) | SNewBlock(b: nat, blk: Block, objs: map<Obj, seq<Word>>) | SSweep(b: nat)
    | SPop(part: set<Loc>, rest: set<Loc>) | SScanWord(l: Loc, w: Word)
    | SPushBlock(b: nat, es: seq<set<Loc>>, hand: set<Loc>)
    | SScanEnd | SPushRootRange(range: set<nat>) | SPushRootEagerly(i: nat, w: Word) | SRootsDone | SMarkDone
    | SMarkAll(marks: set<Obj>, dropped: bool) | SStartUncollectable | SStartRescan | SGrowStack(n: nat)
    | SInitiate | SAbandon | SInvalidate | SComplete | SLockForFull | SUnlock | SDropReclaim(b: nat) | SClearMarks
    | SFinalize(marks: set<Obj>, heap: map<Obj, seq<Word>>, roots: seq<Word>, queued: set<Obj>)
    | SStartReclaim(reclaim: set<nat>)

  ghost predicate Takes(s: State, s': State, a: Step) {
    match a
    case SWrite(o, i, w) => Write(s, s', o, i, w)
    case SChangeRoots(roots) => ChangeRoots(s, s', roots)
    case SRegister(o) => Register(s, s', o)
    case SUnregister(o) => Unregister(s, s', o)
    case SAllocate(o) => Allocate(s, s', o)
    case SNewBlock(b, blk, objs) => NewBlock(s, s', b, blk, objs)
    case SSweep(b) => Sweep(s, s', b)
    case SPop(part, rest) => Pop(s, s', part, rest)
    case SScanWord(l, w) => ScanWord(s, s', l, w)
    case SPushBlock(b, es, hand) => PushBlock(s, s', b, es, hand)
    case SScanEnd => ScanEnd(s, s')
    case SPushRootRange(range) => PushRootRange(s, s', range)
    case SPushRootEagerly(i, w) => PushRootEagerly(s, s', i, w)
    case SRootsDone => RootsDone(s, s')
    case SMarkDone => MarkDone(s, s')
    case SMarkAll(marks, dropped) => MarkAll(s, s', marks, dropped)
    case SStartUncollectable => StartUncollectable(s, s')
    case SStartRescan => StartRescan(s, s')
    case SGrowStack(n) => GrowStack(s, s', n)
    case SInitiate => Initiate(s, s')
    case SAbandon => Abandon(s, s')
    case SInvalidate => Invalidate(s, s')
    case SComplete => Complete(s, s')
    case SLockForFull => LockForFull(s, s')
    case SUnlock => Unlock(s, s')
    case SDropReclaim(b) => DropReclaim(s, s', b)
    case SClearMarks => ClearMarks(s, s')
    case SFinalize(marks, heap, roots, queued) => Finalize(s, s', marks, heap, roots, queued)
    case SStartReclaim(reclaim) => StartReclaim(s, s', reclaim)
  }

  ghost predicate Init(s: State) {
    && s.g.heap == map[] && s.g.blocks == map[] && s.g.live == {} && s.g.fin == {}
    && (forall t :: Ptr(t) !in s.g.roots)
    && s.d == VirtualDirty({}, {}, {}, {})
    && s.m == Marker(MsNone, {}, [], {}, s.m.limit, 0, false, false, {})
    && INITIAL_MARK_STACK_SIZE <= s.m.limit
    && s.free == {} && s.reclaim == {} && s.phase == Running && !s.mustFinish && s.intact
  }

  /** A run: states and the steps between them, starting from the empty heap. */
  ghost predicate IsRun(run: seq<State>, steps: seq<Step>) {
    && |run| == |steps| + 1 && Init(run[0])
    && forall k :: 0 <= k < |steps| ==> Takes(run[k], run[k + 1], steps[k])
  }
}
