/** A run in which the collector, outside Java mode, frees an object the client still reaches: f is registered without
    order, nothing but f points to t, and f is queued while t is left unmarked. */
module UnorderedRun {
  import opened Heap
  import opened Collector
  import opened CollectorSafety
  import opened Finalization
  import opened CollectorControl

  const F: Obj := Obj(1, 0)
  const T: Obj := Obj(2, 0)
  const SMALL: Block := Block(Normal, 1)

  function Mark(ms: MarkState, scanDone: bool, objectsMarked: bool, marks: set<Obj>): Marker {
    Marker(ms, marks, [], {}, INITIAL_MARK_STACK_SIZE, 0, scanDone, objectsMarked, {})
  }

  function At(heap: map<Obj, seq<Word>>, blocks: map<nat, Block>, roots: seq<Word>, live: set<Obj>, fin: set<Obj>,
              d: VirtualDirty, m: Marker, free: set<Obj>, phase: Phase): State {
    State(Graph(heap, blocks, roots, live, fin), d, m, free, {}, false, phase, false, true)
  }

  const IDLE: Marker := Mark(MsNone, false, false, {})

  function Clean(): VirtualDirty {
    VirtualDirty({}, {}, {}, {})
  }

  function Empty(): State {
    At(map[], map[], [], {}, {}, Clean(), IDLE, {}, Running)
  }

  function D1(): VirtualDirty {
    RemoveProtection(Clean(), 1, 1, false)
  }

  function D2(): VirtualDirty {
    RemoveProtection(D1(), 2, 1, false)
  }

  function D3(): VirtualDirty {
    WriteFault(D2(), 1)
  }

  function OneBlock(): State {
    At(map[F := [NonPtr]], map[1 := SMALL], [], {}, {}, D1(), IDLE, {F}, Running)
  }

  /** Both objects are free. */
  function TwoBlocks(): State {
    At(map[F := [NonPtr], T := [NonPtr]], map[1 := SMALL, 2 := SMALL], [], {}, {}, D2(), IDLE, {F, T}, Running)
  }

  lemma Blocks()
    ensures Init(Empty()) && Steps(Empty(), TwoBlocks())
  {
    hide Steps, RemoveProtection;
    var b, c := Empty(), OneBlock();
    var objs, objs2 := map[F := [NonPtr]], map[T := [NonPtr]];
    assert map[] + objs == objs && c.g.heap + objs2 == TwoBlocks().g.heap;
    assert {} + objs.Keys == {F} && {F} + objs2.Keys == {F, T};
    assert NewBlock(b, c, 1, SMALL, objs);
    assert NewBlock(c, TwoBlocks(), 2, SMALL, objs2);
    StepsRefl(b);
    StepsAppend(b, b, c, SNewBlock(1, SMALL, objs));
    StepsAppend(b, c, TwoBlocks(), SNewBlock(2, SMALL, objs2));
  }

  /** Both objects belong to the client, which holds both; f has the words `ws`. */
  function Held(ws: seq<Word>, roots: seq<Word>, fin: set<Obj>, d: VirtualDirty, m: Marker, phase: Phase): State {
    At(map[F := ws, T := [NonPtr]], map[1 := SMALL, 2 := SMALL], roots, {F, T}, fin, d, m, {}, phase)
  }

  const BOTH: seq<Word> := [Ptr(F), Ptr(T)]
  const LINK: seq<Word> := [Ptr(T)]

  lemma Objects()
    ensures Steps(Empty(), Held([NonPtr], BOTH, {}, D2(), IDLE, Running))
  {
    Blocks();
    var s := TwoBlocks();
    var t := At(map[F := [NonPtr], T := [NonPtr]], map[1 := SMALL, 2 := SMALL], [Ptr(F)], {F}, {}, D2(), IDLE, {T},
      Running);
    var u := Held([NonPtr], BOTH, {}, D2(), IDLE, Running);
    assert {F, T} - {F} == {T} && {T} - {T} == {} && {F} + {T} == {F, T};
    assert [] + [Ptr(F)] == [Ptr(F)] && [Ptr(F)] + [Ptr(T)] == BOTH;
    assert Allocate(s, t, F) && Allocate(t, u, T);
    StepsAppend(Empty(), s, t, SAllocate(F));
    StepsAppend(Empty(), t, u, SAllocate(T));
  }

  /** The client links f to t ... */
  lemma Linked()
    ensures Steps(Empty(), Held(LINK, BOTH, {}, D3(), IDLE, Running))
  {
    hide Steps, Reachable, D2, RemoveProtection;
    Objects();
    var s := Held([NonPtr], BOTH, {}, D2(), IDLE, Running);
    var t := Held(LINK, BOTH, {}, D3(), IDLE, Running);
    RootReachable(s.g, 0, F);
    RootReachable(s.g, 1, T);
    assert s.g.heap[F][0 := Ptr(T)] == LINK;
    assert s.g.heap[F := LINK] == t.g.heap;
    assert Write(s, t, F, 0, Ptr(T));
    StepsAppend(Empty(), s, t, SWrite(F, 0, Ptr(T)));
  }

  /** ... and registers f. */
  lemma Registered()
    ensures Steps(Empty(), Held(LINK, BOTH, {F}, D3(), IDLE, Running))
  {
    hide Steps, Reachable, D3;
    Linked();
    var t := Held(LINK, BOTH, {}, D3(), IDLE, Running);
    var u := Held(LINK, BOTH, {F}, D3(), IDLE, Running);
    RootReachable(t.g, 0, F);
    assert Register(t, u, F);
    StepsAppend(Empty(), t, u, SRegister(F));
  }

  lemma RootReachable(g: Graph, i: nat, o: Obj)
    requires i < |g.roots| && g.roots[i] == Ptr(o)
    ensures ClientReachable(g, o)
  {
    BaseIsReachable(g.(fin := {}), o);
  }

  /** ... lets go of both, and a full collection begins. */
  lemma Collecting()
    ensures Steps(Empty(), Held(LINK, [], {F}, D3().(touched := {}), Mark(MsInvalid, false, false, {}), Stopped))
  {
    hide Steps, D3, Reachable;
    Registered();
    var s := Held(LINK, BOTH, {F}, D3(), IDLE, Running);
    var t := Held(LINK, [], {F}, D3(), IDLE, Running);
    var u := Held(LINK, [], {F}, D3(), IDLE, Locked);
    var v := Held(LINK, [], {F}, D3(), Mark(MsInvalid, false, false, {}), Locked);
    var w := Held(LINK, [], {F}, D3().(touched := {}), Mark(MsInvalid, false, false, {}), Stopped);
    assert ChangeRoots(s, t, []);
    assert LockForFull(t, u) && PermanentMarks(u.g, {}) == {};
    assert ClearMarks(u, v) && Initiate(v, w);
    StepsAppend(Empty(), s, t, SChangeRoots([]));
    StepsAppend(Empty(), t, u, SLockForFull);
    StepsAppend(Empty(), u, v, SClearMarks);
    StepsAppend(Empty(), v, w, SInitiate);
  }

  /** Marking is complete, with nothing marked. */
  function Marked0(): State {
    Held(LINK, [], {F}, D3().(touched := {}), Mark(MsNone, false, true, {}), Finishing)
  }

  lemma Marking()
    ensures Steps(Empty(), Marked0())
  {
    hide Steps, D3, Reachable;
    Collecting();
    var d := D3().(touched := {});
    var s := Held(LINK, [], {F}, d, Mark(MsInvalid, false, false, {}), Stopped);
    var t := Held(LINK, [], {F}, d, Mark(PushUncollectable, false, false, {}), Stopped);
    var u := Held(LINK, [], {F}, d, Mark(PushUncollectable, true, false, {}), Stopped);
    var v := Held(LINK, [], {F}, d, Mark(RootsPushed, false, true, {}), Stopped);
    var w := Held(LINK, [], {F}, d, Mark(MsNone, false, true, {}), Stopped);
    assert StartUncollectable(s, t) && ScanEnd(t, u);
    assert RootsDone(u, v) && MarkDone(v, w) && Complete(w, Marked0());
    StepsAppend(Empty(), s, t, SStartUncollectable);
    StepsAppend(Empty(), t, u, SScanEnd);
    StepsAppend(Empty(), u, v, SRootsDone);
    StepsAppend(Empty(), v, w, SMarkDone);
    StepsAppend(Empty(), w, Marked0(), SComplete);
  }

  const TABLE: seq<Entry> := [Entry(F, NullProc)]

  /** After GC_finalize: f is marked and queued, t is neither. */
  function Finalized0(): State {
    var h := Held(LINK, [Ptr(F)], {}, D3().(touched := {}), Mark(MsNone, false, true, {F}), Finalized);
    h.(intact := false)
  }

  function Reclaimed0(): State {
    At(map[F := LINK], map[1 := SMALL], [Ptr(F)], {F}, {}, D3().(touched := {}), Mark(MsNone, false, true, {F}), {},
      Running)
      .(intact := false)
  }

  lemma PassMarksNothing()
    ensures var g := Marked0().g;
            && Marked(g, {}, TABLE, {}, {}) && Queue(TABLE, {}) == TABLE && Keep(TABLE, {}) == []
            && Objs(TABLE) == {F} && AfterQueue(g, {}, TABLE, TABLE + [], false, false, {F})
  {
    var g := Marked0().g;
    assert TABLE[..0] == [];
    assert GreyOf(g, {}, TABLE[..0]) == {};
    assert Queue(TABLE[..0], {}) == [] && Keep(TABLE[..0], {}) == [];
  }

  lemma Finalizing()
    ensures Finalize(Marked0(), Finalized0(), {F}, Marked0().g.heap, [Ptr(F)], {F})
    ensures ClientReachable(Finalized0().g, T) && ClientReachable(Reclaimed0().g, T)
  {
    hide D3, Reachable;
    var g := Finalized0().g;
    PointsTo(g);
    PointsTo(Reclaimed0().g);
    assert !NewMarksClosed(g, {}, {F}) by {
      ClientReachableIsReachable(g, F);
    }
  }

  lemma Calling()
    requires Inv(Marked0())
    ensures FinalizeCall(Marked0(), TABLE, [], [], false, Marked0().g, {}, {}, false, {F})
  {
    hide D3, Inv, Marked, AfterQueue;
    PassMarksNothing();
    assert TABLE + [] == TABLE;
  }

  /** In this run, after GC_finalize the client reaches t, through the finalization queue and f; the step
      after it frees t. */
  lemma UnorderedLosesObject()
    ensures Init(Empty()) && Steps(Empty(), Marked0())
    ensures FinalizeCall(Marked0(), TABLE, [], [], false, Marked0().g, {}, {}, false, {F})
    ensures Finalize(Marked0(), Finalized0(), {F}, Marked0().g.heap, [Ptr(F)], {F})
    ensures StartReclaim(Finalized0(), Reclaimed0(), {})
    ensures ClientReachable(Finalized0().g, T) && ClientReachable(Reclaimed0().g, T) && T !in Reclaimed0().g.heap
  {
    hide D3, Inv, FinalizeCall, Finalize, StartReclaim, Reachable, Steps, Init, Empty;
    Blocks();
    Marking();
    InitHolds(Empty());
    StepsKeep(Empty(), Marked0());
    Calling();
    Finalizing();
    Freed();
  }

  lemma PointsTo(g: Graph)
    requires g.roots == [Ptr(F)] && Edge(g, F, T)
    ensures ClientReachable(g, F) && ClientReachable(g, T)
  {
    RootReachable(g, 0, F);
    EdgeIsReachable(g.(fin := {}), F, T);
  }

  lemma Freed()
    ensures StartReclaim(Finalized0(), Reclaimed0(), {})
  {
    var s, t := Finalized0(), Reclaimed0();
    var marks := s.m.marks - s.free;
    assert marks == {F};
    assert KeptBlocks(s.g, marks) == t.g.blocks;
    assert KeptHeap(s.g, t.g.blocks) == t.g.heap;
    assert s.g.live * t.g.heap.Keys == {F};
  }
}
