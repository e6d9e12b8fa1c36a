/** The client program as the collection control meets it: what it may do to the heap, to the finalizer table and to
    the finalization queue, between calls into the collector and while the collector holds the allocation lock. */
module ClientProgram {
  import opened Heap
  import opened Collector
  import opened CollectorSafety
  import opened MarkPhase
  import opened Finalization

  const MAX_PRIOR_ATTEMPTS: nat := 1

  // ---------------------------------------------------------------- what holds between calls

  /** The finalizer table holds the registered objects, and the finalization queue is a root. */
  ghost predicate TablesOk(table: seq<Entry>, queue: seq<Entry>, g: Graph) {
    && Distinct(table) && Objs(table) == g.fin && Objs(table) <= g.heap.Keys && Objs(queue) <= g.heap.Keys
    && HoldsQueue(g.roots, queue)
  }

  predicate HoldsQueue(roots: seq<Word>, queue: seq<Entry>) {
    forall e :: e in queue ==> Ptr(e.obj) in roots
  }

  /** What holds whenever the control code is not inside GC_stopped_mark. */
  ghost predicate CoreOk(s: State, table: seq<Entry>, queue: seq<Entry>) {
    && Inv(s) && s.intact && s.m.hand == {} && !s.m.scanDone && INITIAL_MARK_STACK_SIZE <= s.m.limit
    && TablesOk(table, queue, s.g)
  }

  /** ... and between calls into the collector: no collection in progress means no abandoned attempts, and outside
      incremental mode an abandoned mark phase has been invalidated. */
  ghost predicate ControlOk(s: State, table: seq<Entry>, queue: seq<Entry>, attempts: nat, isFull: bool) {
    && CoreOk(s, table, queue) && s.phase == Running && attempts <= MAX_PRIOR_ATTEMPTS
    && (s.m.ms == MsNone ==> attempts == 0 && !isFull)
    && (!s.incremental ==> s.m.ms in {MsNone, MsInvalid})
  }

  lemma TablesGive(table: seq<Entry>, queue: seq<Entry>, g: Graph)
    requires TablesOk(table, queue, g)
    ensures Distinct(table) && Objs(table) == g.fin && Objs(table) <= g.heap.Keys
    ensures forall e :: e in queue ==> Ptr(e.obj) in g.roots
  {
  }

  lemma QueueInHeap(s: State, queue: seq<Entry>)
    requires Inv(s) && HoldsQueue(s.g.roots, queue)
    ensures Objs(queue) <= s.g.heap.Keys
  {
    forall e | e in queue
      ensures e.obj in s.g.heap
    {
      BaseIsReachable(s.g, e.obj);
    }
  }

  lemma FinIsInHeap(s: State)
    requires Inv(s)
    ensures s.g.fin <= s.g.live <= s.g.heap.Keys
  {
    forall o | o in s.g.fin
      ensures o in s.g.live
    {
      BaseIsReachable(s.g, o);
    }
  }

  /** A table that holds the registered objects and a queue that is held by the roots are all it takes. */
  lemma TablesFollow(s: State, table: seq<Entry>, queue: seq<Entry>)
    requires Inv(s) && Distinct(table) && Objs(table) == s.g.fin && HoldsQueue(s.g.roots, queue)
    ensures TablesOk(table, queue, s.g)
  {
    hide Inv;
    QueueInHeap(s, queue);
    FinIsInHeap(s);
  }

  // ---------------------------------------------------------------- the moves of the client

  datatype ClientStep =
    | Store(o: Obj, i: nat, w: Word)
    | SetRoots(roots: seq<Word>)
    | SetFinalizer(e: Entry, newTable: seq<Entry>)
    | DropFinalizer(o: Obj, newTable: seq<Entry>)
    | TakeFree(o: Obj)
    | AddBlock(b: nat, blk: Block, objs: map<Obj, seq<Word>>)
    | SweepLazily(b: nat)
    | Invoke(roots: seq<Word>)

  /** The table after an entry is set: its order may change, because the hash table may grow. */
  predicate Registered(table: seq<Entry>, table': seq<Entry>, e: Entry) {
    && AllDiffer(table') && e in table'
    && (forall f :: f in table' ==> f == e || (f in table && f.obj != e.obj))
    && (forall f :: f in table && f.obj != e.obj ==> f in table')
  }

  predicate Unregistered(table: seq<Entry>, table': seq<Entry>, o: Obj) {
    && AllDiffer(table')
    && (forall f :: f in table' ==> f in table && f.obj != o)
    && (forall f :: f in table && f.obj != o ==> f in table')
  }

  predicate AllDiffer(table: seq<Entry>)
    ensures AllDiffer(table) <==> Distinct(table)
  {
    forall k :: 0 <= k < |table| ==> forall j :: 0 <= j < k ==> table[j].obj != table[k].obj
  }

  /** One move. GC_invoke_finalizers takes the first entry off the queue; the client then holds what it likes of it. */
  ghost predicate Moves(s: State, table: seq<Entry>, queue: seq<Entry>,
                        s': State, table': seq<Entry>, queue': seq<Entry>, a: ClientStep) {
    match a
    case Store(o, i, w) => Write(s, s', o, i, w) && table' == table && queue' == queue
    case SetRoots(roots) => ChangeRoots(s, s', roots) && HoldsQueue(roots, queue) && table' == table && queue' == queue
    case SetFinalizer(e, t) => Register(s, s', e.obj) && Registered(table, t, e) && table' == t && queue' == queue
    case DropFinalizer(o, t) => Unregister(s, s', o) && Unregistered(table, t, o) && table' == t && queue' == queue
    case TakeFree(o) => Allocate(s, s', o) && table' == table && queue' == queue
    case AddBlock(b, blk, objs) => NewBlock(s, s', b, blk, objs) && table' == table && queue' == queue
    case SweepLazily(b) => Sweep(s, s', b) && table' == table && queue' == queue
    case Invoke(roots) =>
      && s.phase == Running && queue != [] && ChangeRoots(s, s', roots) && HoldsQueue(roots, queue[1..])
      && table' == table && queue' == queue[1..]
  }

  /** The step of the collector's machine a move is. */
  function StepOf(a: ClientStep): Step {
    match a
    case Store(o, i, w) => SWrite(o, i, w)
    case SetRoots(roots) => SChangeRoots(roots)
    case SetFinalizer(e, _) => SRegister(e.obj)
    case DropFinalizer(o, _) => SUnregister(o)
    case TakeFree(o) => SAllocate(o)
    case AddBlock(b, blk, objs) => SNewBlock(b, blk, objs)
    case SweepLazily(b) => SSweep(b)
    case Invoke(roots) => SChangeRoots(roots)
  }

  lemma MoveIsStep(s: State, table: seq<Entry>, queue: seq<Entry>,
                   s': State, table': seq<Entry>, queue': seq<Entry>, a: ClientStep)
    requires Moves(s, table, queue, s', table', queue', a)
    ensures Takes(s, s', StepOf(a)) && !StepOf(a).SFinalize?
  {
    hide Write, ChangeRoots, Register, Unregister, Allocate, NewBlock, Sweep, Registered, Unregistered, HoldsQueue;
  }

  /** A move leaves the marker, but for its marks, and the control state alone. */
  lemma MoveFrame(s: State, table: seq<Entry>, queue: seq<Entry>,
                  s': State, table': seq<Entry>, queue': seq<Entry>, a: ClientStep)
    requires Moves(s, table, queue, s', table', queue', a)
    ensures s'.m == s.m.(marks := s'.m.marks)
    ensures s'.phase == s.phase && s'.incremental == s.incremental && s'.intact == s.intact
  {
    hide ClientReachable, RemoveProtection, ClearObjects, Swept, LaidOut, Registered, Unregistered, HoldsQueue;
  }

  /** A move keeps the table in step with the registered objects, and the queue among the roots. */
  lemma MoveTables(s: State, table: seq<Entry>, queue: seq<Entry>,
                   s': State, table': seq<Entry>, queue': seq<Entry>, a: ClientStep)
    requires TablesOk(table, queue, s.g) && Moves(s, table, queue, s', table', queue', a)
    ensures Distinct(table') && Objs(table') == s'.g.fin && HoldsQueue(s'.g.roots, queue')
  {
    hide ClientReachable, RemoveProtection, ClearObjects, Swept, LaidOut;
    match a {
      case SetFinalizer(e, t) => SetKeys(table, t, e);
      case DropFinalizer(o, t) => DropKeys(table, t, o);
      case _ =>
    }
  }

  lemma SetKeys(table: seq<Entry>, table': seq<Entry>, e: Entry)
    requires Registered(table, table', e)
    ensures Objs(table') == Objs(table) + {e.obj}
  {
    forall f | f in table
      ensures f.obj in Objs(table')
    {
      if f.obj == e.obj {
        assert e in table';
      }
    }
  }

  lemma DropKeys(table: seq<Entry>, table': seq<Entry>, o: Obj)
    requires Unregistered(table, table', o)
    ensures Objs(table') == Objs(table) - {o}
  {
  }

  /** Whatever the client does between two calls, the control code finds what it left. */
  lemma ClientStepKeeps(s: State, table: seq<Entry>, queue: seq<Entry>, attempts: nat, isFull: bool,
                        s': State, table': seq<Entry>, queue': seq<Entry>, a: ClientStep)
    requires ControlOk(s, table, queue, attempts, isFull) && Moves(s, table, queue, s', table', queue', a)
    ensures ControlOk(s', table', queue', attempts, isFull) && Steps(s, s')
  {
    hide Inv, Moves, Steps, TablesOk, Takes;
    MoveIsStep(s, table, queue, s', table', queue', a);
    MoveFrame(s, table, queue, s', table', queue', a);
    MoveTables(s, table, queue, s', table', queue', a);
    StepKeeps(s, s', StepOf(a));
    TablesFollow(s', table', queue');
    StepsRefl(s);
    StepsAppend(s, s, s', StepOf(a));
  }

  // ---------------------------------------------------------------- the moves carried out

  function Pointees(ws: seq<Word>): (ts: set<Obj>)
    ensures forall t :: t in ts <==> Ptr(t) in ws
  {
    set i: nat | i < |ws| && ws[i].Ptr? :: ws[i].o
  }

  /** The objects the client holds directly. */
  function Held(g: Graph): (ts: set<Obj>)
    ensures forall t :: t in ts <==> Base(g.(fin := {}), t)
  {
    Pointees(g.roots) + set t | t in g.live && IsPermanent(g, t)
  }

  function Targets(g: Graph, o: Obj): (ts: set<Obj>)
    ensures forall t :: t in ts <==> Edge(g, o, t)
  {
    if Scannable(g, o) then Pointees(g.heap[o]) else {}
  }

  /** All objects the client can reach. */
  method ClientReach(g: Graph) returns (R: set<Obj>)
    ensures forall o :: o in R <==> ClientReachable(g, o)
  {
    hide Reachable;
    var h := g.(fin := {});
    ghost var all := Held(g) + set o, t | o in g.heap && t in Pointees(g.heap[o]) :: t;
    R := {};
    var todo := Held(g);
    HeldIsReached(g);
    while todo != {}
      invariant R + todo <= all && R !! todo && Held(g) <= R + todo
      invariant forall o :: o in R ==> Targets(g, o) <= R + todo
      invariant forall o :: o in R + todo ==> ClientReachable(g, o)
      decreases all - R
    {
      var o :| o in todo;
      forall t | t in Targets(g, o)
        ensures t in all && ClientReachable(g, t)
      {
        EdgeIsReachable(h, o, t);
      }
      R := R + {o};
      todo := (todo - {o}) + (Targets(g, o) - R);
    }
    ReachedAll(g, R);
  }

  lemma HeldIsReached(g: Graph)
    ensures forall t :: t in Held(g) ==> ClientReachable(g, t)
  {
    forall t | t in Held(g)
      ensures ClientReachable(g, t)
    {
      BaseIsReachable(g.(fin := {}), t);
    }
  }

  lemma ReachedAll(g: Graph, R: set<Obj>)
    requires Held(g) <= R && forall o :: o in R ==> Targets(g, o) <= R
    ensures forall o :: ClientReachable(g, o) ==> o in R
  {
    var S := iset o | o in R;
    assert forall o, t :: o in S && Edge(g.(fin := {}), o, t) ==> t in Targets(g, o);
    assert Closed(g.(fin := {}), S);
  }

  /** A store, unless the client cannot do it. */
  method DoStore(gc: Globals, o: Obj, i: nat, w: Word) returns (did: bool)
    requires gc.phase != Stopped
    modifies gc`graph, gc`dirtyBits
    ensures did ==> Write(old(gc.St()), gc.St(), o, i, w)
    ensures !did ==> gc.St() == old(gc.St()) && forall t :: !Write(gc.St(), t, o, i, w)
  {
    hide ClientReachable, WriteFault;
    var R := ClientReach(gc.graph);
    did := o in R && o in gc.graph.heap && i < |gc.graph.heap[o]| && (w.Ptr? ==> w.o in R);
    if did {
      gc.dirtyBits := WriteFault(gc.dirtyBits, PageOf(o, i));
      gc.graph := gc.graph.(heap := gc.graph.heap[o := gc.graph.heap[o][i := w]]);
    }
  }

  /** A change of the roots, unless the client cannot do it. */
  method DoRoots(gc: Globals, roots: seq<Word>) returns (did: bool)
    requires gc.phase != Stopped
    modifies gc`graph
    ensures did ==> ChangeRoots(old(gc.St()), gc.St(), roots)
    ensures !did ==> gc.St() == old(gc.St()) && forall t :: !ChangeRoots(gc.St(), t, roots)
  {
    hide ClientReachable;
    var R := ClientReach(gc.graph);
    did := forall i :: 0 <= i < |roots| && roots[i].Ptr? ==> roots[i].o in R;
    if did {
      gc.graph := gc.graph.(roots := roots);
    }
  }

  method DoRegister(gc: Globals, o: Obj) returns (did: bool)
    requires gc.phase == Running
    modifies gc`graph
    ensures did ==> Register(old(gc.St()), gc.St(), o)
    ensures !did ==> gc.St() == old(gc.St()) && forall t :: !Register(gc.St(), t, o)
  {
    hide ClientReachable;
    var R := ClientReach(gc.graph);
    did := o in R;
    if did {
      gc.graph := gc.graph.(fin := gc.graph.fin + {o});
    }
  }

  method DoUnregister(gc: Globals, o: Obj)
    requires gc.phase == Running
    modifies gc`graph
    ensures Unregister(old(gc.St()), gc.St(), o)
  {
    gc.graph := gc.graph.(fin := gc.graph.fin - {o});
  }

  method DoAllocate(gc: Globals, o: Obj) returns (did: bool)
    requires gc.phase == Running
    modifies gc`graph, gc`free
    ensures did ==> Allocate(old(gc.St()), gc.St(), o)
    ensures !did ==> gc.St() == old(gc.St()) && forall t :: !Allocate(gc.St(), t, o)
  {
    did := o in gc.free;
    if did {
      gc.graph := gc.graph.(roots := gc.graph.roots + [Ptr(o)], live := gc.graph.live + {o});
      gc.free := gc.free - {o};
    }
  }

  method DoNewBlock(gc: Globals, b: nat, blk: Block, objs: map<Obj, seq<Word>>) returns (did: bool)
    requires gc.phase == Running
    modifies gc`graph, gc`dirtyBits, gc`marks, gc`free, gc`reclaim
    ensures did ==> NewBlock(old(gc.St()), gc.St(), b, blk, objs)
    ensures !did ==> gc.St() == old(gc.St()) && forall t :: !NewBlock(gc.St(), t, b, blk, objs)
  {
    hide LaidOut, RemoveProtection;
    did := 1 <= b && 1 <= blk.len && LaidOut(b, blk, objs)
           && forall c :: c in gc.graph.blocks ==> b + blk.len <= c || c + gc.graph.blocks[c].len <= b;
    if did {
      var g := gc.graph.(heap := gc.graph.heap + objs, blocks := gc.graph.blocks[b := blk]);
      gc.SetSwept(g, RemoveProtection(gc.dirtyBits, b, blk.len, !blk.kind.Scanned()),
                  if blk.kind.Permanent() then gc.marks + objs.Keys else gc.marks, gc.free + objs.Keys, gc.reclaim);
    }
  }

  method DoSweep(gc: Globals, b: nat) returns (did: bool)
    requires gc.phase in {Running, Locked} && !gc.mustFinish
    modifies gc`graph, gc`dirtyBits, gc`marks, gc`free, gc`reclaim
    ensures did <==> old(b in gc.reclaim && b in gc.graph.blocks)
    ensures did ==> Sweep(old(gc.St()), gc.St(), b)
    ensures !did ==> gc.St() == old(gc.St()) && forall t :: !Sweep(gc.St(), t, b)
  {
    hide ClearObjects, RemoveProtection;
    did := b in gc.reclaim && b in gc.graph.blocks;
    if did {
      var kill := set o | o in gc.graph.heap && o.block == b && o !in gc.marks;
      assert kill == Swept(gc.St(), b);
      var blk := gc.graph.blocks[b];
      gc.SetSwept(gc.graph.(heap := ClearObjects(gc.graph.heap, kill), live := gc.graph.live - kill),
                  RemoveProtection(gc.dirtyBits, b, 1, !blk.kind.Scanned()),
                  if blk.kind.Permanent() then gc.marks + kill else gc.marks,
                  gc.free + kill, gc.reclaim - {b});
    }
  }

  /** One move of the client between calls, unless it cannot do it. */
  method DoMove(gc: Globals, fz: Finalizer, a: ClientStep) returns (did: bool)
    requires gc.phase == Running && !gc.mustFinish
    modifies gc`graph, gc`dirtyBits, gc`marks, gc`free, gc`reclaim, fz`table, fz`queue
    ensures did ==> Moves(old(gc.St()), old(fz.table), old(fz.queue), gc.St(), fz.table, fz.queue, a)
    ensures !did ==> gc.St() == old(gc.St()) && fz.table == old(fz.table) && fz.queue == old(fz.queue)
    ensures !did ==> forall t, tab, q :: !Moves(gc.St(), fz.table, fz.queue, t, tab, q, a)
  {
    hide Write, ChangeRoots, Register, Unregister, Allocate, NewBlock, Sweep, Registered, Unregistered, HoldsQueue;
    did := false;
    match a {
      case Store(o, i, w) =>
        did := DoStore(gc, o, i, w);
      case SetRoots(roots) =>
        if HoldsQueue(roots, fz.queue) {
          did := DoRoots(gc, roots);
        }
      case SetFinalizer(e, t) =>
        if Registered(fz.table, t, e) {
          did := DoRegister(gc, e.obj);
          fz.table := if did then t else fz.table;
        }
      case DropFinalizer(o, t) =>
        if Unregistered(fz.table, t, o) {
          DoUnregister(gc, o);
          did, fz.table := true, t;
        }
      case TakeFree(o) =>
        did := DoAllocate(gc, o);
      case AddBlock(b, blk, objs) =>
        did := DoNewBlock(gc, b, blk, objs);
      case SweepLazily(b) =>
        did := DoSweep(gc, b);
      case Invoke(roots) =>
        if fz.queue != [] && HoldsQueue(roots, fz.queue[1..]) {
          did := DoRoots(gc, roots);
          fz.queue := if did then fz.queue[1..] else fz.queue;
        }
    }
  }

  // ---------------------------------------------------------------- the client while the lock is held

  /** What stores and changes of roots come to, as long as they keep the finalization queue. */
  ghost predicate Ran(s: State, t: State, queue: seq<Entry>) {
    && Steps(s, t) && t == s.(g := s.g.(heap := t.g.heap, roots := t.g.roots), d := t.d)
    && t.g.heap.Keys == s.g.heap.Keys && (HoldsQueue(s.g.roots, queue) ==> HoldsQueue(t.g.roots, queue))
  }

  lemma RanRefl(s: State, queue: seq<Entry>)
    ensures Ran(s, s, queue)
  {
    StepsRefl(s);
  }

  lemma RanStore(s0: State, s: State, t: State, queue: seq<Entry>, o: Obj, i: nat, w: Word)
    requires Ran(s0, s, queue) && Write(s, t, o, i, w)
    ensures Ran(s0, t, queue)
  {
    hide Steps, ClientReachable, WriteFault;
    StepsAppend(s0, s, t, SWrite(o, i, w));
  }

  lemma RanRoots(s0: State, s: State, t: State, queue: seq<Entry>, roots: seq<Word>)
    requires Ran(s0, s, queue) && ChangeRoots(s, t, roots) && HoldsQueue(roots, queue)
    ensures Ran(s0, t, queue)
  {
    hide Steps, ClientReachable;
    StepsAppend(s0, s, t, SChangeRoots(roots));
  }

  /** The client runs for a while beside the collector, which holds the allocation lock. */
  method ClientRuns(gc: Globals, fz: Finalizer)
    requires gc.phase != Stopped
    modifies gc`graph, gc`dirtyBits
    ensures Ran(old(gc.St()), gc.St(), fz.queue)
  {
    hide Ran, Write, ChangeRoots, HoldsQueue;
    ghost var s0 := gc.St();
    RanRefl(s0, fz.queue);
    var n: nat := *;
    while n > 0
      invariant Ran(s0, gc.St(), fz.queue)
    {
      ghost var s := gc.St();
      var o: Obj, i: nat, w: Word, roots: seq<Word> := *, *, *, *;
      var did := DoStore(gc, o, i, w);
      if did {
        RanStore(s0, s, gc.St(), fz.queue, o, i, w);
      } else if HoldsQueue(roots, fz.queue) {
        did := DoRoots(gc, roots);
        if did {
          RanRoots(s0, s, gc.St(), fz.queue, roots);
        }
      }
      n := n - 1;
    }
  }

  /** The control code goes on as if it had not. */
  lemma RanKeeps(s: State, t: State, table: seq<Entry>, queue: seq<Entry>)
    requires CoreOk(s, table, queue) && Ran(s, t, queue)
    ensures CoreOk(t, table, queue)
  {
    hide Inv, Steps;
    StepsKeep(s, t);
    TablesFollow(t, table, queue);
  }

  /** The marker is neither further from its end nor closer to it. */
  lemma RanSame(s: State, t: State, queue: seq<Entry>)
    requires Ran(s, t, queue)
    ensures Unmarked(t) == Unmarked(s) && Rank(t.m) == Rank(s.m) && Ahead(t) == Ahead(s) && t.m.stack == s.m.stack
    ensures forall r :: (Less(s, r) <==> Less(t, r)) && (Less(r, s) <==> Less(r, t))
  {
    hide Steps;
  }
}
