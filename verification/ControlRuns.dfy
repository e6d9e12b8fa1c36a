/** Whole runs of client and collection control, from the empty heap: moves of the client and calls into the collector
    in any order. */
module ControlRuns {
  import opened Heap
  import opened Collector
  import opened CollectorSafety
  import opened MarkPhase
  import opened Finalization
  import opened ClientProgram
  import opened CollectorControl

  /** What may happen next. */
  datatype Event =
    | Move(a: ClientStep)
    | SetLinks(links: seq<Link>)                          // disappearing links are registered or unregistered
    | SetModes(dontGc: bool, timeUnlimited: bool, java: bool)
    | CollectALittle(n: nat, should: bool, full: bool)    // GC_collect_a_little_inner
    | Collect(stop: StopFunc)                             // GC_try_to_collect_inner

  /** One event. A move that the client cannot make is left out. */
  method Happen(c: Control, e: Event)
    requires c.Valid()
    modifies c, c.gc, c.fz
    ensures Steps(old(c.gc.St()), c.gc.St()) && c.Bounded() && old(c.initiated) <= c.initiated
    ensures c.gc.intact ==> c.Valid()
    ensures !c.gc.intact ==> !c.fz.java && (e.CollectALittle? || e.Collect?)
    ensures e == Collect(NeverStop) && !c.dontGc && c.gc.intact ==>
              c.gc.markState == MsNone && Collected(old(c.gc.St()), c.gc.St())
    ensures e.CollectALittle? && e.n > 0 ==>
              LittleDone(old(c.gc.St()), c.gc.St(), old(c.nAttempts), c.nAttempts, old(c.deficit), c.deficit, c.dontGc,
                         e.should, e.full)
  {
    hide Inv, Steps, TablesOk, Moves, Collected, LittleDone;
    ghost var s := c.gc.St();
    StepsRefl(s);
    match e {
      case Move(a) =>
        MoveOf(c, a);
      case SetLinks(links) =>
        c.fz.links := links;
      case SetModes(dontGc, timeUnlimited, java) =>
        c.dontGc, c.timeUnlimited, c.fz.java := dontGc, timeUnlimited, java;
      case CollectALittle(n, should, full) =>
        if n > 0 {
          c.CollectALittle(n, should, full);
        }
      case Collect(stop) =>
        var ok := c.TryToCollect(stop);
    }
  }

  method MoveOf(c: Control, a: ClientStep)
    requires c.Valid()
    modifies c.gc, c.fz
    ensures c.Valid() && Steps(old(c.gc.St()), c.gc.St()) && c.gc.intact
  {
    hide Inv, Steps, TablesOk, Moves;
    ghost var s, table, queue := c.gc.St(), c.fz.table, c.fz.queue;
    StepsRefl(s);
    InvGives(s);
    var did := DoMove(c.gc, c.fz, a);
    if did {
      ClientStepKeeps(s, table, queue, c.nAttempts, c.isFullGc, c.gc.St(), c.fz.table, c.fz.queue, a);
    }
  }

  /** In every run from the empty heap, up to a finalization that leaves marks open: every call of GC_initiate_gc finds
      the mark state none or invalid, GC_n_attempts never exceeds its limit, and what the control code relies on holds
      after every event. `attempts` lists GC_n_attempts after each of the k events that happened. */
  method Run(gc: Globals, fz: Finalizer, events: seq<Event>) returns (c: Control, k: nat, attempts: seq<nat>)
    requires Init(gc.St()) && fz.table == [] && fz.queue == []
    modifies gc, fz
    ensures c.gc == gc && c.fz == fz && k <= |events| && |attempts| == k
    ensures forall i :: 0 <= i < |c.initiated| ==> c.initiated[i] in {MsNone, MsInvalid}
    ensures forall i :: 0 <= i < k ==> attempts[i] <= MAX_PRIOR_ATTEMPTS
    ensures Steps(old(gc.St()), gc.St())
    ensures gc.intact ==> k == |events| && c.Valid()
    ensures !gc.intact ==> k > 0 && !fz.java && (events[k - 1].CollectALittle? || events[k - 1].Collect?)
  {
    hide Inv, Steps, TablesOk, ControlOk;
    ghost var s0 := gc.St();
    StepsRefl(s0);
    c := new Control(gc, fz);
    k, attempts := 0, [];
    ValidIsIntact(gc.St(), fz.table, fz.queue, c.nAttempts, c.isFullGc);
    while k < |events| && gc.intact
      invariant c.gc == gc && c.fz == fz && fresh(c) && k <= |events| && |attempts| == k
      invariant c.Bounded() && Steps(s0, gc.St()) && (gc.intact ==> c.Valid())
      invariant forall i :: 0 <= i < k ==> attempts[i] <= MAX_PRIOR_ATTEMPTS
      invariant !gc.intact ==> k > 0 && !fz.java && (events[k - 1].CollectALittle? || events[k - 1].Collect?)
    {
      ghost var s := gc.St();
      Happen(c, events[k]);
      StepsTrans(s0, s, gc.St());
      attempts := attempts + [c.nAttempts];
      k := k + 1;
    }
  }

  lemma ValidIsIntact(s: State, table: seq<Entry>, queue: seq<Entry>, attempts: nat, isFull: bool)
    requires ControlOk(s, table, queue, attempts, isFull)
    ensures s.intact
  {
  }
}
