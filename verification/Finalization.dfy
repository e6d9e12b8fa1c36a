/** Finalization: which registered objects are queued for finalization, and why everything a queued
    object needs is still there when its finalizer runs. */
module Finalization {
  import opened Heap
  import H = HashTables

  /** GC_normal_, GC_ignore_self_ and GC_null_finalize_mark_proc. */
  datatype MarkProc = NormalProc | IgnoreSelf | NullProc

  datatype Entry = Entry(obj: Obj, proc: MarkProc)

  /** A disappearing link: the word to clear, and the object it watches. */
  datatype Link = Link(at: Loc, target: Obj)

  // ---------------------------------------------------------------- marking from finalizable objects

  /** The pointers the marker follows. It cannot tell noise from pointers. */
  ghost predicate MEdge(g: Graph, o: Obj, t: Obj) {
    t in Succ(g, o)
  }

  function Succ(g: Graph, o: Obj): (ts: set<Obj>)
    ensures ts <= g.heap.Keys
    ensures forall t :: Edge(g, o, t) && t in g.heap ==> t in ts
    ensures forall t :: t in ts <==>
              Scannable(g, o) && t in g.heap && exists i :: 0 <= i < |g.heap[o]| && Denotes(g.heap[o][i], t)
  {
    if Scannable(g, o) then
      set i: nat | i < |g.heap[o]| && !g.heap[o][i].NonPtr? && g.heap[o][i].o in g.heap :: g.heap[o][i].o
    else {}
  }

  /** Where marking on behalf of a finalizable object starts. */
  function Starts(g: Graph, e: Entry): (ts: set<Obj>)
    ensures ts <= Succ(g, e.obj)
  {
    match e.proc
    case NormalProc => Succ(g, e.obj)
    case IgnoreSelf => Succ(g, e.obj) - {e.obj}
    case NullProc => {}
  }

  /** S holds M, and the successors of everything it adds to M. */
  ghost predicate ClosedAbove(g: Graph, M: set<Obj>, S: set<Obj>) {
    M <= S && forall x :: x in S && x !in M ==> Succ(g, x) <= S
  }

  /** T is the least set above M that holds `grey` and is closed above M. */
  ghost predicate IsTrace(g: Graph, M: set<Obj>, grey: set<Obj>, T: set<Obj>) {
    && grey <= T && ClosedAbove(g, M, T)
    && forall S :: grey <= S && ClosedAbove(g, M, S) ==> T <= S
  }

  /** Mark everything reachable from the grey objects; marked objects are not visited again. */
  method Trace(g: Graph, M: set<Obj>, grey: set<Obj>) returns (T: set<Obj>)
    requires M <= g.heap.Keys && grey <= g.heap.Keys
    ensures T <= g.heap.Keys
    ensures IsTrace(g, M, grey, T)
  {
    T := M;
    var todo := grey - M;
    while todo != {}
      invariant M <= T <= g.heap.Keys && todo <= g.heap.Keys - T && grey <= T + todo
      invariant forall x :: x in T && x !in M ==> Succ(g, x) <= T + todo
      invariant forall S :: grey <= S && ClosedAbove(g, M, S) ==> T + todo <= S
      decreases g.heap.Keys - T
    {
      var o :| o in todo;
      T := T + {o};
      todo := (todo - {o}) + (Succ(g, o) - T);
    }
  }

  lemma TraceUnique(g: Graph, M: set<Obj>, grey: set<Obj>, T: set<Obj>, U: set<Obj>)
    requires IsTrace(g, M, grey, T) && IsTrace(g, M, grey, U)
    ensures T == U
  {
  }

  /** Tracing twice is tracing once from both starting sets. */
  lemma TraceCompose(g: Graph, M: set<Obj>, a: set<Obj>, T: set<Obj>, b: set<Obj>, U: set<Obj>)
    requires IsTrace(g, M, a, T) && IsTrace(g, T, b, U)
    ensures IsTrace(g, M, a + b, U)
  {
    forall S | a + b <= S && ClosedAbove(g, M, S)
      ensures U <= S
    {
      assert T <= S;
      assert ClosedAbove(g, T, S);
    }
  }

  /** What a trace starts from matters only up to what it marks. */
  lemma TraceFrom(g: Graph, M: set<Obj>, a: set<Obj>, b: set<Obj>, T: set<Obj>)
    requires IsTrace(g, M, a, T) && b <= T
    requires forall S :: b <= S && ClosedAbove(g, M, S) ==> a <= S
    ensures IsTrace(g, M, b, T)
  {
  }

  // ---------------------------------------------------------------- traces and pointers

  /** A trail follows pointers, and stops at the first object of M it meets. */
  ghost predicate IsTrail(g: Graph, M: set<Obj>, p: seq<Obj>) {
    && |p| >= 1
    && (forall k :: 0 < k < |p| ==> MEdge(g, p[k - 1], p[k]))
    && (forall k :: 0 <= k < |p| - 1 ==> p[k] !in M)
  }

  ghost predicate Trail(g: Graph, M: set<Obj>, a: Obj, t: Obj) {
    exists p :: IsTrail(g, M, p) && p[0] == a && p[|p| - 1] == t
  }

  lemma TrailOfOne(g: Graph, M: set<Obj>, t: Obj)
    ensures Trail(g, M, t, t)
  {
    var p := [t];
    assert IsTrail(g, M, p) && p[0] == t && p[|p| - 1] == t;
  }

  lemma TrailExtends(g: Graph, M: set<Obj>, a: Obj, o: Obj, t: Obj)
    requires Trail(g, M, a, o) && o !in M && MEdge(g, o, t)
    ensures Trail(g, M, a, t)
  {
    hide MEdge;
    var p :| IsTrail(g, M, p) && p[0] == a && p[|p| - 1] == o;
    var q := p + [t];
    forall k | 0 < k < |q|
      ensures MEdge(g, q[k - 1], q[k])
    {
      if k < |p| {
        assert MEdge(g, p[k - 1], p[k]);
      }
    }
    assert forall k :: 0 <= k < |p| ==> q[k] == p[k];
    assert IsTrail(g, M, q) && q[0] == a && q[|q| - 1] == t;
  }

  /** A trail does not leave a set that is closed above M. */
  lemma {:induction false} TrailInside(g: Graph, M: set<Obj>, S: set<Obj>, p: seq<Obj>)
    requires IsTrail(g, M, p) && ClosedAbove(g, M, S) && p[0] in S
    ensures p[|p| - 1] in S
  {
    if |p| > 1 {
      TrailInside(g, M, S, p[..|p| - 1]);
      assert MEdge(g, p[|p| - 2], p[|p| - 1]);
    }
  }

  /** The objects of M, and those at the end of a trail that starts at a grey object. */
  ghost function OnTrails(g: Graph, M: set<Obj>, grey: set<Obj>): set<Obj> {
    set t | t in g.heap && (t in M || exists a :: a in grey && Trail(g, M, a, t))
  }

  lemma OnTrailsClosed(g: Graph, M: set<Obj>, grey: set<Obj>)
    requires M <= g.heap.Keys && grey <= g.heap.Keys
    ensures grey <= OnTrails(g, M, grey) && ClosedAbove(g, M, OnTrails(g, M, grey))
  {
    var T := OnTrails(g, M, grey);
    forall t | t in grey
      ensures t in T
    {
      TrailOfOne(g, M, t);
    }
    forall x, y | x in T && x !in M && y in Succ(g, x)
      ensures y in T
    {
      var a :| a in grey && Trail(g, M, a, x);
      TrailExtends(g, M, a, x, y);
    }
  }

  /** There is a trace, and it marks exactly what trails lead to. */
  lemma TraceIsTrails(g: Graph, M: set<Obj>, grey: set<Obj>)
    requires M <= g.heap.Keys && grey <= g.heap.Keys
    ensures IsTrace(g, M, grey, OnTrails(g, M, grey))
  {
    OnTrailsClosed(g, M, grey);
    forall S, t | grey <= S && ClosedAbove(g, M, S) && t in OnTrails(g, M, grey)
      ensures t in S
    {
      if t !in M {
        var a :| a in grey && Trail(g, M, a, t);
        var p :| IsTrail(g, M, p) && p[0] == a && p[|p| - 1] == t;
        TrailInside(g, M, S, p);
      }
    }
  }

  // ---------------------------------------------------------------- the specification of GC_finalize

  /** Where the first pass starts: at the successors of the objects that are unmarked when it begins. */
  function GreyOf(g: Graph, M: set<Obj>, table: seq<Entry>): (grey: set<Obj>)
    ensures grey <= g.heap.Keys
  {
    if table == [] then {}
    else
      var e := table[|table| - 1];
      GreyOf(g, M, table[..|table| - 1]) + (if e.obj in M then {} else Starts(g, e))
  }

  lemma {:induction false} GreyOfMember(g: Graph, M: set<Obj>, table: seq<Entry>, t: Obj)
    ensures t in GreyOf(g, M, table) <==> exists e :: e in table && e.obj !in M && t in Starts(g, e)
  {
    if table != [] {
      var init := table[..|table| - 1];
      GreyOfMember(g, M, init, t);
      assert table == init + [table[|table| - 1]];
    }
  }

  /** What a rescan of the heap after a mark stack overflow starts from: the successors of the marked
      objects, and the roots. */
  function Rescan(g: Graph, M: set<Obj>): (grey: set<Obj>)
    ensures grey <= g.heap.Keys
    ensures forall t :: t in grey <==> (exists x :: x in M && t in Succ(g, x)) || RootDenotes(g, t)
  {
    (set x, t | x in M && t in Succ(g, x) :: t)
    + (set i: nat | i < |g.roots| && !g.roots[i].NonPtr? && g.roots[i].o in g.heap :: g.roots[i].o)
  }

  ghost predicate RootDenotes(g: Graph, t: Obj) {
    t in g.heap && exists i :: 0 <= i < |g.roots| && Denotes(g.roots[i], t)
  }

  /** Everything the first pass marks from, if the mark stack overflows for the objects of `over`. */
  function Sources(g: Graph, M: set<Obj>, table: seq<Entry>, over: set<Obj>): (grey: set<Obj>)
    ensures over <= g.heap.Keys ==> grey <= g.heap.Keys
  {
    GreyOf(g, M, table) + over + if over == {} then {} else Rescan(g, M)
  }

  /** One of them: a successor of a registered unmarked object, an object for which the stack overflowed,
      or, if it overflowed at all, a root or a successor of a marked object. */
  ghost predicate Source(g: Graph, M: set<Obj>, table: seq<Entry>, over: set<Obj>, a: Obj) {
    || (exists e :: e in table && e.obj !in M && a in Starts(g, e))
    || a in over
    || (over != {} && a in Rescan(g, M))
  }

  lemma SourceIff(g: Graph, M: set<Obj>, table: seq<Entry>, over: set<Obj>, a: Obj)
    ensures a in Sources(g, M, table, over) <==> Source(g, M, table, over, a)
  {
    GreyOfMember(g, M, table, a);
  }

  function Objs(table: seq<Entry>): (os: set<Obj>)
    ensures forall e :: e in table ==> e.obj in os
  {
    set e | e in table :: e.obj
  }

  ghost predicate Distinct(table: seq<Entry>) {
    forall j, k :: 0 <= j < k < |table| ==> table[j].obj != table[k].obj
  }

  function Keep(table: seq<Entry>, M: set<Obj>): seq<Entry> {
    if table == [] then []
    else if table[|table| - 1].obj in M then Keep(table[..|table| - 1], M) + [table[|table| - 1]]
    else Keep(table[..|table| - 1], M)
  }

  /** The unmarked entries, last one first: each is pushed on the front of the queue. */
  function Queue(table: seq<Entry>, M: set<Obj>): seq<Entry> {
    if table == [] then []
    else if table[|table| - 1].obj in M then Queue(table[..|table| - 1], M)
    else [table[|table| - 1]] + Queue(table[..|table| - 1], M)
  }

  /** Table and queue split the entries by mark. */
  lemma {:induction false} SplitMember(table: seq<Entry>, M: set<Obj>, e: Entry)
    ensures e in Keep(table, M) <==> e in table && e.obj in M
    ensures e in Queue(table, M) <==> e in table && e.obj !in M
  {
    if table != [] {
      var init := table[..|table| - 1];
      SplitMember(init, M, e);
      assert table == init + [table[|table| - 1]];
    }
  }

  /** The entries of a hash table, chain after chain; `at` is the object at an address. */
  function EntriesOf(items: seq<H.Item<MarkProc>>, at: nat -> Obj): (es: seq<Entry>)
    ensures |es| == |items|
  {
    if items == [] then []
    else
      var it := items[|items| - 1];
      EntriesOf(items[..|items| - 1], at) + [Entry(at(it.key), it.val)]
  }

  /** Keeping the marked entries is what unlinking the others does to the hash table. */
  lemma {:induction false} KeepIsUnlink(items: seq<H.Item<MarkProc>>, at: nat -> Obj, M: set<Obj>, drop: set<nat>)
    requires forall i :: 0 <= i < |items| ==> (items[i].key in drop <==> at(items[i].key) !in M)
    ensures Keep(EntriesOf(items, at), M) == EntriesOf(H.Survivors(items, drop), at)
  {
    if items != [] {
      var init, it := items[..|items| - 1], items[|items| - 1];
      KeepIsUnlink(init, at, M, drop);
      var es := EntriesOf(items, at);
      assert es[..|es| - 1] == EntriesOf(init, at);
      if it.key !in drop {
        var r := H.Survivors(init, drop);
        assert (r + [it])[..|r|] == r;
      }
    }
  }

  // ---------------------------------------------------------------- disappearing links

  function ClearWord(g: Graph, l: Loc): Graph {
    match l
    case RootLoc(i) => if i < |g.roots| then g.(roots := g.roots[i := NonPtr]) else g
    case Field(o, i) => if o in g.heap && i < |g.heap[o]| then g.(heap := g.heap[o := g.heap[o][i := NonPtr]]) else g
  }

  /** The first pass over the links: those whose target is unmarked are cleared. */
  function ClearLinks(g: Graph, links: seq<Link>, M: set<Obj>): Graph {
    if links == [] then g
    else
      var g1 := ClearLinks(g, links[..|links| - 1], M);
      if links[|links| - 1].target in M then g1 else ClearWord(g1, links[|links| - 1].at)
  }

  function KeepLinks(links: seq<Link>, M: set<Obj>): (r: seq<Link>)
    ensures forall l :: l in r <==> l in links && l.target in M
  {
    if links == [] then []
    else if links[|links| - 1].target in M then KeepLinks(links[..|links| - 1], M) + [links[|links| - 1]]
    else KeepLinks(links[..|links| - 1], M)
  }

  predicate Dangling(g: Graph, M: set<Obj>, l: Link) {
    l.at.Field? && l.at.o in g.heap && l.at.o !in M
  }

  function DropDangling(g: Graph, links: seq<Link>, M: set<Obj>): (r: seq<Link>)
    ensures forall l :: l in r <==> l in links && !Dangling(g, M, l)
  {
    if links == [] then []
    else if Dangling(g, M, links[|links| - 1]) then DropDangling(g, links[..|links| - 1], M)
    else DropDangling(g, links[..|links| - 1], M) + [links[|links| - 1]]
  }

  /** g1 is g with some words cleared. */
  ghost predicate Weaker(g: Graph, g1: Graph) {
    && g1 == g.(heap := g1.heap, roots := g1.roots)
    && g1.heap.Keys == g.heap.Keys && |g1.roots| == |g.roots|
    && (forall o :: o in g.heap ==> |g1.heap[o]| == |g.heap[o]|)
    && (forall o, i :: o in g.heap && 0 <= i < |g.heap[o]| ==> g1.heap[o][i] == g.heap[o][i] || g1.heap[o][i] == NonPtr)
    && (forall i :: 0 <= i < |g.roots| ==> g1.roots[i] == g.roots[i] || g1.roots[i] == NonPtr)
  }

  lemma {:induction false} ClearLinksWeaker(g: Graph, links: seq<Link>, M: set<Obj>)
    ensures Weaker(g, ClearLinks(g, links, M))
  {
    if links != [] {
      ClearLinksWeaker(g, links[..|links| - 1], M);
    }
  }

  /** The word at `l`, if there is one. */
  function WordHere(g: Graph, l: Loc): Word {
    match l
    case RootLoc(i) => if i < |g.roots| then g.roots[i] else NonPtr
    case Field(o, i) => if o in g.heap && i < |g.heap[o]| then g.heap[o][i] else NonPtr
  }

  /** Some link at `l` watches an unmarked object. */
  ghost predicate Disappears(links: seq<Link>, M: set<Obj>, l: Loc) {
    exists k :: 0 <= k < |links| && links[k].at == l && links[k].target !in M
  }

  /** A word is cleared exactly when a link there watches an unmarked object. */
  lemma {:induction false} ClearLinksExact(g: Graph, links: seq<Link>, M: set<Obj>, l: Loc)
    ensures WordHere(ClearLinks(g, links, M), l) == if Disappears(links, M, l) then NonPtr else WordHere(g, l)
  {
    if links != [] {
      var n := |links| - 1;
      var init := links[..n];
      ClearLinksExact(g, init, M, l);
      ClearLinksWeaker(g, init, M);
      assert forall k :: 0 <= k < n ==> init[k] == links[k];
      assert Disappears(links, M, l) <==> Disappears(init, M, l) || (links[n].at == l && links[n].target !in M);
    }
  }

  // ---------------------------------------------------------------- GC_finalize

  function FoStarts(g: Graph, M: set<Obj>, o: Obj, starts: set<Obj>, overflow: bool): set<Obj> {
    if overflow then starts + {o} + Rescan(g, M) else starts
  }

  /** GC_MARK_FO. If the mark stack overflows, marking stops with some part of the work done, the object
      itself is marked, and a rescan completes the work. There is no overflow unless something gets marked. */
  method MarkFo(g: Graph, M: set<Obj>, o: Obj, starts: set<Obj>) returns (T: set<Obj>, overflow: bool)
    requires M <= g.heap.Keys && starts <= Succ(g, o) && o in g.heap
    ensures T <= g.heap.Keys && (overflow ==> !(starts <= M))
    ensures IsTrace(g, M, FoStarts(g, M, o, starts, overflow), T)
  {
    T := Trace(g, M, starts);
    overflow := *;
    overflow := overflow && !(starts <= M);
    if overflow {
      var part: set<Obj> := *;
      var U := M + part * T + {o};
      ghost var T0 := T;
      T := Trace(g, U, Rescan(g, U));
      RescanCompletes(g, M, o, starts, T0, U, T);
    }
  }

  lemma RescanCompletes(g: Graph, M: set<Obj>, o: Obj, starts: set<Obj>, T0: set<Obj>, U: set<Obj>, T: set<Obj>)
    requires starts <= Succ(g, o) && IsTrace(g, M, starts, T0)
    requires M + {o} <= U <= T0 + {o} && IsTrace(g, U, Rescan(g, U), T)
    ensures IsTrace(g, M, starts + {o} + Rescan(g, M), T)
  {
    var grey := starts + {o} + Rescan(g, M);
    forall S | grey <= S && ClosedAbove(g, M, S)
      ensures T <= S
    {
      assert T0 <= S;
      assert Rescan(g, U) <= S;
      assert ClosedAbove(g, U, S);
    }
  }

  /** The mark stack overflowed only for registered unmarked objects with something unmarked to start from. */
  ghost predicate OverOk(g: Graph, M: set<Obj>, table: seq<Entry>, over: set<Obj>) {
    forall o :: o in over ==> exists e :: e in table && e.obj == o && o !in M && !(Starts(g, e) <= M)
  }

  /** What the first pass marks, exactly; `over` holds the objects for which the mark stack overflowed. */
  ghost predicate Marked(g: Graph, M: set<Obj>, table: seq<Entry>, over: set<Obj>, M1: set<Obj>) {
    M1 <= g.heap.Keys && OverOk(g, M, table, over) && IsTrace(g, M, Sources(g, M, table, over), M1)
  }

  /** A rescan from more marks than M, all of them traced, starts from nothing new. */
  lemma RescanTraced(g: Graph, M: set<Obj>, M1: set<Obj>, S: set<Obj>)
    requires ClosedAbove(g, M, M1) && Rescan(g, M) <= S && M1 <= S && ClosedAbove(g, M, S)
    ensures Rescan(g, M1) <= S
  {
  }

  /** A further trace from the marks M1 of an earlier one, with or without overflow, is one trace from M. */
  lemma TraceOn(g: Graph, M: set<Obj>, a: set<Obj>, M1: set<Obj>, b: set<Obj>, overflow: bool, T: set<Obj>)
    requires IsTrace(g, M, a, M1)
    requires IsTrace(g, M1, if overflow then b + Rescan(g, M1) else b, T)
    ensures IsTrace(g, M, a + b + if overflow then Rescan(g, M) else {}, T)
  {
    var c := if overflow then b + Rescan(g, M1) else b;
    var d := a + b + if overflow then Rescan(g, M) else {};
    TraceCompose(g, M, a, M1, c, T);
    if overflow {
      assert Rescan(g, M) <= Rescan(g, M1);
      forall S | d <= S && ClosedAbove(g, M, S)
        ensures a + c <= S
      {
        RescanTraced(g, M, M1, S);
      }
    }
    TraceFrom(g, M, a + c, d, T);
  }

  lemma OverStep(g: Graph, M: set<Obj>, table: seq<Entry>, k: nat, over: set<Obj>, overflow: bool)
    requires k < |table| && OverOk(g, M, table[..k], over)
    requires overflow ==> table[k].obj !in M && !(Starts(g, table[k]) <= M)
    ensures OverOk(g, M, table[..k + 1], over + if overflow then {table[k].obj} else {})
  {
    var e := table[k];
    assert table[..k + 1] == table[..k] + [e];
    assert e in table[..k + 1];
  }

  lemma SourcesStep(g: Graph, M: set<Obj>, table: seq<Entry>, k: nat, over: set<Obj>, overflow: bool)
    requires k < |table|
    ensures var e := table[k];
            Sources(g, M, table[..k + 1], over + if overflow then {e.obj} else {}) ==
              Sources(g, M, table[..k], over) + (if e.obj in M then {} else Starts(g, e))
              + (if overflow then {e.obj} else {}) + if overflow then Rescan(g, M) else {}
  {
    hide Starts, Rescan;
    assert table[..k + 1][..k] == table[..k];
  }

  lemma MarkedStep(g: Graph, M: set<Obj>, table: seq<Entry>, k: nat, over: set<Obj>,
                   M1: set<Obj>, T: set<Obj>, overflow: bool)
    requires k < |table| && Marked(g, M, table[..k], over, M1) && T <= g.heap.Keys
    requires table[k].obj in M1 ==> T == M1 && !overflow
    requires table[k].obj !in M1 ==>
               && (overflow ==> !(Starts(g, table[k]) <= M1))
               && IsTrace(g, M1, FoStarts(g, M1, table[k].obj, Starts(g, table[k]), overflow), T)
    ensures Marked(g, M, table[..k + 1], over + if overflow then {table[k].obj} else {}, T)
  {
    hide Sources, Rescan, OverOk, IsTrace;
    var e := table[k];
    var a := Sources(g, M, table[..k], over);
    TraceStarts(g, M, a, M1);
    OverStep(g, M, table, k, over, overflow);
    SourcesStep(g, M, table, k, over, overflow);
    if e.obj in M1 {
      var d := a + if e.obj in M then {} else Starts(g, e);
      assert Sources(g, M, table[..k + 1], over + {}) == d;
      TraceFrom(g, M, a, d, T);
    } else {
      var b := Starts(g, e) + if overflow then {e.obj} else {};
      assert FoStarts(g, M1, e.obj, Starts(g, e), overflow) == if overflow then b + Rescan(g, M1) else b;
      TraceOn(g, M, a, M1, b, overflow, T);
      assert a + b == a + Starts(g, e) + if overflow then {e.obj} else {};
    }
  }

  class Finalizer {
    var table: seq<Entry>   // the chains of the finalizer table, bucket after bucket
    var queue: seq<Entry>   // GC_finalize_now
    var links: seq<Link>    // the chains of the disappearing link table
    var java: bool          // GC_java_finalization

    ghost predicate Valid(g: Graph)
      reads this
    {
      Distinct(table) && Objs(table) <= g.heap.Keys && Objs(queue) <= g.heap.Keys
    }

    /** First pass: mark what is reachable by one or more pointers from unmarked finalizable objects. */
    method MarkFromFinalizable(g: Graph, M: set<Obj>) returns (M1: set<Obj>, ghost over: set<Obj>)
      requires Valid(g) && M <= g.heap.Keys
      ensures Marked(g, M, table, over, M1)
    {
      hide Marked, IsTrace;
      M1, over := M, {};
      MarkedNothing(g, M);
      var k := 0;
      while k < |table|
        invariant 0 <= k <= |table| && M1 <= g.heap.Keys
        invariant Marked(g, M, table[..k], over, M1)
      {
        var e := table[k];
        var T, overflow := M1, false;
        if e.obj !in M1 {
          T, overflow := MarkFo(g, M1, e.obj, Starts(g, e));
        }
        MarkedStep(g, M, table, k, over, M1, T, overflow);
        M1, over := T, over + if overflow then {e.obj} else {};
        k := k + 1;
      }
      assert table[..|table|] == table;
    }

    /** Second pass: entries still unmarked move from the table to the queue. */
    method Enqueue(M1: set<Obj>) returns (M2: set<Obj>)
      requires Distinct(table)
      modifies this
      ensures java == old(java) && links == old(links)
      ensures table == Keep(old(table), M1) && queue == Queue(old(table), M1) + old(queue)
      ensures M2 == if java then M1 else M1 + Objs(Queue(old(table), M1))
    {
      hide Keep, Queue, Objs, Distinct;
      QueueStart(table, M1);
      var kept: seq<Entry> := [];
      M2 := M1;
      var k := 0;
      while k < |table|
        invariant 0 <= k <= |table| && table == old(table) && java == old(java) && links == old(links)
        invariant kept == Keep(table[..k], M1) && queue == Queue(table[..k], M1) + old(queue)
        invariant M2 == if java then M1 else M1 + Objs(Queue(table[..k], M1))
      {
        var e := table[k];
        QueueStep(table, M1, k);
        if e.obj !in M2 {
          if !java {
            M2 := M2 + {e.obj};
          }
          queue := [e] + queue;
        } else {
          kept := kept + [e];
        }
        k := k + 1;
      }
      assert table[..|table|] == table;
      table := kept;
    }

    /** Third pass, in Java mode: mark the queued objects, and what the unordered ones point to. */
    method MarkQueued(g: Graph, M2: set<Obj>) returns (M3: set<Obj>, overflow: bool)
      requires M2 <= g.heap.Keys && Objs(queue) <= g.heap.Keys
      requires forall e :: e in queue && e.obj !in M2 && e.proc != NullProc ==> Starts(g, e) <= M2
      ensures M3 <= g.heap.Keys
      ensures IsTrace(g, M2, Objs(queue) + if overflow then Rescan(g, M2) else {}, M3)
    {
      hide IsTrace, Succ, Rescan, Objs, Starts;
      M3, overflow := M2, false;
      TraceNothing(g, M2);
      QueueMembers(queue);
      var k := 0;
      while k < |queue|
        invariant 0 <= k <= |queue| && M3 <= g.heap.Keys
        invariant IsTrace(g, M2, Objs(queue[..k]) + if overflow then Rescan(g, M2) else {}, M3)
      {
        assert queue[k] in queue && queue[..k + 1] == queue[..k] + [queue[k]];
        M3, overflow := MarkOneQueued(g, M2, queue[..k], overflow, M3, queue[k]);
        k := k + 1;
      }
      assert queue[..|queue|] == queue;
    }

    static method MarkOneQueued(g: Graph, ghost M2: set<Obj>, ghost done: seq<Entry>, overflow: bool, M: set<Obj>,
                                e: Entry)
      returns (M3: set<Obj>, overflow': bool)
      requires M <= g.heap.Keys && e.obj in g.heap
      requires IsTrace(g, M2, Objs(done) + if overflow then Rescan(g, M2) else {}, M)
      requires e.obj !in M2 && e.proc != NullProc ==> Starts(g, e) <= M2
      ensures M3 <= g.heap.Keys
      ensures IsTrace(g, M2, Objs(done + [e]) + if overflow' then Rescan(g, M2) else {}, M3)
    {
      hide IsTrace, Succ, Rescan, Objs, Starts, FoStarts;
      var T, over := M, false;
      if e.obj !in M && e.proc == NullProc {
        T, over := MarkFo(g, M, e.obj, Succ(g, e.obj));
      }
      AddMarked(g, M2, done, overflow, M, T, over, e);
      M3, overflow' := T + {e.obj}, overflow || over;
    }

    method ClearDisappearing(g: Graph, M: set<Obj>) returns (g1: Graph)
      modifies this`links
      ensures g1 == ClearLinks(g, old(links), M) && links == KeepLinks(old(links), M)
      ensures forall l :: WordHere(g1, l) == if Disappears(old(links), M, l) then NonPtr else WordHere(g, l)
    {
      g1 := g;
      var kept: seq<Link> := [];
      var k := 0;
      while k < |links|
        invariant 0 <= k <= |links| && links == old(links)
        invariant g1 == ClearLinks(g, links[..k], M) && kept == KeepLinks(links[..k], M)
      {
        assert links[..k + 1][..k] == links[..k];
        if links[k].target !in M {
          g1 := ClearWord(g1, links[k].at);
        } else {
          kept := kept + [links[k]];
        }
        k := k + 1;
      }
      assert links[..|links|] == links;
      forall l
        ensures WordHere(g1, l) == if Disappears(links, M, l) then NonPtr else WordHere(g, l)
      {
        ClearLinksExact(g, links, M, l);
      }
      links := kept;
    }

    method RemoveDangling(g: Graph, M: set<Obj>)
      modifies this`links
      ensures links == DropDangling(g, old(links), M)
    {
      var kept: seq<Link> := [];
      var k := 0;
      while k < |links|
        invariant 0 <= k <= |links| && links == old(links)
        invariant kept == DropDangling(g, links[..k], M)
      {
        assert links[..k + 1][..k] == links[..k];
        if !Dangling(g, M, links[k]) {
          kept := kept + [links[k]];
        }
        k := k + 1;
      }
      assert links[..|links|] == links;
      links := kept;
    }

    /** GC_finalize. M1 is the mark set after the first pass, `over` holds the objects for which the mark
        stack overflowed in it, and `rescan` says whether it overflowed in the third. */
    method GcFinalize(g: Graph, M: set<Obj>)
      returns (g1: Graph, M3: set<Obj>, ghost M1: set<Obj>, ghost over: set<Obj>, ghost rescan: bool)
      requires Valid(g) && M <= g.heap.Keys && Objs(queue) <= M
      modifies this
      ensures Valid(g1) && java == old(java)
      ensures g1 == ClearLinks(g, old(links), M)
      ensures Marked(g1, M, old(table), over, M1)
      ensures table == Keep(old(table), M1) && queue == Queue(old(table), M1) + old(queue)
      ensures M3 <= g1.heap.Keys && AfterQueue(g1, M1, old(table), queue, java, rescan, M3)
      ensures links == DropDangling(g1, KeepLinks(old(links), M), M3)
    {
      hide IsTrace, Sources, Rescan;
      ClearLinksWeaker(g, links, M);
      g1 := ClearDisappearing(g, M);
      var N;
      N, over := MarkFromFinalizable(g1, M);
      M1, rescan := N, false;
      QueueFacts(g1, M, table, over, M1);
      ghost var q0 := queue;
      M3 := Enqueue(N);
      assert forall e :: e in queue ==> e in Queue(old(table), M1) || e in q0;
      if java {
        var overflow;
        M3, overflow := MarkQueued(g1, M3);
        rescan := overflow;
      }
      RemoveDangling(g1, M3);
    }
  }

  /** The marks after the last pass: outside Java mode just the queued objects are added, in Java mode
      everything they lead to, and what a rescan leads to if the mark stack overflows. */
  ghost predicate AfterQueue(g: Graph, M1: set<Obj>, table: seq<Entry>, queue: seq<Entry>, java: bool, rescan: bool,
                             M3: set<Obj>) {
    if java then IsTrace(g, M1, Objs(queue) + if rescan then Rescan(g, M1) else {}, M3)
    else M3 == M1 + Objs(Queue(table, M1))
  }

  /** In Java mode the marks stay closed. */
  lemma AfterQueueClosed(g: Graph, M: set<Obj>, table: seq<Entry>, over: set<Obj>, M1: set<Obj>,
                         queue: seq<Entry>, java: bool, rescan: bool, M3: set<Obj>)
    requires Marked(g, M, table, over, M1) && AfterQueue(g, M1, table, queue, java, rescan, M3)
    requires forall e :: e in Queue(table, M1) ==> e in queue
    ensures M <= M1 <= M3 && Objs(Queue(table, M1)) <= M3
    ensures java ==> ClosedAbove(g, M, M3)
  {
  }

  lemma MarkedNothing(g: Graph, M: set<Obj>)
    requires M <= g.heap.Keys
    ensures forall table: seq<Entry> :: Marked(g, M, table[..0], {}, M)
  {
  }

  lemma QueueMembers(queue: seq<Entry>)
    ensures Objs(queue[..0]) + {} == {} && forall e :: e in queue ==> e.obj in Objs(queue)
  {
  }

  lemma TraceNothing(g: Graph, M: set<Obj>)
    ensures IsTrace(g, M, {}, M)
  {
  }

  /** A queued object whose successors are traced, or point to traced objects already, is marked. */
  lemma AddMarked(g: Graph, M: set<Obj>, queue: seq<Entry>, overflow: bool, M3: set<Obj>, T: set<Obj>, over: bool,
                  e: Entry)
    requires IsTrace(g, M, Objs(queue) + if overflow then Rescan(g, M) else {}, M3)
    requires e.obj !in M && e.proc != NullProc ==> Starts(g, e) <= M
    requires if e.obj in M3 || e.proc != NullProc then T == M3 && !over
             else IsTrace(g, M3, FoStarts(g, M3, e.obj, Succ(g, e.obj), over), T)
    ensures IsTrace(g, M, Objs(queue + [e]) + if overflow || over then Rescan(g, M) else {}, T + {e.obj})
  {
    hide IsTrace, Rescan, Succ;
    var a := Objs(queue) + if overflow then Rescan(g, M) else {};
    var d := Objs(queue + [e]) + if overflow || over then Rescan(g, M) else {};
    assert Objs(queue + [e]) == Objs(queue) + {e.obj};
    TraceStarts(g, M, a, M3);
    if e.obj in M3 || e.proc != NullProc {
      AddOrdered(g, M, a, M3, e);
      assert d == a + {e.obj};
    } else {
      AddTraced(g, M3, T, over, e.obj);
      TraceOn(g, M, a, M3, {e.obj}, over, T + {e.obj});
      assert d == a + {e.obj} + if over then Rescan(g, M) else {};
    }
  }

  lemma AddOrdered(g: Graph, M: set<Obj>, a: set<Obj>, M3: set<Obj>, e: Entry)
    requires IsTrace(g, M, a, M3) && (e.obj in M3 || (e.proc != NullProc && Starts(g, e) <= M3))
    ensures IsTrace(g, M, a + {e.obj}, M3 + {e.obj})
  {
    hide Succ;
    assert ClosedAbove(g, M, M3 + {e.obj});
  }

  lemma AddTraced(g: Graph, M: set<Obj>, T: set<Obj>, over: bool, o: Obj)
    requires o !in M && IsTrace(g, M, FoStarts(g, M, o, Succ(g, o), over), T)
    ensures IsTrace(g, M, if over then {o} + Rescan(g, M) else {o}, T + {o})
  {
  }

  lemma {:induction false} KeepDistinct(table: seq<Entry>, M: set<Obj>)
    requires Distinct(table)
    ensures Distinct(Keep(table, M))
  {
    if table != [] {
      var n := |table| - 1;
      KeepDistinct(table[..n], M);
      var kept := Keep(table[..n], M);
      forall j | 0 <= j < |kept|
        ensures kept[j].obj != table[n].obj
      {
        SplitMember(table[..n], M, kept[j]);
      }
    }
  }

  /** Entries that get queued were unmarked throughout, so marking started from them. */
  lemma QueueFacts(g: Graph, M: set<Obj>, table: seq<Entry>, over: set<Obj>, M1: set<Obj>)
    requires Distinct(table) && Objs(table) <= g.heap.Keys && Marked(g, M, table, over, M1)
    ensures Distinct(Keep(table, M1)) && Objs(Keep(table, M1)) <= g.heap.Keys && M <= M1 <= g.heap.Keys
    ensures forall e :: e in Queue(table, M1) ==> e.obj in g.heap && e.obj !in M1 && e in table && Starts(g, e) <= M1
  {
    KeepDistinct(table, M1);
    forall e | e in Keep(table, M1)
      ensures e.obj in g.heap
    {
      SplitMember(table, M1, e);
    }
    forall e | e in Queue(table, M1)
      ensures e.obj in g.heap && e.obj !in M1 && e in table && Starts(g, e) <= M1
    {
      SplitMember(table, M1, e);
      forall t | t in Starts(g, e)
        ensures t in M1
      {
        GreyOfMember(g, M, table, t);
      }
    }
  }

  lemma QueueStart(table: seq<Entry>, M1: set<Obj>)
    ensures Keep(table[..0], M1) == [] && Queue(table[..0], M1) == [] && Objs([]) == {}
  {
  }

  lemma QueueStep(table: seq<Entry>, M1: set<Obj>, k: nat)
    requires Distinct(table) && k < |table|
    ensures table[k].obj !in Objs(Queue(table[..k], M1))
    ensures if table[k].obj in M1 then
              Keep(table[..k + 1], M1) == Keep(table[..k], M1) + [table[k]] &&
                Queue(table[..k + 1], M1) == Queue(table[..k], M1)
            else
              && Keep(table[..k + 1], M1) == Keep(table[..k], M1)
              && Queue(table[..k + 1], M1) == [table[k]] + Queue(table[..k], M1)
              && Objs(Queue(table[..k + 1], M1)) == Objs(Queue(table[..k], M1)) + {table[k].obj}
  {
    assert table[..k + 1][..k] == table[..k];
    forall e | e in Queue(table[..k], M1)
      ensures e.obj != table[k].obj
    {
      SplitMember(table[..k], M1, e);
    }
  }

  // ---------------------------------------------------------------- what is queued

  /** Whatever the mark procedures, and whenever the mark stack overflows: an entry is queued exactly if
      it is registered, unmarked, and not at the end of a trail from anything the pass marks from. */
  lemma QueueExact(g: Graph, M: set<Obj>, table: seq<Entry>, over: set<Obj>, M1: set<Obj>, e: Entry)
    requires M <= g.heap.Keys && Objs(table) <= g.heap.Keys && Marked(g, M, table, over, M1)
    ensures e in Queue(table, M1) <==> e in table && !Kept(g, M, table, over, e.obj)
  {
    SplitMember(table, M1, e);
    if e in table {
      KeptIff(g, M, table, over, M1, e.obj);
    }
  }

  /** Marked before, or at the end of a trail of pointers from something the pass marks from. */
  ghost predicate Kept(g: Graph, M: set<Obj>, table: seq<Entry>, over: set<Obj>, t: Obj) {
    t in M || exists a :: Source(g, M, table, over, a) && Trail(g, M, a, t)
  }

  /** The first pass marks exactly that. */
  lemma KeptIff(g: Graph, M: set<Obj>, table: seq<Entry>, over: set<Obj>, M1: set<Obj>, t: Obj)
    requires M <= g.heap.Keys && Marked(g, M, table, over, M1) && t in g.heap
    ensures t in M1 <==> Kept(g, M, table, over, t)
  {
    hide IsTrace, Source, Trail;
    var grey := Sources(g, M, table, over);
    TraceStarts(g, M, grey, M1);
    TraceIsTrails(g, M, grey);
    TraceUnique(g, M, grey, M1, OnTrails(g, M, grey));
    forall a
      ensures a in grey <==> Source(g, M, table, over, a)
    {
      SourceIff(g, M, table, over, a);
    }
  }

  lemma TraceStarts(g: Graph, M: set<Obj>, grey: set<Obj>, T: set<Obj>)
    requires IsTrace(g, M, grey, T)
    ensures grey <= T && ClosedAbove(g, M, T)
  {
  }

  /** A chain of one or more pointers, through objects outside M. */
  ghost predicate Leads(g: Graph, M: set<Obj>, f: Obj, t: Obj) {
    exists a :: MEdge(g, f, a) && Trail(g, M, a, t)
  }

  /** Whatever the mark procedures and whatever overflows: nothing queued can be reached from an ordered
      finalizable object that was itself unmarked, except by itself if self references are ignored. */
  lemma QueuedIsUnreachable(g: Graph, M: set<Obj>, table: seq<Entry>, over: set<Obj>, M1: set<Obj>, e: Entry, f: Entry)
    requires Marked(g, M, table, over, M1) && e in Queue(table, M1) && f in table && f.obj !in M
    requires f.proc == NormalProc || (f.proc == IgnoreSelf && f.obj != e.obj)
    ensures !Leads(g, M, f.obj, e.obj)
  {
    SplitMember(table, M1, e);
    OrderedClosed(g, M, table, over, M1, f);
    if Leads(g, M, f.obj, e.obj) {
      var a :| MEdge(g, f.obj, a) && Trail(g, M, a, e.obj);
      var p :| IsTrail(g, M, p) && p[0] == a && p[|p| - 1] == e.obj;
      TrailInside(g, M, Around(M1, f), p);
    }
  }

  /** What is marked on behalf of f, and f itself if its self references are ignored. */
  ghost function Around(M1: set<Obj>, f: Entry): set<Obj> {
    if f.proc == IgnoreSelf then M1 + {f.obj} else M1
  }

  lemma OrderedClosed(g: Graph, M: set<Obj>, table: seq<Entry>, over: set<Obj>, M1: set<Obj>, f: Entry)
    requires Marked(g, M, table, over, M1) && f in table && f.obj !in M && f.proc != NullProc
    ensures Succ(g, f.obj) <= Around(M1, f) && ClosedAbove(g, M, Around(M1, f))
  {
    forall t | t in Starts(g, f)
      ensures t in M1
    {
      GreyOfMember(g, M, table, t);
    }
  }

  /** With normally ordered finalizers: an object is queued exactly if it is registered, unmarked, the mark
      stack did not overflow for it, no chain of pointers leads to it from a registered unmarked object and,
      if the stack did overflow, none from a root or a marked object. */
  lemma NormalQueueExact(g: Graph, M: set<Obj>, table: seq<Entry>, over: set<Obj>, M1: set<Obj>, e: Entry)
    requires M <= g.heap.Keys && Objs(table) <= g.heap.Keys && Marked(g, M, table, over, M1)
    requires forall f :: f in table ==> f.proc == NormalProc
    ensures e in Queue(table, M1) <==>
              && e in table && e.obj !in M && e.obj !in over
              && (forall f :: f in table && f.obj !in M ==> !Leads(g, M, f.obj, e.obj))
              && (over != {} ==> forall a :: a in Rescan(g, M) ==> !Trail(g, M, a, e.obj))
  {
    QueueExact(g, M, table, over, M1, e);
    if e.obj in over {
      TrailOfOne(g, M, e.obj);
    }
    if e in table && e.obj !in over && e.obj !in M && Kept(g, M, table, over, e.obj) {
      var a :| Source(g, M, table, over, a) && Trail(g, M, a, e.obj);
      if a in over {
        var f :| f in table && f.obj == a && a !in M && !(Starts(g, f) <= M);
        TrailLeads(g, M, a, e.obj);
      } else if !(over != {} && a in Rescan(g, M)) {
        var f :| f in table && f.obj !in M && a in Starts(g, f);
        assert MEdge(g, f.obj, a);
      }
    }
    forall f, a | f in table && f.obj !in M && MEdge(g, f.obj, a) && Trail(g, M, a, e.obj)
      ensures Kept(g, M, table, over, e.obj)
    {
      assert a in Starts(g, f);
    }
  }

  lemma TrailLeads(g: Graph, M: set<Obj>, a: Obj, t: Obj)
    requires Trail(g, M, a, t) && a != t
    ensures Leads(g, M, a, t)
  {
    var p :| IsTrail(g, M, p) && p[0] == a && p[|p| - 1] == t;
    var q := p[1..];
    assert forall k :: 0 <= k < |q| ==> q[k] == p[k + 1];
    assert MEdge(g, p[0], p[1]);
    assert IsTrail(g, M, q) && q[0] == p[1] && q[|q| - 1] == t;
  }

  /** A trail that leaves an object for good does so by a pointer to another one. */
  lemma {:induction false} LeavesSelf(g: Graph, M: set<Obj>, p: seq<Obj>)
    requires IsTrail(g, M, p) && p[0] != p[|p| - 1]
    ensures exists a :: a != p[0] && MEdge(g, p[0], a) && Trail(g, M, a, p[|p| - 1])
  {
    var q := p[1..];
    assert forall k :: 0 <= k < |q| ==> q[k] == p[k + 1];
    assert MEdge(g, p[0], p[1]);
    assert IsTrail(g, M, q) && q[|q| - 1] == p[|p| - 1];
    if p[1] == p[0] {
      LeavesSelf(g, M, q);
    } else {
      assert Trail(g, M, p[1], p[|p| - 1]);
    }
  }

  /** A pointer that keeps e waiting: out of a normally ordered unmarked object, or out of one that ignores itself to
      another object. */
  ghost predicate HoldsBack(g: Graph, M: set<Obj>, table: seq<Entry>, f: Entry, a: Obj) {
    && f in table && f.obj !in M && MEdge(g, f.obj, a)
    && (f.proc == NormalProc || (f.proc == IgnoreSelf && a != f.obj))
  }

  /** The exact queue, whatever the mark procedures: an entry is queued exactly if it is registered, unmarked, the mark
      stack did not overflow for it, no trail leads to it from a pointer out of an unmarked normally ordered object, or
      out of an unmarked object that ignores itself to another one, and, if the stack did overflow, none from a root or
      a marked object. In particular unordered objects hold nothing back, and nothing is held back by itself alone if
      it ignores itself. */
  lemma MixedQueueExact(g: Graph, M: set<Obj>, table: seq<Entry>, over: set<Obj>, M1: set<Obj>, e: Entry)
    requires M <= g.heap.Keys && Objs(table) <= g.heap.Keys && Marked(g, M, table, over, M1)
    ensures e in Queue(table, M1) <==>
              && e in table && e.obj !in M && e.obj !in over
              && (forall f, a :: HoldsBack(g, M, table, f, a) ==> !Trail(g, M, a, e.obj))
              && (over != {} ==> forall a :: a in Rescan(g, M) ==> !Trail(g, M, a, e.obj))
  {
    QueueExact(g, M, table, over, M1, e);
    if e.obj in over {
      TrailOfOne(g, M, e.obj);
    }
    forall f, a | HoldsBack(g, M, table, f, a)
      ensures a in Starts(g, f) && Source(g, M, table, over, a)
    {
    }
    forall a | Source(g, M, table, over, a) && Trail(g, M, a, e.obj) && e.obj !in over
      ensures (exists f, b :: HoldsBack(g, M, table, f, b) && Trail(g, M, b, e.obj)) ||
              (over != {} && a in Rescan(g, M))
    {
      if a in over {
        OverHoldsBack(g, M, table, over, a, e.obj);
      } else if f :| f in table && f.obj !in M && a in Starts(g, f) {
        assert HoldsBack(g, M, table, f, a);
      }
    }
  }

  lemma OverHoldsBack(g: Graph, M: set<Obj>, table: seq<Entry>, over: set<Obj>, o: Obj, t: Obj)
    requires OverOk(g, M, table, over) && o in over && Trail(g, M, o, t) && o != t
    ensures exists f, b :: HoldsBack(g, M, table, f, b) && Trail(g, M, b, t)
  {
    var f :| f in table && f.obj == o && o !in M && !(Starts(g, f) <= M);
    var p :| IsTrail(g, M, p) && p[0] == o && p[|p| - 1] == t;
    LeavesSelf(g, M, p);
    var b :| b != o && MEdge(g, o, b) && Trail(g, M, b, t);
    assert HoldsBack(g, M, table, f, b);
  }

  // ---------------------------------------------------------------- closed marks

  /** The marks are closed under everything the marker follows, and hold everything the roots denote. */
  ghost predicate MarkClosed(g: Graph, M: set<Obj>) {
    (forall x :: x in M ==> Succ(g, x) <= M) && (forall t :: RootDenotes(g, t) ==> t in M)
  }

  lemma TraceWith(g: Graph, M: set<Obj>, grey: set<Obj>, over: set<Obj>, T: set<Obj>)
    requires MarkClosed(g, M) && IsTrace(g, M, grey, T) && forall o :: o in over ==> Succ(g, o) <= T + over
    ensures IsTrace(g, M, grey + over + if over == {} then {} else Rescan(g, M), T + over)
  {
    hide Succ;
    assert Rescan(g, M) <= M;
  }

  lemma OverflowSucc(g: Graph, M: set<Obj>, table: seq<Entry>, over: set<Obj>, N1: set<Obj>, o: Obj)
    requires OverOk(g, M, table, over) && o in over && Marked(g, M, table, {}, N1)
    ensures Succ(g, o) <= N1 + {o}
  {
    hide Marked, Succ;
    var f :| f in table && f.obj == o && o !in M && !(Starts(g, f) <= M);
    OrderedClosed(g, M, table, {}, N1, f);
  }

  lemma OverflowMarks(g: Graph, M: set<Obj>, table: seq<Entry>, over: set<Obj>, M1: set<Obj>, N1: set<Obj>)
    requires MarkClosed(g, M) && Marked(g, M, table, over, M1) && Marked(g, M, table, {}, N1)
    ensures M1 == N1 + over
  {
    hide IsTrace, Succ, OverOk, MarkClosed, GreyOf, Rescan;
    forall o | o in over
      ensures Succ(g, o) <= N1 + over
    {
      OverflowSucc(g, M, table, over, N1, o);
    }
    assert Sources(g, M, table, {}) == GreyOf(g, M, table);
    TraceWith(g, M, GreyOf(g, M, table), over, N1);
    TraceUnique(g, M, Sources(g, M, table, over), M1, N1 + over);
  }

  /** Then a mark stack overflow delays exactly the objects it happens for. */
  lemma OverflowDelays(g: Graph, M: set<Obj>, table: seq<Entry>, over: set<Obj>, M1: set<Obj>, N1: set<Obj>, e: Entry)
    requires M <= g.heap.Keys && MarkClosed(g, M)
    requires Marked(g, M, table, over, M1) && Marked(g, M, table, {}, N1)
    ensures M1 == N1 + over
    ensures e in Queue(table, M1) <==> e in Queue(table, N1) && e.obj !in over
  {
    OverflowMarks(g, M, table, over, M1, N1);
    SplitMember(table, M1, e);
    SplitMember(table, N1, e);
  }

  /** ... and an object of a normally ordered table is queued exactly if it is registered, unmarked, the
      mark stack did not overflow for it, and no chain of pointers at all leads to it from a registered
      unmarked object. */
  lemma ClosedQueueExact(g: Graph, M: set<Obj>, table: seq<Entry>, over: set<Obj>, M1: set<Obj>, e: Entry)
    requires M <= g.heap.Keys && MarkClosed(g, M) && Objs(table) <= g.heap.Keys && Marked(g, M, table, over, M1)
    requires forall f :: f in table ==> f.proc == NormalProc
    ensures e in Queue(table, M1) <==>
              && e in table && e.obj !in M && e.obj !in over
              && (forall f :: f in table && f.obj !in M ==> !Leads(g, {}, f.obj, e.obj))
  {
    NormalQueueExact(g, M, table, over, M1, e);
    if e.obj !in M {
      forall a
        ensures Trail(g, {}, a, e.obj) <==> Trail(g, M, a, e.obj)
        ensures Trail(g, M, a, e.obj) ==> a !in M
      {
        ClosedTrail(g, M, a, e.obj);
      }
    }
  }

  lemma ClosedTrail(g: Graph, M: set<Obj>, a: Obj, t: Obj)
    requires MarkClosed(g, M) && t !in M
    ensures Trail(g, {}, a, t) <==> Trail(g, M, a, t)
    ensures Trail(g, M, a, t) ==> a !in M
  {
    if Trail(g, {}, a, t) {
      var p :| IsTrail(g, {}, p) && p[0] == a && p[|p| - 1] == t;
      OutsideMarks(g, M, p);
      assert IsTrail(g, M, p);
    }
    if Trail(g, M, a, t) {
      var p :| IsTrail(g, M, p) && p[0] == a && p[|p| - 1] == t;
      assert IsTrail(g, {}, p);
    }
  }

  lemma {:induction false} OutsideMarks(g: Graph, M: set<Obj>, p: seq<Obj>)
    requires MarkClosed(g, M) && IsTrail(g, {}, p) && p[|p| - 1] !in M
    ensures forall k :: 0 <= k < |p| ==> p[k] !in M
  {
    if |p| > 1 {
      var q := p[..|p| - 1];
      assert MEdge(g, p[|p| - 2], p[|p| - 1]);
      OutsideMarks(g, M, q);
      forall k | 0 <= k < |p|
        ensures p[k] !in M
      {
        if k < |q| {
          assert p[k] == q[k];
        }
      }
    }
  }

  /** Overflow does delay: f is registered and nothing leads to it, but it is marked and not queued. */
  lemma OverflowDelaysExample()
    ensures var f, t := Obj(1, 0), Obj(1, 1);
            var g := Graph(map[f := [Ptr(t)], t := [NonPtr]], map[1 := Block(Normal, 1)], [], {f, t}, {f});
            var table := [Entry(f, NormalProc)];
            && MarkClosed(g, {}) && !Leads(g, {}, f, f)
            && Marked(g, {}, table, {f}, {f, t}) && Queue(table, {f, t}) == []
            && Marked(g, {}, table, {}, {t}) && Queue(table, {t}) == table
  {
    var f, t := Obj(1, 0), Obj(1, 1);
    var g := Graph(map[f := [Ptr(t)], t := [NonPtr]], map[1 := Block(Normal, 1)], [], {f, t}, {f});
    var table := [Entry(f, NormalProc)];
    assert Denotes(g.heap[f][0], t);
    assert Succ(g, f) == {t} && Succ(g, t) == {};
    assert table[..0] == [] && GreyOf(g, {}, table) == {t};
    assert Rescan(g, {}) == {};
    assert table[0] in table && !(Starts(g, table[0]) <= {});
    if Leads(g, {}, f, f) {
      var a :| MEdge(g, f, a) && Trail(g, {}, a, f);
      var p :| IsTrail(g, {}, p) && p[0] == a && p[|p| - 1] == f;
      TrailInside(g, {}, {t}, p);
    }
  }

  // ---------------------------------------------------------------- what stays marked

  /** The successors of unordered objects are registered, or kept for another reason. */
  ghost predicate UnorderedKept(g: Graph, M: set<Obj>, table: seq<Entry>, over: set<Obj>) {
    forall e, t :: e in table && e.obj !in M && e.proc == NullProc && t in Succ(g, e.obj) ==>
      t in Objs(table) || Kept(g, M, table, over, t)
  }

  /** ... and the same for the pointers alone, without noise. */
  ghost predicate UnorderedPointersKept(g: Graph, M: set<Obj>, table: seq<Entry>, over: set<Obj>) {
    forall e, t :: e in table && e.obj !in M && e.proc == NullProc && Edge(g, e.obj, t) ==>
      t in Objs(table) || Kept(g, M, table, over, t)
  }

  /** Outside Java mode the marks stay closed exactly if every successor of a registered unmarked unordered
      object is itself registered, or was marked, or lies on a trail from something the pass marks from. */
  lemma NonJavaClosedIff(g: Graph, M: set<Obj>, table: seq<Entry>, over: set<Obj>, M1: set<Obj>)
    requires M <= g.heap.Keys && Objs(table) <= g.heap.Keys && Marked(g, M, table, over, M1)
    ensures ClosedAbove(g, M, M1 + Objs(Queue(table, M1))) <==> UnorderedKept(g, M, table, over)
  {
    var M3 := M1 + Objs(Queue(table, M1));
    KeptOrQueued(g, M, table, over, M1);
    if UnorderedKept(g, M, table, over) {
      forall x, t | x in M3 && x !in M && t in Succ(g, x)
        ensures t in M3
      {
        if x !in M1 {
          var e :| e in Queue(table, M1) && e.obj == x;
          SplitMember(table, M1, e);
          if e.proc != NullProc {
            OrderedClosed(g, M, table, over, M1, e);
          }
        }
      }
    }
    if ClosedAbove(g, M, M3) {
      forall e, t | e in table && e.obj !in M && e.proc == NullProc && t in Succ(g, e.obj)
        ensures t in M3
      {
        SplitMember(table, M1, e);
      }
    }
  }

  /** Newly marked objects point to marked ones if the queued unordered ones do, and the queued unordered
      ones do exactly if all unordered ones point to registered objects, or to objects kept anyway. */
  lemma NonJavaPointersIff(g: Graph, M: set<Obj>, table: seq<Entry>, over: set<Obj>, M1: set<Obj>)
    requires M <= g.heap.Keys && Objs(table) <= g.heap.Keys && Marked(g, M, table, over, M1)
    requires forall e, t :: e in table && Edge(g, e.obj, t) ==> t in g.heap
    ensures UnorderedPointersKept(g, M, table, over) <==>
              forall e, t :: e in Queue(table, M1) && e.proc == NullProc && Edge(g, e.obj, t) ==>
                t in M1 + Objs(Queue(table, M1))
  {
    var M3 := M1 + Objs(Queue(table, M1));
    KeptOrQueued(g, M, table, over, M1);
    if UnorderedPointersKept(g, M, table, over) {
      forall e, t | e in Queue(table, M1) && e.proc == NullProc && Edge(g, e.obj, t)
        ensures t in M3
      {
        QueuedNotMarked(g, M, table, over, M1, e);
      }
    }
    if forall e, t :: e in Queue(table, M1) && e.proc == NullProc && Edge(g, e.obj, t) ==> t in M3 {
      forall e, t | e in table && e.obj !in M && e.proc == NullProc && Edge(g, e.obj, t)
        ensures t in M3
      {
        SplitMember(table, M1, e);
        if e.obj in M1 {
          assert t in Succ(g, e.obj);
        }
      }
    }
  }

  lemma QueuedNotMarked(g: Graph, M: set<Obj>, table: seq<Entry>, over: set<Obj>, M1: set<Obj>, e: Entry)
    requires Marked(g, M, table, over, M1) && e in Queue(table, M1)
    ensures e in table && e.obj !in M1 && e.obj !in M
  {
    SplitMember(table, M1, e);
  }

  /** The marks outside Java mode, in terms of the input. */
  lemma KeptOrQueued(g: Graph, M: set<Obj>, table: seq<Entry>, over: set<Obj>, M1: set<Obj>)
    requires M <= g.heap.Keys && Objs(table) <= g.heap.Keys && Marked(g, M, table, over, M1)
    ensures forall t :: t in g.heap ==>
              (t in M1 + Objs(Queue(table, M1)) <==> t in Objs(table) || Kept(g, M, table, over, t))
  {
    forall t | t in g.heap
      ensures t in M1 + Objs(Queue(table, M1)) <==> t in Objs(table) || Kept(g, M, table, over, t)
    {
      KeptIff(g, M, table, over, M1, t);
      if t in Objs(table) {
        var e :| e in table && e.obj == t;
        SplitMember(table, M1, e);
      }
      if t in Objs(Queue(table, M1)) {
        var e :| e in Queue(table, M1) && e.obj == t;
        SplitMember(table, M1, e);
      }
    }
  }

  /** Whether an overflow happens cannot be known before the call: the marks stay closed in every case
      exactly if they do when there is none. */
  lemma NonJavaClosedAlways(g: Graph, M: set<Obj>, table: seq<Entry>)
    requires M <= g.heap.Keys && Objs(table) <= g.heap.Keys
    ensures (forall over, M1 :: Marked(g, M, table, over, M1) ==> ClosedAbove(g, M, M1 + Objs(Queue(table, M1)))) <==>
              UnorderedKept(g, M, table, {})
  {
    if UnorderedKept(g, M, table, {}) {
      forall over, M1 | Marked(g, M, table, over, M1)
        ensures ClosedAbove(g, M, M1 + Objs(Queue(table, M1)))
      {
        assert forall t :: Kept(g, M, table, {}, t) ==> Kept(g, M, table, over, t);
        NonJavaClosedIff(g, M, table, over, M1);
      }
    } else {
      var M1 := OnTrails(g, M, Sources(g, M, table, {}));
      TraceIsTrails(g, M, Sources(g, M, table, {}));
      assert Marked(g, M, table, {}, M1);
      NonJavaClosedIff(g, M, table, {}, M1);
    }
  }

  /** ... and it does fail: an unordered object that points to an otherwise unreachable one is queued,
      but its referent is left unmarked. */
  lemma NonJavaNoOrderCounterexample()
    ensures var f, t := Obj(1, 0), Obj(1, 1);
            var g := Graph(map[f := [Ptr(t)], t := [NonPtr]], map[1 := Block(Normal, 1)], [], {f, t}, {f});
            var table := [Entry(f, NullProc)];
            && Marked(g, {}, table, {}, {})
            && Queue(table, {}) == [Entry(f, NullProc)]
            && t in Succ(g, f) && t !in {} + Objs(Queue(table, {}))
            && !ClosedAbove(g, {}, {} + Objs(Queue(table, {})))
  {
    var f, t := Obj(1, 0), Obj(1, 1);
    var g := Graph(map[f := [Ptr(t)], t := [NonPtr]], map[1 := Block(Normal, 1)], [], {f, t}, {f});
    var table := [Entry(f, NullProc)];
    assert table[..0] == [];
    assert GreyOf(g, {}, table[..0]) == {};
    assert Queue(table[..0], {}) == [];
    assert Denotes(g.heap[f][0], t);
    assert Objs(Queue(table, {})) == {f};
  }

  /** After GC_finalize a surviving link watches a marked object and lies in a marked object or outside
      the heap; a link that is gone watched an unmarked object or lay in an unmarked one. */
  lemma LinksAfterFinalize(g: Graph, links: seq<Link>, M: set<Obj>, M3: set<Obj>, l: Link)
    requires M <= M3
    ensures l in DropDangling(g, KeepLinks(links, M), M3) <==>
              && l in links && l.target in M
              && (l.at.Field? && l.at.o in g.heap ==> l.at.o in M3)
  {
  }
}
