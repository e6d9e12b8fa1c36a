/** The work-stealing marker on the collector's own mark stack: what its threads do together, with the world stopped, is
    a step of the collector. */
module ParallelSteps {
  import opened Heap
  import opened Collector
  import opened CollectorSafety
  import P = ParallelMark

  /** The objects some words denote. */
  ghost function Denoted(g: Graph, ls: set<Loc>): (os: set<Obj>)
    ensures forall o :: o in os <==> o in g.heap && exists l :: l in ls && Denotes(WordAt(g, l), o)
  {
    set o | o in g.heap && exists l :: l in ls && Denotes(WordAt(g, l), o)
  }

  /** What marking from an entry with these words pushes: the entries of the unmarked objects they denote. */
  ghost function Pushed(s: State, ls: set<Loc>, name: map<Obj, P.Entry>): set<P.Entry> {
    set o | o in Denoted(s.g, ls) && o !in s.m.marks && Scannable(s.g, o) && o in name :: name[o]
  }

  /** The parallel marker starts on the mark stack of s. `words` are the words an entry stands for; `name` is the
      entry of an object. */
  ghost predicate Represents(s: State, p: P.State, words: map<P.Entry, set<Loc>>, name: map<Obj, P.Entry>) {
    && |p.stack| == |s.m.stack|
    && (forall i :: 0 <= i < |p.stack| ==> p.stack[i].entry in words && words[p.stack[i].entry] == s.m.stack[i])
    && (forall o :: Scannable(s.g, o) ==> o in name && name[o] in words && words[name[o]] == Fields(s.g, o))
    && (forall e :: e in words ==> P.Children(p, e) == Pushed(s, words[e], name))
  }

  /** The marks when the entries `done` have been marked from. */
  ghost function MarksAfter(s: State, done: set<P.Entry>, words: map<P.Entry, set<Loc>>): set<Obj> {
    s.m.marks + set o | o in s.g.heap && exists e :: e in done && e in words && o in Denoted(s.g, words[e])
  }

  /** The state GC_mark_some finds after GC_do_parallel_mark. */
  function After(s: State, marks: set<Obj>, dropped: bool): State {
    s.(m := s.m.(marks := marks, stack := [], objectsMarked := true,
                 ms := if dropped then MsInvalid else RootsPushed, covered := if dropped then {} else s.m.covered))
  }

  /** A pending word belongs to an entry the parallel marker starts from. */
  lemma PendingIsRoot(s: State, p: P.State, words: map<P.Entry, set<Loc>>, name: map<Obj, P.Entry>, l: Loc)
    requires P.Init(p) && Represents(s, p, words, name) && s.m.hand == {} && Pending(s.m, l)
    ensures exists e :: e in p.roots && e in words && l in words[e]
  {
    var k :| 0 <= k < |s.m.stack| && l in s.m.stack[k];
    assert p.stack[k].entry in p.roots;
  }

  /** Everything that has to be marked is. */
  lemma ClosedMarksAll(s: State, p: P.State, words: map<P.Entry, set<Loc>>, name: map<Obj, P.Entry>, done: set<P.Entry>)
    requires P.Init(p) && Represents(s, p, words, name) && s.m.hand == {} && s.m.marks <= s.g.heap.Keys
    requires P.Closed(p, done)
    ensures AllMarked(s, MarksAfter(s, done, words))
  {
    hide P.Init, P.Children;
    var marks := MarksAfter(s, done, words);
    forall l, o | Pending(s.m, l) && Denotes(WordAt(s.g, l), o) && o in s.g.heap
      ensures o in marks
    {
      PendingIsRoot(s, p, words, name, l);
      var e :| e in p.roots && e in words && l in words[e];
      assert e in done && o in Denoted(s.g, words[e]);
    }
    forall l: Loc, o | l.Field? && l.o in marks && l.o !in s.m.marks && Denotes(WordAt(s.g, l), o) && o in s.g.heap
      ensures o in marks
    {
      NewMarkIsDone(s, p, words, name, done, l.o);
      assert HasWord(s.g, l.o, l.i) && l in Fields(s.g, l.o);
      assert o in Denoted(s.g, words[name[l.o]]);
    }
  }

  /** The entry of a newly marked object with words has been marked from. */
  lemma NewMarkIsDone(s: State, p: P.State, words: map<P.Entry, set<Loc>>, name: map<Obj, P.Entry>, done: set<P.Entry>,
                      x: Obj)
    requires Represents(s, p, words, name) && P.Closed(p, done) && x in MarksAfter(s, done, words) && x !in s.m.marks
    ensures Scannable(s.g, x) ==>
              x in name && name[x] in words && words[name[x]] == Fields(s.g, x) && name[x] in done
  {
    hide P.Children;
    if Scannable(s.g, x) {
      var e :| e in done && e in words && x in Denoted(s.g, words[e]);
      assert name[x] in Pushed(s, words[e], name);
      assert name[x] in P.Children(p, e);
    }
  }

  /** Nothing else is: the entries that only denote objects of such a set are closed. */
  lemma OnlyThoseMarked(s: State, p: P.State, words: map<P.Entry, set<Loc>>, name: map<Obj, P.Entry>,
                        done: set<P.Entry>, S: set<Obj>)
    requires P.Init(p) && Represents(s, p, words, name) && AllMarked(s, S)
    requires forall within :: P.Closed(p, within) ==> done <= within
    ensures MarksAfter(s, done, words) <= S
  {
    var within := set e | e in words && Denoted(s.g, words[e]) <= S;
    forall e | e in p.roots
      ensures e in within
    {
      RootInside(s, p, words, name, S, e);
    }
    forall e, c | e in within && c in P.Children(p, e)
      ensures c in within
    {
      ChildInside(s, p, words, name, S, e, c);
    }
    assert P.Closed(p, within);
  }

  lemma RootInside(s: State, p: P.State, words: map<P.Entry, set<Loc>>, name: map<Obj, P.Entry>, S: set<Obj>,
                   e: P.Entry)
    requires P.Init(p) && Represents(s, p, words, name) && AllMarked(s, S) && e in p.roots
    ensures e in words && Denoted(s.g, words[e]) <= S
  {
    assert P.InGlobal(p.stack, e);
    var i: nat :| 0 <= i < |p.stack| && p.stack[i].entry == e;
    forall o | o in Denoted(s.g, words[e])
      ensures o in S
    {
      var l :| l in words[e] && Denotes(WordAt(s.g, l), o);
      assert l in s.m.stack[i] && Pending(s.m, l);
    }
  }

  lemma ChildInside(s: State, p: P.State, words: map<P.Entry, set<Loc>>, name: map<Obj, P.Entry>, S: set<Obj>,
                    e: P.Entry, c: P.Entry)
    requires Represents(s, p, words, name) && AllMarked(s, S)
    requires e in words && Denoted(s.g, words[e]) <= S && c in P.Children(p, e)
    ensures c in words && Denoted(s.g, words[c]) <= S
  {
    assert c in Pushed(s, words[e], name);
    var x :| x in Denoted(s.g, words[e]) && x !in s.m.marks && Scannable(s.g, x) && x in name && name[x] == c;
    forall o | o in Denoted(s.g, words[c])
      ensures o in S
    {
      var l :| l in words[c] && Denotes(WordAt(s.g, l), o);
      assert l in Fields(s.g, x);
    }
  }

  /** A finished parallel mark phase that started on the collector's mark stack, with the world stopped, is a step of
      the collector, however its threads interleaved and whether entries were dropped or not. Nothing is marked
      that did not have to be and, if none were dropped, everything that had to be is. */
  lemma ParallelMarkIsStep(s: State, run: seq<P.State>, steps: seq<P.Step>, k: nat, words: map<P.Entry, set<Loc>>,
                           name: map<Obj, P.Entry>)
    requires s.phase == Stopped && s.m.ms == RootsPushed && s.m.hand == {} && s.m.marks <= s.g.heap.Keys
    requires P.IsRun(run, steps) && k < |run| && run[k].phase.Finished? && Represents(s, run[0], words, name)
    ensures var marks, dropped := MarksAfter(s, run[k].done, words), run[k].invalid;
            && Takes(s, After(s, marks, dropped), SMarkAll(marks, dropped))
            && Steps(s, After(s, marks, dropped))
            && (!dropped ==> AllMarked(s, marks)) && forall S :: AllMarked(s, S) ==> marks <= S
  {
    hide P.Next, P.Init, P.Closed, AllMarked, Represents, Steps;
    var marks, dropped := MarksAfter(s, run[k].done, words), run[k].invalid;
    assert P.Init(run[0]);
    P.ParallelMarkIsExact(run, steps, k);
    if !dropped {
      ClosedMarksAll(s, run[0], words, name, run[k].done);
    }
    forall S | AllMarked(s, S)
      ensures marks <= S
    {
      OnlyThoseMarked(s, run[0], words, name, run[k].done, S);
    }
    StepsRefl(s);
    StepsAppend(s, s, After(s, marks, dropped), SMarkAll(marks, dropped));
  }

  /** So marking is complete: without dropped entries the next turn of GC_mark_some ends the mark phase with everything
      the client can reach marked. */
  lemma ParallelMarkCompletes(s: State, run: seq<P.State>, steps: seq<P.Step>, k: nat, words: map<P.Entry, set<Loc>>,
                              name: map<Obj, P.Entry>)
    requires Inv(s) && s.intact && s.phase == Stopped && s.m.ms == RootsPushed
    requires P.IsRun(run, steps) && k < |run| && run[k].phase.Finished? && Represents(s, run[0], words, name)
    requires !run[k].invalid && s.m.hand == {}
    ensures forall o :: ClientReachable(s.g, o) ==> o in MarksAfter(s, run[k].done, words)
  {
    hide P.IsRun, Represents, Steps, MarksAfter, Takes;
    var marks := MarksAfter(s, run[k].done, words);
    ParallelMarkIsStep(s, run, steps, k, words, name);
    var t := After(s, marks, false);
    StepKeeps(s, t, SMarkAll(marks, false));
    var u := t.(m := t.m.(ms := MsNone));
    assert Takes(t, u, SMarkDone) by {
      EndsMark(t, u);
    }
    StepKeeps(t, u, SMarkDone);
    CompleteMarksAll(u);
  }

  lemma EndsMark(t: State, u: State)
    requires t.phase == Stopped && t.m.ms == RootsPushed && t.m.stack == [] && t.m.hand == {}
    requires u == t.(m := t.m.(ms := MsNone))
    ensures Takes(t, u, SMarkDone)
  {
  }
}
