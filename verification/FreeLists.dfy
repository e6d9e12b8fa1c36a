/** The free lists that sweeping a block and building a new one leave in memory, against the objects the collector's
    steps put on its free list. */
module FreeLists {
  import opened Sizes
  import opened Arithmetic
  import opened Heap
  import opened Collector
  import W = Sweep

  /** Following the links from `head` gives the addresses `es`, and then `tail`. */
  ghost predicate IsList(mem: seq<nat>, base: nat, head: nat, es: seq<nat>, tail: nat)
    decreases |es|
  {
    if es == [] then head == tail
    else head == es[0] && base <= head < base + |mem| && IsList(mem, base, mem[head - base], es[1..], tail)
  }

  ghost predicate Descending(es: seq<nat>) {
    forall i, j :: 0 <= i < j < |es| ==> es[i] > es[j]
  }

  /** The unmarked objects among the first n, last one first. */
  ghost function DeadList(marks: seq<bool>, base: nat, sz: nat, n: nat): seq<nat> {
    if n == 0 then []
    else if W.Dead(marks, sz, n - 1) then [base + (n - 1) * sz] + DeadList(marks, base, sz, n - 1)
    else DeadList(marks, base, sz, n - 1)
  }

  /** If each dead object links to the dead one before it, they form the list. */
  lemma {:induction false} DeadAreListed(mem: seq<nat>, marks: seq<bool>, base: nat, sz: nat, list: nat, n: nat)
    requires |mem| == |marks|
    requires forall k: nat :: k < n && W.Dead(marks, sz, k) ==> mem[k * sz] == W.Previous(marks, base, sz, list, k)
    ensures IsList(mem, base, W.Previous(marks, base, sz, list, n), DeadList(marks, base, sz, n), list)
  {
    if n > 0 {
      DeadAreListed(mem, marks, base, sz, list, n - 1);
      if W.Dead(marks, sz, n - 1) {
        var es := DeadList(marks, base, sz, n);
        assert es[1..] == DeadList(marks, base, sz, n - 1);
      }
    }
  }

  /** The address of a dead object among the first n. */
  ghost predicate DeadAt(marks: seq<bool>, base: nat, sz: nat, n: nat, a: nat) {
    exists k: nat :: k < n && W.Dead(marks, sz, k) && a == base + k * sz
  }

  lemma {:induction false} DeadListMember(marks: seq<bool>, base: nat, sz: nat, n: nat, a: nat)
    ensures a in DeadList(marks, base, sz, n) <==> DeadAt(marks, base, sz, n, a)
  {
    hide W.Dead;
    if n > 0 {
      DeadListMember(marks, base, sz, n - 1, a);
      if DeadAt(marks, base, sz, n, a) && !DeadAt(marks, base, sz, n - 1, a) {
        var k: nat :| k < n && W.Dead(marks, sz, k) && a == base + k * sz;
        assert k == n - 1;
      }
      if DeadAt(marks, base, sz, n - 1, a) {
        var k: nat :| k < n - 1 && W.Dead(marks, sz, k) && a == base + k * sz;
        assert k < n;
      }
    }
  }

  lemma {:induction false} DeadListDescends(marks: seq<bool>, base: nat, sz: nat, n: nat)
    requires sz > 0
    ensures Descending(DeadList(marks, base, sz, n)) && W.DeadWords(marks, sz, n) == |DeadList(marks, base, sz, n)| * sz
  {
    if n > 0 {
      DeadListDescends(marks, base, sz, n - 1);
      var before, es := DeadList(marks, base, sz, n - 1), DeadList(marks, base, sz, n);
      if W.Dead(marks, sz, n - 1) {
        assert es == [base + (n - 1) * sz] + before;
        forall i | 0 <= i < |before|
          ensures before[i] < base + (n - 1) * sz
        {
          BelowNext(marks, base, sz, n - 1, before[i]);
        }
        assert |es| * sz == |before| * sz + sz;
      }
    }
  }

  lemma BelowNext(marks: seq<bool>, base: nat, sz: nat, n: nat, a: nat)
    requires sz > 0 && a in DeadList(marks, base, sz, n)
    ensures a < base + n * sz
  {
    hide W.Dead;
    DeadListMember(marks, base, sz, n, a);
    var k: nat :| k < n && W.Dead(marks, sz, k) && a == base + k * sz;
    assert (k + 1) * sz <= n * sz && (k + 1) * sz == k * sz + sz;
  }

  /** Object k of a block of objects of sz words. */
  ghost predicate IsObject(b: nat, sz: nat, k: nat, o: Obj)
    requires sz > 0
  {
    k < HBLK_WORDS / sz && o == Obj(b, k * sz)
  }

  /** The block is laid out in objects of sz words, and `marks` are its mark bits. */
  ghost predicate Holds(s: State, b: nat, sz: nat, marks: seq<bool>) {
    && 0 < sz <= HBLK_WORDS && |marks| == HBLK_WORDS
    && (forall o :: o in s.g.heap && o.block == b <==> exists k: nat :: IsObject(b, sz, k, o))
    && (forall i :: 0 <= i < HBLK_WORDS ==> (marks[i] <==> Obj(b, i) in s.m.marks))
  }

  lemma FitsBlock(sz: nat, k: nat)
    requires 0 < sz && k < HBLK_WORDS / sz
    ensures k * sz + sz <= HBLK_WORDS
  {
    W.AllFit(sz);
    assert (k + 1) * sz <= HBLK_WORDS / sz * sz && (k + 1) * sz == k * sz + sz;
  }

  /** The list a sweep of block b leaves in memory holds exactly the addresses of the objects the collector's sweep
      step frees, each once, in front of the old list; and it counts their words. */
  lemma SweepListsSwept(s: State, b: nat, mem: seq<nat>, marks: seq<bool>, base: nat, sz: nat, clear: bool, list: nat)
    requires Holds(s, b, sz, marks) && |mem| == HBLK_WORDS
    ensures var r, es := W.SweptBlock(mem, marks, base, sz, clear, list), DeadList(marks, base, sz, HBLK_WORDS / sz);
            && IsList(r.mem, base, r.list, es, list) && Descending(es) && r.words == |es| * sz
            && forall a :: a in es <==> exists o :: o in Swept(s, b) && a == base + o.off
  {
    hide IsList, Descending, W.SweepTo, W.Previous, W.DeadWords;
    var n := HBLK_WORDS / sz;
    var r, es := W.SweptBlock(mem, marks, base, sz, clear, list), DeadList(marks, base, sz, n);
    W.AllFit(sz);
    W.SweepMeaning(mem, marks, base, sz, clear, list, n, 0, 0);
    forall k: nat | k < n && W.Dead(marks, sz, k)
      ensures r.mem[k * sz] == W.Previous(marks, base, sz, list, k)
    {
      W.SweepMeaning(mem, marks, base, sz, clear, list, n, k, 0);
    }
    DeadAreListed(r.mem, marks, base, sz, list, n);
    DeadListDescends(marks, base, sz, n);
    forall a
      ensures a in es <==> exists o :: o in Swept(s, b) && a == base + o.off
    {
      DeadListMember(marks, base, sz, n, a);
      DeadIsSwept(s, b, sz, marks, base, a);
    }
  }

  lemma DeadIsSwept(s: State, b: nat, sz: nat, marks: seq<bool>, base: nat, a: nat)
    requires Holds(s, b, sz, marks)
    ensures DeadAt(marks, base, sz, HBLK_WORDS / sz, a) <==>
              exists o :: o in Swept(s, b) && a == base + o.off
  {
    if DeadAt(marks, base, sz, HBLK_WORDS / sz, a) {
      var k: nat :| k < HBLK_WORDS / sz && W.Dead(marks, sz, k) && a == base + k * sz;
      var o := Obj(b, k * sz);
      FitsBlock(sz, k);
      assert IsObject(b, sz, k, o);
      assert o in Swept(s, b);
    }
    if o :| o in Swept(s, b) && a == base + o.off {
      var k: nat :| IsObject(b, sz, k, o);
      FitsBlock(sz, k);
      assert W.Dead(marks, sz, k);
    }
  }

  // ---------------------------------------------------------------- new blocks

  ghost function ObjectsOf(b: nat, sz: nat): (os: set<Obj>)
    requires sz > 0
    ensures forall o :: o in os <==> exists k: nat :: IsObject(b, sz, k, o)
  {
    var os := set k: nat | k < HBLK_WORDS / sz && IsObject(b, sz, k, Obj(b, k * sz)) :: Obj(b, k * sz);
    assert forall k: nat, o :: IsObject(b, sz, k, o) ==> o == Obj(b, k * sz) && o in os;
    os
  }

  /** The objects of a new block of objects of sz words. */
  ghost function NewObjects(b: nat, sz: nat): map<Obj, seq<Word>>
    requires sz > 0
  {
    map o | o in ObjectsOf(b, sz) :: seq(sz, i => NonPtr)
  }

  lemma ObjectsApart(b: nat, sz: nat, o: Obj, p: Obj)
    requires sz > 0 && o in ObjectsOf(b, sz) && p in ObjectsOf(b, sz)
    ensures o.block == b && o.off + sz <= HBLK_WORDS
    ensures o.off < p.off ==> o.off + sz <= p.off
  {
    var k: nat :| IsObject(b, sz, k, o);
    var m: nat :| IsObject(b, sz, m, p);
    FitsBlock(sz, k);
    if k * sz < m * sz {
      FewerMultiples(k, m, sz);
      assert (k + 1) * sz <= m * sz && (k + 1) * sz == k * sz + sz;
    }
  }

  lemma NewObjectsLaidOut(b: nat, kind: Kind, sz: nat)
    requires 0 < sz <= HBLK_WORDS
    ensures LaidOut(b, Block(kind, 1), NewObjects(b, sz))
  {
    hide ObjectsOf;
    var objs := NewObjects(b, sz);
    forall o, p | o in objs && p in objs
      ensures o.block == b && o.off + sz <= HBLK_WORDS && (o.off < p.off ==> o.off + sz <= p.off)
    {
      ObjectsApart(b, sz, o, p);
    }
    assert forall o :: o in objs ==> |objs[o]| == sz;
  }

  /** The address of the last object, at which the list of a new block starts. */
  ghost function LastObject(base: nat, sz: nat): nat
    requires 0 < sz <= HBLK_WORDS
  {
    base + (HBLK_WORDS / sz - 1) * sz
  }

  /** The link in an object of a new block. */
  lemma BuiltLink(mem: seq<nat>, mem': seq<nat>, base: nat, sz: nat, clear: bool, tail: bool, list: nat, k: nat)
    requires 0 < sz <= HBLK_WORDS && W.BuiltUpTo(mem, mem', base, sz, clear, tail, list, HBLK_WORDS)
    requires k < HBLK_WORDS / sz
    ensures k * sz < HBLK_WORDS && mem'[k * sz] == W.Previous(Unmarked(), base, sz, list, k)
  {
    hide W.Previous;
    FitsBlock(sz, k);
    Remainder(k, sz, 0);
    W.PreviousUnmarked(Unmarked(), base, sz, list, k);
  }

  /** The list GC_build_fl leaves in memory holds exactly the addresses of the objects that a new block adds to the
      collector's free objects, each once, in front of the old list. */
  lemma BuildListsNew(b: nat, kind: Kind, mem: seq<nat>, mem': seq<nat>, base: nat, sz: nat, clear: bool, tail: bool,
                      list: nat)
    requires 0 < sz <= HBLK_WORDS && W.BuiltUpTo(mem, mem', base, sz, clear, tail, list, HBLK_WORDS)
    ensures var es, objs := DeadList(Unmarked(), base, sz, HBLK_WORDS / sz), NewObjects(b, sz);
            && IsList(mem', base, LastObject(base, sz), es, list) && Descending(es)
            && LaidOut(b, Block(kind, 1), objs)
            && forall a :: a in es <==> exists o :: o in objs && a == base + o.off
  {
    hide IsList, Descending, W.Previous, W.DeadWords, W.BuiltWord, LaidOut, NewObjects;
    var n, marks := HBLK_WORDS / sz, Unmarked();
    forall k: nat | k < n
      ensures k * sz < HBLK_WORDS && mem'[k * sz] == W.Previous(marks, base, sz, list, k)
    {
      BuiltLink(mem, mem', base, sz, clear, tail, list, k);
    }
    W.AllFit(sz);
    W.PreviousUnmarked(marks, base, sz, list, n);
    DeadAreListed(mem', marks, base, sz, list, n);
    DeadListDescends(marks, base, sz, n);
    NewObjectsLaidOut(b, kind, sz);
    forall a
      ensures a in DeadList(marks, base, sz, n) <==> exists o :: o in NewObjects(b, sz) && a == base + o.off
    {
      DeadListMember(marks, base, sz, n, a);
      NewIsListed(b, sz, base, a);
    }
  }

  ghost function Unmarked(): (marks: seq<bool>)
    ensures |marks| == HBLK_WORDS && forall i :: 0 <= i < HBLK_WORDS ==> !marks[i]
  {
    seq(HBLK_WORDS, i => false)
  }

  lemma NewIsListed(b: nat, sz: nat, base: nat, a: nat)
    requires 0 < sz <= HBLK_WORDS
    ensures DeadAt(Unmarked(), base, sz, HBLK_WORDS / sz, a) <==>
              exists o :: o in NewObjects(b, sz) && a == base + o.off
  {
    if DeadAt(Unmarked(), base, sz, HBLK_WORDS / sz, a) {
      var k: nat :| k < HBLK_WORDS / sz && W.Dead(Unmarked(), sz, k) && a == base + k * sz;
      assert IsObject(b, sz, k, Obj(b, k * sz));
      assert Obj(b, k * sz) in NewObjects(b, sz);
    }
    if o :| o in NewObjects(b, sz) && a == base + o.off {
      var k: nat :| IsObject(b, sz, k, o);
      FitsBlock(sz, k);
      assert W.Dead(Unmarked(), sz, k);
    }
  }
}
