/** Sweeping a block of small objects, and building the free list of a new one. A block is an array of words; the
    address of its word i is base + i, and a free object holds in its first word the address of the next one. */
module Sweep {
  import opened Sizes
  import opened Arithmetic

  /** The block, the head of the free list, and the number of words found. */
  datatype Swept = Swept(mem: seq<nat>, list: nat, words: nat)

  function Zeroed(mem: seq<nat>, lo: nat, hi: nat): (r: seq<nat>)
    requires hi <= |mem|
    ensures |r| == |mem|
    ensures forall i :: 0 <= i < |mem| ==> r[i] == if lo <= i < hi then 0 else mem[i]
    decreases hi - lo
  {
    if lo >= hi then mem else Zeroed(mem[lo := 0], lo + 1, hi)
  }

  /** An object at word `at` is put on the list unless it is marked. */
  function SweepOne(s: Swept, marked: bool, base: nat, sz: nat, clear: bool, at: nat): (r: Swept)
    requires 0 < sz && at + sz <= |s.mem|
    ensures |r.mem| == |s.mem|
  {
    if marked then s
    else Swept(if clear then Zeroed(s.mem[at := s.list], at + 1, at + sz)
      else s.mem[at := s.list], base + at, s.words + sz)
  }

  /** The reference sweep: the first n objects in address order. */
  function SweepTo(mem: seq<nat>, marks: seq<bool>, base: nat, sz: nat, clear: bool, list: nat, n: nat): (r: Swept)
    requires sz > 0 && n * sz <= |mem| && |marks| == |mem|
    ensures |r.mem| == |mem|
  {
    if n == 0 then Swept(mem, list, 0)
    else
      assert n * sz == (n - 1) * sz + sz;
      SweepOne(SweepTo(mem, marks, base, sz, clear, list, n - 1), marks[(n - 1) * sz], base, sz, clear, (n - 1) * sz)
  }

  // ---------------------------------------------------------------- what the reference sweep does

  ghost predicate Dead(marks: seq<bool>, sz: nat, k: nat) {
    k * sz < |marks| && !marks[k * sz]
  }

  /** Where the sweep of n objects leaves the head of the list: at the last dead one. */
  function Previous(marks: seq<bool>, base: nat, sz: nat, list: nat, n: nat): nat {
    if n == 0 then list
    else if (n - 1) * sz < |marks| && !marks[(n - 1) * sz] then base + (n - 1) * sz
    else Previous(marks, base, sz, list, n - 1)
  }

  function DeadWords(marks: seq<bool>, sz: nat, n: nat): nat {
    if n == 0 then 0 else DeadWords(marks, sz, n - 1) + if (n - 1) * sz < |marks| && !marks[(n - 1) * sz] then sz else 0
  }

  /** A dead object links to the dead object before it, its other words are cleared if asked for, and everything else
      is as it was. */
  ghost predicate SweptWord(mem: seq<nat>, marks: seq<bool>, base: nat, sz: nat, clear: bool, list: nat, n: nat,
                            k: nat, d: nat, w: nat)
    requires k * sz + d < |mem|
  {
    if k < n && Dead(marks, sz, k)
    then (if d == 0 then w == Previous(marks, base, sz, list, k) else if clear then w == 0 else w == mem[k * sz + d])
    else w == mem[k * sz + d]
  }

  lemma {:induction false} SweepMeaning(mem: seq<nat>, marks: seq<bool>, base: nat, sz: nat, clear: bool, list: nat,
                                        n: nat, k: nat, d: nat)
    requires sz > 0 && n * sz <= |mem| && |marks| == |mem| && d < sz && k * sz + d < |mem|
    ensures var r := SweepTo(mem, marks, base, sz, clear, list, n);
            && r.list == Previous(marks, base, sz, list, n) && r.words == DeadWords(marks, sz, n)
            && SweptWord(mem, marks, base, sz, clear, list, n, k, d, r.mem[k * sz + d])
  {
    if n > 0 {
      assert n * sz == (n - 1) * sz + sz;
      SweepMeaning(mem, marks, base, sz, clear, list, n - 1, k, d);
      if k != n - 1 {
        Apart(k, n - 1, sz, d);
      }
    }
  }

  lemma Apart(k: nat, m: nat, sz: nat, d: nat)
    requires k != m && d < sz
    ensures !(m * sz <= k * sz + d < m * sz + sz)
  {
    if k < m {
      assert (k + 1) * sz <= m * sz && (k + 1) * sz == k * sz + sz;
    } else {
      assert (m + 1) * sz <= k * sz && (m + 1) * sz == m * sz + sz;
    }
  }

  // ---------------------------------------------------------------- the sweeps

  /** What a sweep starts from. */
  datatype Start = Start(mem: seq<nat>, marks: seq<bool>, base: nat, sz: nat, clear: bool, list: nat)

  ghost predicate StartOk(s0: Start) {
    |s0.mem| == |s0.marks| == HBLK_WORDS && 0 < s0.sz <= HBLK_WORDS
  }

  /** The first n objects have been swept. */
  ghost predicate Done(s0: Start, n: nat, mem: seq<nat>, list: nat, words: nat) {
    && StartOk(s0) && n * s0.sz <= HBLK_WORDS
    && Swept(mem, list, words) == SweepTo(s0.mem, s0.marks, s0.base, s0.sz, s0.clear, s0.list, n)
  }

  lemma DoneNext(s0: Start, n: nat, mem: seq<nat>, list: nat, words: nat, at: nat, mem': seq<nat>, list': nat,
                 words': nat)
    requires Done(s0, n, mem, list, words) && at == n * s0.sz && at + s0.sz <= HBLK_WORDS
    requires Swept(mem', list', words') == SweepOne(Swept(mem, list, words), s0.marks[at], s0.base, s0.sz, s0.clear, at)
    ensures Done(s0, n + 1, mem', list', words')
  {
    assert (n + 1) * s0.sz == n * s0.sz + s0.sz;
  }

  /** Clears the words lo up to hi. */
  method ClearWords(mem: array<nat>, lo: nat, hi: nat)
    requires lo <= hi <= mem.Length
    modifies mem
    ensures mem[..] == Zeroed(old(mem[..]), lo, hi)
  {
    hide Zeroed;
    var q := lo;
    while q < hi
      invariant lo <= q <= hi
      invariant forall i :: 0 <= i < mem.Length ==> mem[i] == if lo <= i < q then 0 else old(mem[i])
    {
      mem[q] := 0;
      q := q + 1;
    }
    assert mem[..] == Zeroed(old(mem[..]), lo, hi);
  }

  /** The body of the loop in the generic sweeps, GC_reclaim_clear and GC_reclaim_uninit. */
  method DoObj(mem: array<nat>, base: nat, sz: nat, clear: bool, at: nat, marked: bool, list: nat, words: nat,
               ghost s0: Start, ghost n: nat)
    returns (list': nat, words': nat)
    requires mem.Length == HBLK_WORDS && Done(s0, n, mem[..], list, words)
    requires base == s0.base && sz == s0.sz && clear == s0.clear && at == n * sz && at + sz <= HBLK_WORDS
    requires marked == s0.marks[at]
    modifies mem
    ensures Done(s0, n + 1, mem[..], list', words')
  {
    hide Done, SweepTo, Zeroed;
    assert 0 < sz && at < HBLK_WORDS && |s0.marks| == HBLK_WORDS by {
      DoneFacts(s0, n, mem[..], list, words);
    }
    ghost var m0 := mem[..];
    list', words' := list, words;
    if !marked {
      words' := words' + sz;
      mem[at] := list;
      list' := base + at;
      assert mem[..] == m0[at := list];
      if clear {
        ClearWords(mem, at + 1, at + sz);
      }
    }
    DoneNext(s0, n, m0, list, words, at, mem[..], list', words');
  }

  lemma DoneFacts(s0: Start, n: nat, mem: seq<nat>, list: nat, words: nat)
    requires Done(s0, n, mem, list, words)
    ensures StartOk(s0) && n * s0.sz <= HBLK_WORDS && |mem| == HBLK_WORDS
  {
  }

  /** GC_reclaim_clear, and GC_reclaim_uninit without `clear`. */
  method ReclaimGenericLoop(mem: array<nat>, marks: seq<bool>, base: nat, sz: nat, clear: bool,
                            list: nat) returns (list': nat, words: nat)
    requires mem.Length == |marks| == HBLK_WORDS && 0 < sz <= HBLK_WORDS
    modifies mem
    ensures Done(Start(old(mem[..]), marks, base, sz, clear, list), HBLK_WORDS / sz, mem[..], list', words)
  {
    ghost var s0 := Start(mem[..], marks, base, sz, clear, list);
    list', words := list, 0;
    var p := 0;
    ghost var n := 0;
    while p <= HBLK_WORDS - sz
      invariant p == n * sz <= HBLK_WORDS && Done(s0, n, mem[..], list', words)
    {
      list', words := DoObj(mem, base, sz, clear, p, marks[p], list', words, s0, n);
      p := p + sz;
      n := n + 1;
    }
    LastObject(n, sz);
  }

  lemma LastObject(n: nat, sz: nat)
    requires sz > 0 && n * sz <= HBLK_WORDS < n * sz + sz
    ensures HBLK_WORDS / sz == n
  {
    assert (n + 1) * sz == n * sz + sz;
    Quotient(HBLK_WORDS, sz, n);
  }

  /** DO_OBJ of the unrolled sweeps: the link is stored, and the other words are cleared one by one. */
  method DoObjUnrolled(mem: array<nat>, base: nat, sz: nat, clear: bool, at: nat, marked: bool, list: nat, words: nat,
                       ghost s0: Start, ghost n: nat)
    returns (list': nat, words': nat)
    requires mem.Length == HBLK_WORDS && Done(s0, n, mem[..], list, words) && (sz == 1 || sz == 2 || sz == 4)
    requires base == s0.base && sz == s0.sz && (sz > 1 ==> clear == s0.clear) && at == n * sz &&
             at + sz <= HBLK_WORDS && marked == s0.marks[at]
    modifies mem
    ensures Done(s0, n + 1, mem[..], list', words')
  {
    hide Done, SweepTo, Zeroed;
    assert 0 < sz && at < HBLK_WORDS && |s0.marks| == HBLK_WORDS by {
      DoneFacts(s0, n, mem[..], list, words);
    }
    ghost var m0 := mem[..];
    list', words' := list, words;
    if !marked {
      mem[at] := list;
      list' := base + at;
      if clear && sz >= 2 {
        mem[at + 1] := 0;
        if sz == 4 {
          mem[at + 2] := 0;
          mem[at + 3] := 0;
        }
      }
      words' := words' + sz;
      assert mem[..] == if clear && sz > 1 then Zeroed(m0[at := list], at + 1, at + sz) else m0[at := list];
    }
    DoneNext(s0, n, m0, list, words, at, mem[..], list', words');
  }

  /** GC_reclaim1: four objects at a time, the mark word shifted by four. */
  method Reclaim1(mem: array<nat>, marks: seq<bool>, base: nat, ghost clear: bool, list: nat) returns (list': nat,
                  words: nat)
    requires mem.Length == |marks| == HBLK_WORDS
    modifies mem
    ensures Done(Start(old(mem[..]), marks, base, 1, clear, list), HBLK_WORDS, mem[..], list', words)
  {
    hide Done;
    ghost var s0 := Start(mem[..], marks, base, 1, clear, list);
    list', words := list, 0;
    NothingSwept(s0);
    var p, w := 0, 0;
    while p < HBLK_WORDS
      invariant p == w * WORDSZ <= HBLK_WORDS && Done(s0, p, mem[..], list', words)
    {
      var markWord := marks[w * WORDSZ..(w + 1) * WORDSZ];
      w := w + 1;
      var i := 0;
      while i < WORDSZ
        invariant 0 <= i <= WORDSZ && i % 4 == 0 && p == (w - 1) * WORDSZ + i && Done(s0, p, mem[..], list', words)
        invariant w * WORDSZ <= HBLK_WORDS && markWord == marks[p..w * WORDSZ]
      {
        list', words := DoObjUnrolled(mem, base, 1, false, p, markWord[0], list', words, s0, p);
        list', words := DoObjUnrolled(mem, base, 1, false, p + 1, markWord[1], list', words, s0, p + 1);
        list', words := DoObjUnrolled(mem, base, 1, false, p + 2, markWord[2], list', words, s0, p + 2);
        list', words := DoObjUnrolled(mem, base, 1, false, p + 3, markWord[3], list', words, s0, p + 3);
        p := p + 4;
        markWord := markWord[4..];
        i := i + 4;
      }
    }
  }

  /** GC_reclaim_clear2 and GC_reclaim_uninit2: eight words at a time. */
  method Reclaim2(mem: array<nat>, marks: seq<bool>, base: nat, clear: bool, list: nat) returns (list': nat, words: nat)
    requires mem.Length == |marks| == HBLK_WORDS
    modifies mem
    ensures Done(Start(old(mem[..]), marks, base, 2, clear, list), HBLK_WORDS / 2, mem[..], list', words)
  {
    hide Done;
    ghost var s0 := Start(mem[..], marks, base, 2, clear, list);
    list', words := list, 0;
    NothingSwept(s0);
    var p, w := 0, 0;
    ghost var n := 0;
    while p < HBLK_WORDS
      invariant p == w * WORDSZ == 2 * n <= HBLK_WORDS && Done(s0, n, mem[..], list', words)
    {
      var markWord := marks[w * WORDSZ..(w + 1) * WORDSZ];
      w := w + 1;
      var i := 0;
      while i < WORDSZ
        invariant 0 <= i <= WORDSZ && i % 8 == 0 && p == (w - 1) * WORDSZ + i == 2 * n
        invariant Done(s0, n, mem[..], list', words)
        invariant w * WORDSZ <= HBLK_WORDS && markWord == marks[p..w * WORDSZ]
      {
        list', words := DoObjUnrolled(mem, base, 2, clear, p, markWord[0], list', words, s0, n);
        list', words := DoObjUnrolled(mem, base, 2, clear, p + 2, markWord[2], list', words, s0, n + 1);
        list', words := DoObjUnrolled(mem, base, 2, clear, p + 4, markWord[4], list', words, s0, n + 2);
        list', words := DoObjUnrolled(mem, base, 2, clear, p + 6, markWord[6], list', words, s0, n + 3);
        p := p + 8;
        n := n + 4;
        markWord := markWord[8..];
        i := i + 8;
      }
    }
  }

  /** GC_reclaim_clear4 and GC_reclaim_uninit4: a mark word, and so 32 words, at a time. */
  method Reclaim4(mem: array<nat>, marks: seq<bool>, base: nat, clear: bool, list: nat) returns (list': nat, words: nat)
    requires mem.Length == |marks| == HBLK_WORDS
    modifies mem
    ensures Done(Start(old(mem[..]), marks, base, 4, clear, list), HBLK_WORDS / 4, mem[..], list', words)
  {
    hide Done;
    ghost var s0 := Start(mem[..], marks, base, 4, clear, list);
    list', words := list, 0;
    NothingSwept(s0);
    var p, w := 0, 0;
    ghost var n := 0;
    while p < HBLK_WORDS
      invariant p == w * WORDSZ == 4 * n <= HBLK_WORDS && Done(s0, n, mem[..], list', words)
    {
      var markWord := marks[w * WORDSZ..(w + 1) * WORDSZ];
      w := w + 1;
      list', words := DoObjUnrolled(mem, base, 4, clear, p, markWord[0], list', words, s0, n);
      list', words := DoObjUnrolled(mem, base, 4, clear, p + 4, markWord[4], list', words, s0, n + 1);
      list', words := DoObjUnrolled(mem, base, 4, clear, p + 8, markWord[8], list', words, s0, n + 2);
      list', words := DoObjUnrolled(mem, base, 4, clear, p + 12, markWord[12], list', words, s0, n + 3);
      list', words := DoObjUnrolled(mem, base, 4, clear, p + 16, markWord[16], list', words, s0, n + 4);
      list', words := DoObjUnrolled(mem, base, 4, clear, p + 20, markWord[20], list', words, s0, n + 5);
      list', words := DoObjUnrolled(mem, base, 4, clear, p + 24, markWord[24], list', words, s0, n + 6);
      list', words := DoObjUnrolled(mem, base, 4, clear, p + 28, markWord[28], list', words, s0, n + 7);
      p := p + WORDSZ;
      n := n + 8;
    }
  }

  lemma NothingSwept(s0: Start)
    requires StartOk(s0)
    ensures Done(s0, 0, s0.mem, s0.list, 0)
  {
  }

  /** GC_reclaim_generic: whichever sweep it chooses, the result is that of the reference sweep of all objects. */
  method ReclaimGeneric(mem: array<nat>, marks: seq<bool>, base: nat, sz: nat, init: bool,
                        list: nat) returns (list': nat, words: nat)
    requires mem.Length == |marks| == HBLK_WORDS && 0 < sz <= HBLK_WORDS
    modifies mem
    ensures Swept(mem[..], list', words) == SweptBlock(old(mem[..]), marks, base, sz, init, list)
  {
    AllFit(sz);
    if sz == 1 {
      list', words := Reclaim1(mem, marks, base, init, list);
    } else if sz == 2 {
      list', words := Reclaim2(mem, marks, base, init, list);
    } else if sz == 4 {
      list', words := Reclaim4(mem, marks, base, init, list);
    } else {
      list', words := ReclaimGenericLoop(mem, marks, base, sz, init, list);
    }
  }

  lemma AllFit(sz: nat)
    requires sz > 0
    ensures HBLK_WORDS / sz * sz <= HBLK_WORDS
  {
  }

  /** The reference sweep of a whole block. */
  function SweptBlock(mem: seq<nat>, marks: seq<bool>, base: nat, sz: nat, clear: bool, list: nat): Swept
    requires sz > 0 && |mem| == |marks| == HBLK_WORDS
  {
    AllFit(sz);
    SweepTo(mem, marks, base, sz, clear, list, HBLK_WORDS / sz)
  }

  // ---------------------------------------------------------------- the free list of a new block

  /** Word i of a block on whose free list are all its objects, linked in descending address order and ending in
      `list`. */
  function BuiltWord(mem: seq<nat>, base: nat, sz: nat, clear: bool, clearTail: bool, list: nat, i: nat): nat
    requires sz > 0 && i < |mem|
  {
    var k, d := i / sz, i % sz;
    if k >= HBLK_WORDS / sz then (if clearTail then 0 else mem[i])
    else if d == 0 then (if k == 0 then list else base + (k - 1) * sz)
    else if clear then 0 else mem[i]
  }

  ghost predicate BuiltUpTo(mem: seq<nat>, mem': seq<nat>, base: nat, sz: nat, clear: bool, clearTail: bool, list: nat,
                            n: nat) {
    && |mem| == |mem'| == HBLK_WORDS && sz > 0
    && forall i :: 0 <= i < HBLK_WORDS ==> mem'[i] == if i < n then BuiltWord(mem, base, sz, clear, clearTail, list, i)
      else mem[i]
  }

  /** The words p up to q have been written as they should be. */
  lemma BuiltMore(mem: seq<nat>, m1: seq<nat>, m2: seq<nat>, base: nat, sz: nat, clear: bool, clearTail: bool,
                  list: nat, p: nat, q: nat)
    requires BuiltUpTo(mem, m1, base, sz, clear, clearTail, list, p) && p <= q <= HBLK_WORDS == |m2|
    requires forall i :: 0 <= i < HBLK_WORDS && !(p <= i < q) ==> m2[i] == m1[i]
    requires forall i :: p <= i < q ==> m2[i] == BuiltWord(mem, base, sz, clear, clearTail, list, i)
    ensures BuiltUpTo(mem, m2, base, sz, clear, clearTail, list, q)
  {
    hide BuiltWord;
  }

  /** Two more objects of two words have been linked, and nothing else changed. */
  lemma LinkTwo2(mem: seq<nat>, m1: seq<nat>, m2: seq<nat>, base: nat, list: nat, p: nat)
    requires BuiltUpTo(mem, m1, base, 2, false, false, list, p) && p % 4 == 0 && p + 4 <= HBLK_WORDS
    requires m2 == m1[p := if p == 0 then list else base + p - 2][p + 2 := base + p]
    ensures BuiltUpTo(mem, m2, base, 2, false, false, list, p + 4)
  {
    hide BuiltWord;
    forall i: nat | p <= i < p + 4
      ensures m2[i] == BuiltWord(mem, base, 2, false, false, list, i)
    {
      assert m1[i] == mem[i];
      PairWord2(mem, base, list, p, i);
    }
    BuiltMore(mem, m1, m2, base, 2, false, false, list, p, p + 4);
  }

  lemma PairWord2(mem: seq<nat>, base: nat, list: nat, p: nat, i: nat)
    requires |mem| == HBLK_WORDS && p % 4 == 0 && p <= i < p + 4 <= HBLK_WORDS
    ensures BuiltWord(mem, base, 2, false, false, list, i)
            == if i == p then (if p == 0 then list else base + p - 2) else if i == p + 2 then base + p else mem[i]
  {
  }

  /** Two more objects of four words have been linked, and nothing else changed. */
  lemma LinkTwo4(mem: seq<nat>, m1: seq<nat>, m2: seq<nat>, base: nat, list: nat, p: nat)
    requires BuiltUpTo(mem, m1, base, 4, false, false, list, p) && p % 8 == 0 && p + 8 <= HBLK_WORDS
    requires m2 == m1[p := if p == 0 then list else base + p - 4][p + 4 := base + p]
    ensures BuiltUpTo(mem, m2, base, 4, false, false, list, p + 8)
  {
    hide BuiltWord;
    forall i: nat | p <= i < p + 8
      ensures m2[i] == BuiltWord(mem, base, 4, false, false, list, i)
    {
      assert m1[i] == mem[i];
      PairWord4(mem, base, list, p, i);
    }
    BuiltMore(mem, m1, m2, base, 4, false, false, list, p, p + 8);
  }

  lemma PairWord4(mem: seq<nat>, base: nat, list: nat, p: nat, i: nat)
    requires |mem| == HBLK_WORDS && p % 8 == 0 && p <= i < p + 8 <= HBLK_WORDS
    ensures BuiltWord(mem, base, 4, false, false, list, i)
            == if i == p then (if p == 0 then list else base + p - 4) else if i == p + 4 then base + p else mem[i]
  {
  }

  lemma BuiltNone(mem: seq<nat>, base: nat, sz: nat, clear: bool, clearTail: bool, list: nat)
    requires |mem| == HBLK_WORDS && sz > 0
    ensures BuiltUpTo(mem, mem, base, sz, clear, clearTail, list, 0)
  {
  }

  /** GC_build_fl1 */
  method BuildFl1(mem: array<nat>, base: nat, ghost clear: bool, ofl: nat) returns (r: nat)
    requires mem.Length == HBLK_WORDS
    modifies mem
    ensures r == base + HBLK_WORDS - 1 && BuiltUpTo(old(mem[..]), mem[..], base, 1, clear, false, ofl, HBLK_WORDS)
  {
    hide BuiltUpTo;
    ghost var m0 := mem[..];
    BuiltNone(m0, base, 1, clear, false, ofl);
    mem[0], mem[1], mem[2], mem[3] := ofl, base, base + 1, base + 2;
    BuiltMore(m0, m0, mem[..], base, 1, clear, false, ofl, 0, 4);
    var p := 4;
    while p < HBLK_WORDS
      invariant 4 <= p <= HBLK_WORDS && p % 4 == 0 && BuiltUpTo(m0, mem[..], base, 1, clear, false, ofl, p)
    {
      ghost var m1 := mem[..];
      mem[p], mem[p + 1], mem[p + 2], mem[p + 3] := base + p - 1, base + p, base + p + 1, base + p + 2;
      BuiltMore(m0, m1, mem[..], base, 1, clear, false, ofl, p, p + 4);
      p := p + 4;
    }
    r := base + p - 1;
  }

  /** GC_build_fl_clear2 */
  method BuildFlClear2(mem: array<nat>, base: nat, ofl: nat) returns (r: nat)
    requires mem.Length == HBLK_WORDS
    modifies mem
    ensures r == base + HBLK_WORDS - 2 && BuiltUpTo(old(mem[..]), mem[..], base, 2, true, false, ofl, HBLK_WORDS)
  {
    hide BuiltUpTo;
    ghost var m0 := mem[..];
    BuiltNone(m0, base, 2, true, false, ofl);
    mem[0], mem[1], mem[2], mem[3] := ofl, 0, base, 0;
    BuiltMore(m0, m0, mem[..], base, 2, true, false, ofl, 0, 4);
    var p := 4;
    while p < HBLK_WORDS
      invariant 4 <= p <= HBLK_WORDS && p % 4 == 0 && BuiltUpTo(m0, mem[..], base, 2, true, false, ofl, p)
    {
      ghost var m1 := mem[..];
      mem[p], mem[p + 1], mem[p + 2], mem[p + 3] := base + p - 2, 0, base + p, 0;
      BuiltMore(m0, m1, mem[..], base, 2, true, false, ofl, p, p + 4);
      p := p + 4;
    }
    r := base + p - 2;
  }

  /** GC_build_fl2 */
  method BuildFl2(mem: array<nat>, base: nat, ofl: nat) returns (r: nat)
    requires mem.Length == HBLK_WORDS
    modifies mem
    ensures r == base + HBLK_WORDS - 2 && BuiltUpTo(old(mem[..]), mem[..], base, 2, false, false, ofl, HBLK_WORDS)
  {
    hide BuiltUpTo;
    ghost var m0 := mem[..];
    BuiltNone(m0, base, 2, false, false, ofl);
    mem[0], mem[2] := ofl, base;
    LinkTwo2(m0, m0, mem[..], base, ofl, 0);
    var p := 4;
    while p < HBLK_WORDS
      invariant 4 <= p <= HBLK_WORDS && p % 4 == 0 && BuiltUpTo(m0, mem[..], base, 2, false, false, ofl, p)
    {
      ghost var m1 := mem[..];
      mem[p], mem[p + 2] := base + p - 2, base + p;
      LinkTwo2(m0, m1, mem[..], base, ofl, p);
      p := p + 4;
    }
    r := base + p - 2;
  }

  /** GC_build_fl_clear3: the word behind the last object is left alone. */
  method BuildFlClear3(mem: array<nat>, base: nat, ofl: nat) returns (r: nat)
    requires mem.Length == HBLK_WORDS
    modifies mem
    ensures r == base + (HBLK_WORDS / 3 - 1) * 3
    ensures BuiltUpTo(old(mem[..]), mem[..], base, 3, true, false, ofl, HBLK_WORDS)
  {
    ghost var m0 := mem[..];
    mem[0], mem[1], mem[2] := ofl, 0, 0;
    var p := 3;
    while p < HBLK_WORDS - 2
      invariant 3 <= p <= HBLK_WORDS - 1 && p % 3 == 0 && BuiltUpTo(m0, mem[..], base, 3, true, false, ofl, p)
    {
      mem[p], mem[p + 1], mem[p + 2] := base + p - 3, 0, 0;
      p := p + 3;
    }
    r := base + p - 3;
  }

  /** GC_build_fl_clear4: four words at a time. */
  method BuildFlClear4(mem: array<nat>, base: nat, ofl: nat) returns (r: nat)
    requires mem.Length == HBLK_WORDS
    modifies mem
    ensures r == base + HBLK_WORDS - 4 && BuiltUpTo(old(mem[..]), mem[..], base, 4, true, false, ofl, HBLK_WORDS)
  {
    hide BuiltUpTo;
    ghost var m0 := mem[..];
    BuiltNone(m0, base, 4, true, false, ofl);
    mem[0], mem[1], mem[2], mem[3] := ofl, 0, 0, 0;
    BuiltMore(m0, m0, mem[..], base, 4, true, false, ofl, 0, 4);
    var p := 4;
    while p < HBLK_WORDS
      invariant 4 <= p <= HBLK_WORDS && p % 4 == 0 && BuiltUpTo(m0, mem[..], base, 4, true, false, ofl, p)
    {
      ghost var m1 := mem[..];
      mem[p], mem[p + 1], mem[p + 2], mem[p + 3] := base + p - 4, 0, 0, 0;
      BuiltMore(m0, m1, mem[..], base, 4, true, false, ofl, p, p + 4);
      p := p + 4;
    }
    r := base + p - 4;
  }

  /** GC_build_fl4: eight words at a time. */
  method BuildFl4(mem: array<nat>, base: nat, ofl: nat) returns (r: nat)
    requires mem.Length == HBLK_WORDS
    modifies mem
    ensures r == base + HBLK_WORDS - 4 && BuiltUpTo(old(mem[..]), mem[..], base, 4, false, false, ofl, HBLK_WORDS)
  {
    hide BuiltUpTo;
    ghost var m0 := mem[..];
    BuiltNone(m0, base, 4, false, false, ofl);
    mem[0], mem[4] := ofl, base;
    LinkTwo4(m0, m0, mem[..], base, ofl, 0);
    var p := 8;
    while p < HBLK_WORDS
      invariant 8 <= p <= HBLK_WORDS && p % 8 == 0 && BuiltUpTo(m0, mem[..], base, 4, false, false, ofl, p)
    {
      ghost var m1 := mem[..];
      mem[p], mem[p + 4] := base + p - 4, base + p;
      LinkTwo4(m0, m1, mem[..], base, ofl, p);
      p := p + 8;
    }
    r := base + p - 4;
  }

  /** Word i when the objects 1 up to m have been linked. */
  function LinkedWord(mem: seq<nat>, base: nat, sz: nat, m: nat, i: nat): nat
    requires sz > 0 && i < |mem|
  {
    if i % sz == 0 && 1 <= i / sz < m then base + (i / sz - 1) * sz else mem[i]
  }

  lemma ObjectStart(m: nat, sz: nat, i: nat)
    requires sz > 0
    ensures i == m * sz <==> i / sz == m && i % sz == 0
  {
    Remainder(m, sz, 0);
  }

  /** The default case of GC_build_fl. */
  method BuildFlLoop(mem: array<nat>, base: nat, sz: nat, clear: bool, list: nat) returns (r: nat)
    requires mem.Length == HBLK_WORDS && 0 < sz <= HBLK_WORDS
    modifies mem
    ensures r == base + (HBLK_WORDS / sz - 1) * sz
    ensures BuiltUpTo(old(mem[..]), mem[..], base, sz, clear, clear, list, HBLK_WORDS)
  {
    hide BuiltWord, LinkedWord;
    ghost var old0 := mem[..];
    if clear {
      ZeroBlock(mem);
    }
    ghost var m0 := mem[..];
    var p, prev := sz, 0;
    ghost var m := 1;
    NoneLinked(m0, base, sz);
    while p <= HBLK_WORDS - sz
      invariant p == m * sz <= HBLK_WORDS && prev == (m - 1) * sz && 1 <= m
      invariant forall i :: 0 <= i < HBLK_WORDS ==> mem[i] == LinkedWord(m0, base, sz, m, i)
    {
      ghost var m1 := mem[..];
      assert forall i :: 0 <= i < HBLK_WORDS ==> m1[i] == LinkedWord(m0, base, sz, m, i);
      mem[p] := base + prev;
      forall i: nat | i < HBLK_WORDS
        ensures mem[i] == LinkedWord(m0, base, sz, m + 1, i)
      {
        LinkOne(m0, base, sz, m, i);
        assert i != p ==> mem[i] == m1[i];
      }
      prev := p;
      p := p + sz;
      m := m + 1;
    }
    p := p - sz;
    LastObject(m, sz);
    mem[0] := list;
    r := base + p;
    AllLinked(old0, m0, base, sz, clear, list);
  }

  lemma NoneLinked(mem: seq<nat>, base: nat, sz: nat)
    requires sz > 0
    ensures forall i :: 0 <= i < |mem| ==> LinkedWord(mem, base, sz, 1, i) == mem[i]
  {
  }

  lemma LinkOne(mem: seq<nat>, base: nat, sz: nat, m: nat, i: nat)
    requires sz > 0 && m >= 1 && i < |mem|
    ensures LinkedWord(mem, base, sz, m + 1, i) == if i == m * sz then base + (m - 1) * sz
            else LinkedWord(mem, base, sz, m, i)
  {
    ObjectStart(m, sz, i);
  }

  lemma AllLinked(mem: seq<nat>, m0: seq<nat>, base: nat, sz: nat, clear: bool, list: nat)
    requires 0 < sz <= HBLK_WORDS == |m0| == |mem| && forall i :: 0 <= i < HBLK_WORDS ==> m0[i] == if clear then 0
             else mem[i]
    ensures forall i :: 0 <= i < HBLK_WORDS ==>
              BuiltWord(mem, base, sz, clear, clear, list, i) == if i == 0 then list
                else LinkedWord(m0, base, sz, HBLK_WORDS / sz, i)
  {
    MultiplesFit(HBLK_WORDS, sz, 1);
    forall i: nat | i < HBLK_WORDS
      ensures BuiltWord(mem, base, sz, clear, clear, list, i) == if i == 0 then list
              else LinkedWord(m0, base, sz, HBLK_WORDS / sz, i)
    {
      ObjectStart(0, sz, i);
    }
  }

  /** BZERO of a block. */
  method ZeroBlock(mem: array<nat>)
    requires mem.Length == HBLK_WORDS
    modifies mem
    ensures forall i :: 0 <= i < HBLK_WORDS ==> mem[i] == 0
  {
    var i := 0;
    while i < HBLK_WORDS
      invariant i <= HBLK_WORDS && forall j :: 0 <= j < i ==> mem[j] == 0
    {
      mem[i] := 0;
      i := i + 1;
    }
  }

  /** GC_build_fl: every case links the same objects in the same order. Only the words behind the last object tell
      the cases apart: the default case clears them with the rest of the block. */
  method BuildFl(mem: array<nat>, base: nat, sz: nat, clear: bool, list: nat) returns (r: nat)
    requires mem.Length == HBLK_WORDS && 0 < sz <= HBLK_WORDS
    modifies mem
    ensures r == base + (HBLK_WORDS / sz - 1) * sz
    ensures forall i :: 0 <= i < HBLK_WORDS ==>
            mem[i] == BuiltWord(old(mem[..]), base, sz, clear, clear && sz != 3, list, i)
  {
    if sz == 1 {
      r := BuildFl1(mem, base, clear, list);
    } else if sz == 2 && clear {
      r := BuildFlClear2(mem, base, list);
    } else if sz == 2 {
      r := BuildFl2(mem, base, list);
    } else if sz == 3 && clear {
      r := BuildFlClear3(mem, base, list);
    } else if sz == 4 && clear {
      r := BuildFlClear4(mem, base, list);
    } else if sz == 4 {
      r := BuildFl4(mem, base, list);
    } else {
      r := BuildFlLoop(mem, base, sz, clear, list);
    }
  }

  lemma PreviousUnmarked(marks: seq<bool>, base: nat, sz: nat, list: nat, k: nat)
    requires |marks| == HBLK_WORDS && sz > 0 && k * sz <= HBLK_WORDS && forall j :: 0 <= j < HBLK_WORDS ==> !marks[j]
    ensures Previous(marks, base, sz, list, k) == if k == 0 then list else base + (k - 1) * sz
  {
    if k > 0 {
      assert (k - 1) * sz + sz == k * sz;
    }
  }

  /** Building the free list of a block leaves what sweeping it without a mark would, but for the words behind the
      last object. */
  lemma BuildIsSweep(mem: seq<nat>, marks: seq<bool>, base: nat, sz: nat, clear: bool, list: nat, i: nat)
    requires |mem| == |marks| == HBLK_WORDS && 0 < sz <= HBLK_WORDS && i < HBLK_WORDS
    requires forall j :: 0 <= j < HBLK_WORDS ==> !marks[j]
    ensures SweptBlock(mem, marks, base, sz, clear, list).list == base + (HBLK_WORDS / sz - 1) * sz
    ensures SweptBlock(mem, marks, base, sz, clear, list).mem[i] == BuiltWord(mem, base, sz, clear, false, list, i)
  {
    hide SweepTo, Previous, DeadWords;
    var n, k, d := HBLK_WORDS / sz, i / sz, i % sz;
    AllFit(sz);
    assert i == k * sz + d;
    SweepMeaning(mem, marks, base, sz, clear, list, n, k, d);
    PreviousUnmarked(marks, base, sz, list, n);
    if k < n {
      assert k * sz <= HBLK_WORDS;
      PreviousUnmarked(marks, base, sz, list, k);
    }
  }

  /** For objects of three words the special case and the default case differ exactly if the last word of the block
      is not zero. */
  lemma Clear3Tail(mem: seq<nat>, base: nat, list: nat, i: nat)
    requires |mem| == HBLK_WORDS && i < HBLK_WORDS
    ensures BuiltWord(mem, base, 3, true, true, list, i) == BuiltWord(mem, base, 3, true, false, list, i)
            <==> i != HBLK_WORDS - 1 || mem[i] == 0
  {
  }
}
