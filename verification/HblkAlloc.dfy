/** The heap-block allocator. Sizes are in units of HBLKSIZE. Header allocation succeeds. */
module HblkAlloc {
  import opened Sizes
  import opened BlockLists
  import opened BlockTiling
  import BL = BlackList

  /** The allocator's globals, with the lists and the tiling they stand for. */
  datatype State = State(hdrs: Hdrs, lists: Lists, owner: map<nat, nat>, largeFree: nat, heapSize: nat)

  function Sum(s: seq<nat>): nat {
    if s == [] then 0 else s[0] + Sum(s[1..])
  }

  lemma {:induction false} SumUpdate(s: seq<nat>, i: nat, v: nat)
    requires i < |s|
    ensures Sum(s[i := v]) == Sum(s) - s[i] + v
  {
    if i == 0 {
      assert s[i := v][1..] == s[1..];
    } else {
      assert s[i := v][1..] == s[1..][i - 1 := v];
      SumUpdate(s[1..], i - 1, v);
    }
  }

  ghost predicate FreeAt(hdrs: Hdrs, b: nat) {
    b in hdrs && hdrs[b].Free?
  }

  /** The blocks on lists are the free ones, except those in `off`. */
  ghost predicate OnOk(hdrs: Hdrs, on: map<nat, nat>, off: set<nat>) {
    && (forall b :: b in off ==> FreeAt(hdrs, b))
    && (forall b :: b in on ==> FreeAt(hdrs, b) && b !in off)
    && (forall b: nat :: FreeAt(hdrs, b) && b !in off ==> b in on)
  }

  ghost predicate CountsOk(s: State) {
    && s.largeFree == |Cells(s.owner, FreeBlocks(s.hdrs))| && s.heapSize == |s.owner|
    && Sum(s.lists.freeBytes) == |Cells(s.owner, s.lists.on.Keys)|
  }

  /** The blocks tile the heap; every free block except those in `off` is on exactly one list; the byte counts are
      those of the lists and of the heap. */
  ghost predicate Base(s: State, off: set<nat>) {
    ListsOk(s.hdrs, s.lists) && Tiling(s.hdrs, s.owner) && OnOk(s.hdrs, s.lists.on, off) && CountsOk(s)
  }

  /** Every block but `but` is on the list for its size. */
  ghost predicate Sized(hdrs: Hdrs, on: map<nat, nat>, but: nat) {
    forall b :: b in on && b in hdrs && b != but ==> on[b] == FlFromBlocks(Size(hdrs[b]))
  }

  /** No free block but `left` has a free block other than `right` just behind it. */
  ghost predicate Coalesced(hdrs: Hdrs, left: nat, right: nat) {
    forall b: nat :: FreeAt(hdrs, b) && b != left && b + Size(hdrs[b]) != right ==> !FreeAt(hdrs, b + Size(hdrs[b]))
  }

  ghost predicate Valid(s: State) {
    Base(s, {}) && Sized(s.hdrs, s.lists.on, 0) && Coalesced(s.hdrs, 0, 0)
  }

  // ---------------------------------------------------------------- what the primitive steps do to Base

  lemma FreeBlocksSame(hdrs: Hdrs, hdrs': Hdrs)
    requires SameBlocks(hdrs, hdrs')
    ensures FreeBlocks(hdrs) == FreeBlocks(hdrs') && SameSpans(hdrs, hdrs')
    ensures forall b: nat :: FreeAt(hdrs, b) == FreeAt(hdrs', b)
  {
    forall b: nat | b in hdrs
      ensures hdrs[b].Free? == hdrs'[b].Free? && Size(hdrs[b]) == Size(hdrs'[b])
    {
      assert SameBlock(hdrs[b], hdrs'[b]);
    }
  }

  ghost predicate Unlisted(s: State, s': State, b: nat) {
    && b in s.hdrs && SameBlocks(s.hdrs, s'.hdrs) && ListsOk(s'.hdrs, s'.lists)
    && b in s.lists.on && s'.lists.on == s.lists.on - {b} && s.lists.on[b] < |s.lists.freeBytes|
    && Size(s.hdrs[b]) <= s.lists.freeBytes[s.lists.on[b]]
    && s'.lists.freeBytes == s.lists.freeBytes[s.lists.on[b] := s.lists.freeBytes[s.lists.on[b]] - Size(s.hdrs[b])]
    && s'.owner == s.owner && s'.largeFree == s.largeFree && s'.heapSize == s.heapSize
  }

  lemma UnlistedCounts(s: State, s': State, b: nat)
    requires CountsOk(s) && Unlisted(s, s', b) && Tiling(s.hdrs, s.owner)
    ensures CountsOk(s')
  {
    hide Range, ListsOk, Size, Blocks, Tiling, Cells, FreeBlocks, Sum, SameBlocks, SameSpans;
    FreeBlocksSame(s.hdrs, s'.hdrs);
    CellsOfBlock(s.hdrs, s.owner, s.lists.on.Keys, s'.lists.on.Keys, b);
    SumUpdate(s.lists.freeBytes, s.lists.on[b], s.lists.freeBytes[s.lists.on[b]] - Size(s.hdrs[b]));
  }

  lemma UnlistedBase(s: State, s': State, b: nat, off: set<nat>)
    requires Base(s, off) && Unlisted(s, s', b)
    ensures Base(s', off + {b})
  {
    hide Range, ListsOk, Size, Blocks, Tiling, Cells, FreeBlocks, Sum, SameBlocks, SameSpans, CountsOk, FreeAt;
    FreeBlocksSame(s.hdrs, s'.hdrs);
    TilingSame(s.hdrs, s'.hdrs, s.owner);
    UnlistedCounts(s, s', b);
  }

  ghost predicate Listed(s: State, s': State, b: nat, i: nat) {
    && b in s.hdrs && SameBlocks(s.hdrs, s'.hdrs) && ListsOk(s'.hdrs, s'.lists)
    && b !in s.lists.on && s'.lists.on == s.lists.on[b := i] && i < |s.lists.freeBytes|
    && s'.lists.freeBytes == s.lists.freeBytes[i := s.lists.freeBytes[i] + Size(s.hdrs[b])]
    && s'.owner == s.owner && s'.largeFree == s.largeFree && s'.heapSize == s.heapSize
  }

  lemma ListedCounts(s: State, s': State, b: nat, i: nat)
    requires CountsOk(s) && Listed(s, s', b, i) && Tiling(s.hdrs, s.owner)
    ensures CountsOk(s')
  {
    hide Range, ListsOk, Size, Blocks, Tiling, Cells, FreeBlocks, Sum, SameBlocks, SameSpans;
    FreeBlocksSame(s.hdrs, s'.hdrs);
    CellsOfBlock(s.hdrs, s.owner, s'.lists.on.Keys, s.lists.on.Keys, b);
    SumUpdate(s.lists.freeBytes, i, s.lists.freeBytes[i] + Size(s.hdrs[b]));
  }

  lemma ListedBase(s: State, s': State, b: nat, i: nat, off: set<nat>)
    requires Base(s, off) && Listed(s, s', b, i) && b in off
    ensures Base(s', off - {b})
  {
    hide Range, ListsOk, Size, Blocks, Tiling, Cells, FreeBlocks, Sum, SameBlocks, SameSpans, CountsOk, FreeAt;
    FreeBlocksSame(s.hdrs, s'.hdrs);
    TilingSame(s.hdrs, s'.hdrs, s.owner);
    ListedCounts(s, s', b, i);
  }

  /** Headers of blocks on no list may change freely. */
  lemma ListsSame(hdrs: Hdrs, hdrs': Hdrs, l: Lists)
    requires ListsOk(hdrs, l) && forall b :: b in l.on && b in hdrs ==> b in hdrs' && hdrs'[b] == hdrs[b]
    ensures ListsOk(hdrs', l)
  {
    hide SizeSum;
    forall i | 0 <= i <= N_HBLK_FLS
      ensures ListOk(hdrs', l, i)
    {
      assert ListOk(hdrs, l, i);
      var c := l.chains[i];
      forall j | 0 <= j < |c|
        ensures c[j] in hdrs && c[j] in hdrs' && hdrs[c[j]] == hdrs'[c[j]]
      {
        assert LinkOk(hdrs, c, j);
      }
      ChainSame(hdrs, hdrs', c);
    }
  }

  /** Block b, used, becomes free but is on no list yet. */
  lemma FreedBase(s: State, s': State, b: nat)
    requires Base(s, {}) && b in s.hdrs && s.hdrs[b].Used?
    requires s' == s.(hdrs := s.hdrs[b := Free(Size(s.hdrs[b]), 0, 0)], largeFree := s.largeFree + Size(s.hdrs[b]))
    ensures Base(s', {b})
  {
    hide Range, ListsOk, Blocks, Tiling, Cells, Sum;
    assert b !in s.lists.on;
    TilingSame(s.hdrs, s'.hdrs, s.owner);
    ListsSame(s.hdrs, s'.hdrs, s.lists);
    CellsOfBlock(s.hdrs, s.owner, FreeBlocks(s'.hdrs), FreeBlocks(s.hdrs), b);
  }

  /** Block b, free and on no list, is used from now on. */
  lemma UsedBase(s: State, s': State, b: nat, h: Hdr, off: set<nat>)
    requires Base(s, off) && b in off && FreeAt(s.hdrs, b) && h.Used? && Size(h) == Size(s.hdrs[b]) <= s.largeFree
    requires s' == s.(hdrs := s.hdrs[b := h], largeFree := s.largeFree - Size(s.hdrs[b]))
    ensures Base(s', off - {b})
  {
    hide Range, ListsOk, Size, Blocks, Tiling, Cells, Sum;
    TilingSame(s.hdrs, s'.hdrs, s.owner);
    ListsSame(s.hdrs, s'.hdrs, s.lists);
    CellsOfBlock(s.hdrs, s.owner, FreeBlocks(s.hdrs), FreeBlocks(s'.hdrs), b);
  }

  ghost predicate Merged(s: State, s': State, b: nat, a: nat) {
    && FreeAt(s.hdrs, b) && FreeAt(s.hdrs, a) && b != a && a == b + Size(s.hdrs[b])
    && s'.hdrs == (s.hdrs - {a})[b := Free(Size(s.hdrs[b]) + Size(s.hdrs[a]), 0, 0)]
    && s'.owner == Give(s.owner, b, a, a + Size(s.hdrs[a]))
    && s'.lists == s.lists && s'.largeFree == s.largeFree && s'.heapSize == s.heapSize
  }

  lemma MergedCounts(s: State, s': State, b: nat, a: nat)
    requires CountsOk(s) && Merged(s, s', b, a) && Tiling(s.hdrs, s.owner) && b !in s.lists.on && a !in s.lists.on
    ensures CountsOk(s')
  {
    hide Range, Size, Blocks, Tiling, Cells, Sum, Give, FreeBlocks;
    MergedFree(s, s', b, a);
    MergeCells(s.hdrs, s.owner, b, a, s.lists.on.Keys);
    assert s.lists.on.Keys - {a} == s.lists.on.Keys;
    MergeKeys(s.hdrs, s.owner, b, a);
    assert |s'.owner| == |s'.owner.Keys| && |s.owner| == |s.owner.Keys|;
  }

  lemma MergedFree(s: State, s': State, b: nat, a: nat)
    requires Merged(s, s', b, a) && Tiling(s.hdrs, s.owner)
    ensures Cells(s'.owner, FreeBlocks(s'.hdrs)) == Cells(s.owner, FreeBlocks(s.hdrs))
  {
    hide Range, Size, Blocks, Tiling, Cells, Give;
    assert FreeBlocks(s'.hdrs) == FreeBlocks(s.hdrs) - {a};
    MergeCells(s.hdrs, s.owner, b, a, FreeBlocks(s.hdrs));
  }

  /** Block b absorbs the block a just behind it; both are free and on no list. */
  lemma MergedBase(s: State, s': State, b: nat, a: nat)
    requires Base(s, {b, a}) && Merged(s, s', b, a)
    ensures Base(s', {b})
  {
    hide Range, ListsOk, Blocks, Tiling, Cells, Sum, Give, CountsOk;
    assert b in {b, a} && a in {b, a};
    MergedCounts(s, s', b, a);
    MergeTiling(s.hdrs, s'.hdrs, s.owner, b, a);
    ListsSame(s.hdrs, s'.hdrs, s.lists);
  }

  ghost predicate Split(s: State, s': State, b: nat, m: nat) {
    && FreeAt(s.hdrs, b) && 0 < m < Size(s.hdrs[b])
    && s'.hdrs == s.hdrs[b := Free(m, 0, 0)][b + m := Free(Size(s.hdrs[b]) - m, 0, 0)]
    && s'.owner == Give(s.owner, b + m, b + m, b + Size(s.hdrs[b]))
    && s'.lists == s.lists && s'.largeFree == s.largeFree && s'.heapSize == s.heapSize
  }

  lemma SplitOthers(hdrs: Hdrs, owner: map<nat, nat>, b: nat, m: nat, blocks: set<nat>)
    requires Tiling(hdrs, owner) && b in hdrs && 0 < m < Size(hdrs[b]) && b !in blocks && b + m !in blocks
    ensures Cells(Give(owner, b + m, b + m, b + Size(hdrs[b])), blocks) == Cells(owner, blocks)
  {
    hide Size, Blocks, Give, Range;
    var owner' := Give(owner, b + m, b + m, b + Size(hdrs[b]));
    assert Owns(hdrs, owner, b);
    forall x | x in owner'
      ensures x in owner && (owner'[x] in blocks <==> owner[x] in blocks)
    {
    }
  }

  lemma SplitCounts(s: State, s': State, b: nat, m: nat)
    requires CountsOk(s) && Split(s, s', b, m) && Tiling(s.hdrs, s.owner) && b !in s.lists.on && b + m !in s.lists.on
    requires SplitAt(s.hdrs, s'.hdrs, b, m)
    ensures CountsOk(s')
  {
    hide Range, Size, Blocks, Tiling, Cells, Sum, Give;
    var free := FreeBlocks(s.hdrs);
    assert FreeBlocks(s'.hdrs) == free + {b + m};
    SplitNew(s.hdrs, s'.hdrs, s.owner, b, m);
    SplitCells(s.hdrs, s.owner, b, m, free);
    SplitOthers(s.hdrs, s.owner, b, m, s.lists.on.Keys);
    assert |s'.owner| == |s'.owner.Keys| && |s.owner| == |s.owner.Keys|;
  }

  /** Block b, free and on no list, is split; the rest is free and on no list either. */
  lemma SplitBase(s: State, s': State, b: nat, m: nat)
    requires Base(s, {b}) && Split(s, s', b, m)
    ensures Base(s', {b, b + m}) && b + m !in s.hdrs && s'.owner.Keys == s.owner.Keys
  {
    hide Range, ListsOk, Blocks, Tiling, Cells, Sum, Give, CountsOk;
    assert b in {b};
    assert SplitAt(s.hdrs, s'.hdrs, b, m);
    SplitNew(s.hdrs, s'.hdrs, s.owner, b, m);
    SplitCounts(s, s', b, m);
    SplitTiling(s.hdrs, s'.hdrs, s.owner, b, m);
    ListsSame(s.hdrs, s'.hdrs, s.lists);
  }

  // ---------------------------------------------------------------- splitting a block that is on a list

  /** The blocks after splitting h at n: everything but h and n keeps its size and state. */
  ghost predicate SplitHdrs(hdrs: Hdrs, hdrs': Hdrs, h: nat, n: nat) {
    && h < n && SplitAt(hdrs, hdrs', h, n - h) && FreeAt(hdrs, h) && FreeAt(hdrs', h) && FreeAt(hdrs', n)
    && forall k :: k in hdrs && k != h && k in hdrs' ==> SameBlock(hdrs[k], hdrs'[k])
  }

  /** N takes h's place on list i, and h, now smaller, is on no list. */
  ghost predicate Swapped(s: State, s': State, h: nat, n: nat, i: nat) {
    && SplitHdrs(s.hdrs, s'.hdrs, h, n) && ListsOk(s'.hdrs, s'.lists)
    && h in s.lists.on && s.lists.on[h] == i && n !in s.lists.on && s'.lists.on == (s.lists.on - {h})[n := i]
    && i < |s.lists.freeBytes| && n - h <= s.lists.freeBytes[i]
    && s'.lists.freeBytes == s.lists.freeBytes[i := s.lists.freeBytes[i] - (n - h)]
    && s'.owner == Give(s.owner, n, n, h + Size(s.hdrs[h]))
    && s'.largeFree == s.largeFree && s'.heapSize == s.heapSize
  }

  lemma SplitFree(hdrs: Hdrs, hdrs': Hdrs, h: nat, n: nat, k: nat)
    requires SplitHdrs(hdrs, hdrs', h, n) && n !in hdrs
    ensures FreeAt(hdrs', k) == (k == n || FreeAt(hdrs, k))
  {
    hide Size, Blocks;
    if k in hdrs && k != h {
      assert SameBlock(hdrs[k], hdrs'[k]);
    }
  }

  lemma SwappedFreeCells(s: State, s': State, h: nat, n: nat, i: nat)
    requires Swapped(s, s', h, n, i) && Tiling(s.hdrs, s.owner) && n !in s.hdrs
    ensures Cells(s'.owner, FreeBlocks(s'.hdrs)) == Cells(s.owner, FreeBlocks(s.hdrs))
  {
    hide Range, Size, Blocks, Tiling, Cells, Give, ListsOk, SplitHdrs;
    forall k: nat
      ensures k in FreeBlocks(s'.hdrs) <==> k == n || k in FreeBlocks(s.hdrs)
    {
      SplitFree(s.hdrs, s'.hdrs, h, n, k);
    }
    assert FreeBlocks(s'.hdrs) == FreeBlocks(s.hdrs) + {n};
    assert h in FreeBlocks(s.hdrs) && 0 < n - h < Size(s.hdrs[h]) by {
      SplitFacts(s.hdrs, s'.hdrs, h, n);
    }
    SplitCells(s.hdrs, s.owner, h, n - h, FreeBlocks(s.hdrs));
  }

  lemma SplitFacts(hdrs: Hdrs, hdrs': Hdrs, h: nat, n: nat)
    requires SplitHdrs(hdrs, hdrs', h, n)
    ensures h in hdrs && h in hdrs' && n in hdrs' && 0 < n - h < Size(hdrs[h]) && Size(hdrs'[h]) == n - h
    ensures FreeAt(hdrs, h)
  {
  }

  lemma SwappedListCells(s: State, s': State, h: nat, n: nat, i: nat)
    requires Swapped(s, s', h, n, i) && Tiling(s.hdrs, s.owner) && n !in s.hdrs
    requires s'.owner.Keys == s.owner.Keys && Tiling(s'.hdrs, s'.owner)
    ensures |Cells(s'.owner, s'.lists.on.Keys)| + (n - h) == |Cells(s.owner, s.lists.on.Keys)|
  {
    hide Range, Size, Blocks, Tiling, Cells, Give, ListsOk, SplitHdrs, FreeBlocks, Sum;
    SplitFacts(s.hdrs, s'.hdrs, h, n);
    var on, on' := s.lists.on.Keys, s'.lists.on.Keys;
    SplitCells(s.hdrs, s.owner, h, n - h, on);
    CellsOfBlock(s'.hdrs, s'.owner, on + {n}, on', h);
  }

  lemma SwappedCounts(s: State, s': State, h: nat, n: nat, i: nat)
    requires CountsOk(s) && Swapped(s, s', h, n, i) && Tiling(s.hdrs, s.owner) && n !in s.hdrs
    requires s'.owner.Keys == s.owner.Keys && Tiling(s'.hdrs, s'.owner)
    ensures CountsOk(s')
  {
    hide Range, Size, Blocks, Tiling, Cells, Give, ListsOk, SplitHdrs, FreeBlocks, Sum;
    SwappedFreeCells(s, s', h, n, i);
    SwappedListCells(s, s', h, n, i);
    SumUpdate(s.lists.freeBytes, i, s.lists.freeBytes[i] - (n - h));
    assert |s'.owner| == |s'.owner.Keys| && |s.owner| == |s.owner.Keys|;
  }

  lemma SwappedBase(s: State, s': State, h: nat, n: nat, i: nat)
    requires Base(s, {}) && Swapped(s, s', h, n, i)
    ensures Base(s', {h}) && n !in s.hdrs
  {
    hide Range, Size, Blocks, Tiling, Cells, Give, ListsOk, CountsOk, FreeBlocks, FreeAt;
    assert SplitAt(s.hdrs, s'.hdrs, h, n - h);
    SplitNew(s.hdrs, s'.hdrs, s.owner, h, n - h);
    SplitTiling(s.hdrs, s'.hdrs, s.owner, h, n - h);
    SwappedCounts(s, s', h, n, i);
    forall k: nat
      ensures FreeAt(s'.hdrs, k) == (k == n || FreeAt(s.hdrs, k))
    {
      SplitFree(s.hdrs, s'.hdrs, h, n, k);
    }
  }

  lemma SplitHdrsSame(hdrs: Hdrs, h1: Hdrs, h2: Hdrs, h: nat, n: nat)
    requires SplitHdrs(hdrs, h1, h, n) && SameBlocks(h1, h2)
    ensures SplitHdrs(hdrs, h2, h, n)
  {
    hide Blocks;
    forall k | k in h1
      ensures h1[k].Free? == h2[k].Free? && Size(h1[k]) == Size(h2[k])
    {
      assert SameBlock(h1[k], h2[k]);
    }
    assert SameBlock(h1[h], h2[h]) && SameBlock(h1[n], h2[n]);
  }

  // ---------------------------------------------------------------- taking the first part of a block

  /** Block b now spans its first `needed` cells; if there is a rest it is a free block of its own. */
  ghost predicate FirstPart(hdrs: Hdrs, hdrs': Hdrs, b: nat, needed: nat) {
    && FreeAt(hdrs, b) && 0 < needed <= Size(hdrs[b]) && b in hdrs' && Size(hdrs'[b]) == needed
    && hdrs'.Keys == (if needed < Size(hdrs[b]) then hdrs.Keys + {b + needed} else hdrs.Keys)
    && (needed < Size(hdrs[b]) ==>
          b + needed !in hdrs && FreeAt(hdrs', b + needed) && Size(hdrs'[b + needed]) == Size(hdrs[b]) - needed)
    && forall k :: k in hdrs && k != b ==> SameBlock(hdrs[k], hdrs'[k])
  }

  lemma FirstPartSplit(h0: Hdrs, h1: Hdrs, h2: Hdrs, h3: Hdrs, b: nat, needed: nat)
    requires FreeAt(h0, b) && 0 < needed < Size(h0[b]) && b + needed !in h1 && SameBlocks(h0, h1)
    requires h2 == h1[b := Free(needed, 0, 0)][b + needed := Free(Size(h0[b]) - needed, 0, 0)] && SameBlocks(h2, h3)
    ensures FirstPart(h0, h3, b, needed) && FreeAt(h3, b)
  {
    hide Blocks;
    assert SameBlock(h2[b], h3[b]) && SameBlock(h2[b + needed], h3[b + needed]);
    forall k | k in h0 && k != b
      ensures SameBlock(h0[k], h3[k])
    {
      assert SameBlock(h0[k], h1[k]) && SameBlock(h2[k], h3[k]);
    }
  }

  lemma FirstPartWhole(h0: Hdrs, h1: Hdrs, b: nat)
    requires FreeAt(h0, b) && 0 < Size(h0[b]) && SameBlocks(h0, h1)
    ensures FirstPart(h0, h1, b, Size(h0[b])) && FreeAt(h1, b)
  {
    hide Blocks;
    assert SameBlock(h0[b], h1[b]);
  }

  lemma FirstPartUsed(h0: Hdrs, h1: Hdrs, b: nat, needed: nat, h: Hdr)
    requires FirstPart(h0, h1, b, needed) && Size(h) == needed
    ensures FirstPart(h0, h1[b := h], b, needed)
  {
    hide Blocks, Size;
  }

  /** A free block is part of the free bytes. */
  lemma FreeFits(s: State, b: nat)
    requires CountsOk(s) && Tiling(s.hdrs, s.owner) && FreeAt(s.hdrs, b)
    ensures Size(s.hdrs[b]) <= s.largeFree
  {
    hide Size, Blocks, Cells, Tiling, Sum;
    CellsOfBlock(s.hdrs, s.owner, FreeBlocks(s.hdrs), FreeBlocks(s.hdrs) - {b}, b);
  }

  /** What allocating at b leaves is neat again, if b was the only block out of place. */
  lemma FirstPartNeat(s: State, h1: Hdrs, on1: map<nat, nat>, b: nat, needed: nat)
    requires Tiling(s.hdrs, s.owner) && FirstPart(s.hdrs, h1, b, needed) && h1[b].Used?
    requires Sized(s.hdrs, s.lists.on, b) && Coalesced(s.hdrs, 0, b) && OnOk(s.hdrs, s.lists.on, {})
    requires on1 == if needed < Size(s.hdrs[b])
                    then (s.lists.on - {b})[b + needed := FlFromBlocks(Size(s.hdrs[b]) - needed)]
                    else s.lists.on - {b}
    ensures Sized(h1, on1, 0) && Coalesced(h1, 0, 0)
  {
    hide Blocks, FlFromBlocks, Tiling, Size;
    forall k | k in on1 && k in h1
      ensures on1[k] == FlFromBlocks(Size(h1[k]))
    {
      if k in s.hdrs {
        FirstPartOther(s.hdrs, h1, b, needed, k);
      }
    }
    forall k: nat | FreeAt(h1, k)
      ensures !FreeAt(h1, k + Size(h1[k]))
    {
      FirstPartNext(s, h1, b, needed, k);
    }
  }

  lemma FirstPartOther(h0: Hdrs, h1: Hdrs, b: nat, needed: nat, k: nat)
    requires FirstPart(h0, h1, b, needed) && k in h0 && k != b
    ensures k in h1 && Size(h1[k]) == Size(h0[k]) && FreeAt(h1, k) == FreeAt(h0, k)
  {
    hide Blocks;
    assert SameBlock(h0[k], h1[k]);
  }

  lemma FirstPartNext(s: State, h1: Hdrs, b: nat, needed: nat, k: nat)
    requires Tiling(s.hdrs, s.owner) && FirstPart(s.hdrs, h1, b, needed) && h1[b].Used?
    requires Coalesced(s.hdrs, 0, b) && FreeAt(h1, k)
    ensures !FreeAt(h1, k + Size(h1[k]))
  {
    hide Blocks, Size, Tiling;
    var h0 := s.hdrs;
    var total := Size(h0[b]);
    if needed < total && k == b + needed {
      // the rest ends where b ended
      assert k + Size(h1[k]) == b + total;
      NextBlock(s.hdrs, s.owner, b);
      if b + total in h0 {
        FirstPartOther(h0, h1, b, needed, b + total);
      }
    } else {
      FirstPartOther(h0, h1, b, needed, k);
      var e := k + Size(h0[k]);
      NextBlock(s.hdrs, s.owner, k);
      if e in h0 && e != b {
        FirstPartOther(h0, h1, b, needed, e);
      } else if e == b + needed && e in h1 {
        NotTheRest(s, b, k, needed);
      }
    }
  }

  lemma NextBlock(hdrs: Hdrs, owner: map<nat, nat>, k: nat)
    requires Tiling(hdrs, owner) && k in hdrs
    ensures k > 0 && Size(hdrs[k]) > 0
  {
    hide Blocks, Size;
  }

  /** No block but b ends inside b. */
  lemma NotTheRest(s: State, b: nat, k: nat, needed: nat)
    requires Tiling(s.hdrs, s.owner) && b in s.hdrs && k in s.hdrs && k != b && 0 < needed < Size(s.hdrs[b])
    ensures k + Size(s.hdrs[k]) != b + needed
  {
    hide Blocks, Size;
    SplitApart(s.hdrs, s.owner, b, k);
  }

  /** After splitting h at n, only n is out of place. */
  lemma SplitNeat(s: State, h1: Hdrs, on1: map<nat, nat>, h: nat, n: nat, i: nat)
    requires Tiling(s.hdrs, s.owner) && SplitHdrs(s.hdrs, h1, h, n) && n !in s.hdrs
    requires Sized(s.hdrs, s.lists.on, 0) && Coalesced(s.hdrs, 0, 0) && OnOk(s.hdrs, s.lists.on, {})
    requires on1 == s.lists.on[n := i][h := FlFromBlocks(n - h)]
    ensures Sized(h1, on1, n) && Coalesced(h1, 0, n)
  {
    hide Blocks, FlFromBlocks, Tiling, Size, SplitHdrs;
    SplitFacts(s.hdrs, h1, h, n);
    NextBlock(s.hdrs, s.owner, h);
    forall k | k in on1 && k in h1 && k != n
      ensures on1[k] == FlFromBlocks(Size(h1[k]))
    {
      if k != h {
        NextBlock(s.hdrs, s.owner, k);
        SplitOther(s.hdrs, h1, h, n, k);
      }
    }
    forall k: nat | FreeAt(h1, k) && k + Size(h1[k]) != n
      ensures !FreeAt(h1, k + Size(h1[k]))
    {
      SplitFree(s.hdrs, h1, h, n, k);
      SplitFree(s.hdrs, h1, h, n, k + Size(h1[k]));
      if k == n {
        SplitOther(s.hdrs, h1, h, n, n);
      } else if k != h {
        SplitOther(s.hdrs, h1, h, n, k);
        NextBlock(s.hdrs, s.owner, k);
      }
    }
  }

  lemma SplitOther(hdrs: Hdrs, h1: Hdrs, h: nat, n: nat, k: nat)
    requires SplitHdrs(hdrs, h1, h, n) && n !in hdrs && (k == n || (k in hdrs && k != h))
    ensures k in h1 && Size(h1[k]) == if k == n then Size(hdrs[h]) - (n - h) else Size(hdrs[k])
  {
    hide Blocks;
  }

  // ---------------------------------------------------------------- coalescing

  /** Block b has absorbed the block a just behind it. */
  ghost predicate MergeHdrs(hdrs: Hdrs, hdrs': Hdrs, b: nat, a: nat) {
    && FreeAt(hdrs, b) && FreeAt(hdrs, a) && b != a && a == b + Size(hdrs[b]) && FreeAt(hdrs', b)
    && hdrs'.Keys == hdrs.Keys - {a} && Size(hdrs'[b]) == Size(hdrs[b]) + Size(hdrs[a])
    && forall k :: k in hdrs && k != b && k != a ==> SameBlock(hdrs[k], hdrs'[k])
  }

  lemma MergeOther(hdrs: Hdrs, h1: Hdrs, b: nat, a: nat, k: nat)
    requires MergeHdrs(hdrs, h1, b, a) && k != b
    ensures FreeAt(h1, k) == (k != a && FreeAt(hdrs, k))
    ensures k in h1 ==> k in hdrs && Size(h1[k]) == Size(hdrs[k])
  {
    hide Blocks;
    if k in h1 {
      assert SameBlock(hdrs[k], h1[k]);
    }
  }

  lemma MergeFacts(hdrs: Hdrs, h1: Hdrs, b: nat, a: nat)
    requires MergeHdrs(hdrs, h1, b, a)
    ensures FreeAt(hdrs, b) && FreeAt(hdrs, a) && b != a && a == b + Size(hdrs[b]) && FreeAt(h1, b) && a !in h1
    ensures Size(h1[b]) == Size(hdrs[b]) + Size(hdrs[a])
  {
  }

  lemma MergeSized(hdrs: Hdrs, on: map<nat, nat>, h1: Hdrs, on1: map<nat, nat>, b: nat, a: nat)
    requires MergeHdrs(hdrs, h1, b, a) && Sized(hdrs, on, 0) && b !in on1 && 0 !in hdrs
    requires forall k :: k in on1 ==> k in on && on1[k] == on[k]
    ensures Sized(h1, on1, 0)
  {
    hide Blocks, Size, FlFromBlocks, MergeHdrs;
    forall k | k in on1 && k in h1
      ensures on1[k] == FlFromBlocks(Size(h1[k]))
    {
      MergeOther(hdrs, h1, b, a, k);
    }
  }

  lemma AbsorbNextNeat(hdrs: Hdrs, owner: map<nat, nat>, h1: Hdrs, b: nat, a: nat)
    requires Tiling(hdrs, owner) && MergeHdrs(hdrs, h1, b, a) && Coalesced(hdrs, b, b)
    ensures Coalesced(h1, 0, b)
  {
    hide Blocks, Size, MergeHdrs, Tiling;
    MergeFacts(hdrs, h1, b, a);
    forall k: nat | FreeAt(h1, k) && k + Size(h1[k]) != b
      ensures !FreeAt(h1, k + Size(h1[k]))
    {
      MergeOther(hdrs, h1, b, a, k + Size(h1[k]));
      if k == b {
        NextBlock(hdrs, owner, a);
      } else {
        MergeOther(hdrs, h1, b, a, k);
      }
    }
  }

  lemma AbsorbPrevNeat(hdrs: Hdrs, owner: map<nat, nat>, h1: Hdrs, p: nat, b: nat)
    requires Tiling(hdrs, owner) && MergeHdrs(hdrs, h1, p, b) && Coalesced(hdrs, 0, b)
    ensures Coalesced(h1, 0, 0)
  {
    hide Blocks, Size, MergeHdrs, Tiling;
    MergeFacts(hdrs, h1, p, b);
    NextBlock(hdrs, owner, b);
    NextBlock(hdrs, owner, p);
    forall k: nat | FreeAt(h1, k)
      ensures !FreeAt(h1, k + Size(h1[k]))
    {
      if k == p {
        MergeOther(hdrs, h1, p, b, k + Size(h1[k]));
      } else {
        MergeOther(hdrs, h1, p, b, k);
        NextBlock(hdrs, owner, k);
        if k + Size(h1[k]) != p {
          MergeOther(hdrs, h1, p, b, k + Size(h1[k]));
        }
      }
    }
  }

  /** Nothing free ends at b, so b is not out of place. */
  lemma NoPrevNeat(hdrs: Hdrs, b: nat)
    requires Coalesced(hdrs, 0, b) && forall q: nat :: FreeAt(hdrs, q) ==> q + Size(hdrs[q]) != b
    ensures Coalesced(hdrs, 0, 0)
  {
    hide Blocks, Size;
  }

  lemma NoNextNeat(hdrs: Hdrs, b: nat)
    requires Coalesced(hdrs, b, b) && b in hdrs && !FreeAt(hdrs, b + Size(hdrs[b]))
    ensures Coalesced(hdrs, 0, b)
  {
    hide Blocks, Size;
  }

  lemma SameNeat(hdrs: Hdrs, h1: Hdrs, left: nat, right: nat)
    requires SameBlocks(hdrs, h1) && Coalesced(hdrs, left, right)
    ensures Coalesced(h1, left, right)
  {
    hide Blocks, Size, SameBlocks;
    FreeBlocksSame(hdrs, h1);
  }

  /** What GC_free_block_ending_at promises of its result. */
  ghost predicate PrevOk(hdrs: Hdrs, prev: nat, b: nat) {
    && (prev != 0 ==> FreeAt(hdrs, prev) && prev + Size(hdrs[prev]) == b)
    && (prev == 0 ==> forall q: nat :: FreeAt(hdrs, q) ==> q + Size(hdrs[q]) != b)
  }

  lemma MergePrev(hdrs: Hdrs, owner: map<nat, nat>, h1: Hdrs, prev: nat, b: nat, a: nat)
    requires Tiling(hdrs, owner) && MergeHdrs(hdrs, h1, b, a) && PrevOk(hdrs, prev, b)
    ensures PrevOk(h1, prev, b)
  {
    hide Size, Blocks, Tiling, MergeHdrs;
    MergeFacts(hdrs, h1, b, a);
    NextBlock(hdrs, owner, a);
    NextBlock(hdrs, owner, b);
    if prev != 0 {
      NextBlock(hdrs, owner, prev);
      MergeOther(hdrs, h1, b, a, prev);
    } else {
      forall q: nat | FreeAt(h1, q)
        ensures q + Size(h1[q]) != b
      {
        if q != b {
          MergeOther(hdrs, h1, b, a, q);
        }
      }
    }
  }

  /** A used block that becomes free may touch free blocks in front of it and behind it, and no others do. */
  lemma FreedCoalesced(hdrs: Hdrs, owner: map<nat, nat>, h1: Hdrs, b: nat)
    requires Tiling(hdrs, owner) && Coalesced(hdrs, 0, 0)
    requires b in hdrs && hdrs[b].Used? && h1 == hdrs[b := Free(Size(hdrs[b]), 0, 0)]
    ensures Coalesced(h1, b, b)
  {
    hide Tiling, Blocks, Size;
    forall k: nat | FreeAt(h1, k) && k != b && k + Size(h1[k]) != b
      ensures !FreeAt(h1, k + Size(h1[k]))
    {
      assert FreeAt(hdrs, k) && h1[k] == hdrs[k];
      NextBlock(hdrs, owner, k);
      assert !FreeAt(hdrs, k + Size(hdrs[k]));
    }
  }

  // ---------------------------------------------------------------- the blocks in use

  ghost function UsedOf(hdrs: Hdrs): map<nat, Hdr> {
    map b | b in hdrs && hdrs[b].Used? :: hdrs[b]
  }

  lemma SameUsed(hdrs: Hdrs, h1: Hdrs)
    requires SameBlocks(hdrs, h1)
    ensures UsedOf(h1) == UsedOf(hdrs)
  {
    forall b | b in hdrs
      ensures hdrs[b].Used? ==> h1[b] == hdrs[b]
      ensures hdrs[b].Free? ==> h1[b].Free?
    {
      assert SameBlock(hdrs[b], h1[b]);
    }
  }

  lemma SplitUsed(hdrs: Hdrs, h1: Hdrs, h: nat, n: nat)
    requires SplitHdrs(hdrs, h1, h, n) && n !in hdrs
    ensures UsedOf(h1) == UsedOf(hdrs)
  {
    hide Size;
    forall b | b in hdrs && b != h
      ensures hdrs[b].Used? ==> h1[b] == hdrs[b]
      ensures hdrs[b].Free? ==> h1[b].Free?
    {
      assert SameBlock(hdrs[b], h1[b]);
    }
  }

  lemma MergeUsed(hdrs: Hdrs, h1: Hdrs, b: nat, a: nat)
    requires MergeHdrs(hdrs, h1, b, a)
    ensures UsedOf(h1) == UsedOf(hdrs)
  {
    hide Size;
    forall k | k in hdrs && k != b && k != a
      ensures hdrs[k].Used? ==> h1[k] == hdrs[k]
      ensures hdrs[k].Free? ==> h1[k].Free?
    {
      assert SameBlock(hdrs[k], h1[k]);
    }
  }

  lemma FirstPartUses(hdrs: Hdrs, h1: Hdrs, b: nat, needed: nat)
    requires FirstPart(hdrs, h1, b, needed) && h1[b].Used?
    ensures UsedOf(h1) == UsedOf(hdrs)[b := h1[b]]
  {
    hide Size;
    forall k | k in hdrs && k != b
      ensures hdrs[k].Used? ==> h1[k] == hdrs[k]
      ensures hdrs[k].Free? ==> h1[k].Free?
    {
      assert SameBlock(hdrs[k], h1[k]);
    }
  }

  ghost predicate FreeCell(s: State, x: nat) {
    x in s.owner && FreeAt(s.hdrs, s.owner[x])
  }

  lemma FreeCellFrom(s: State, b: nat, x: nat)
    requires Tiling(s.hdrs, s.owner) && FreeAt(s.hdrs, b) && b <= x < b + Size(s.hdrs[b])
    ensures FreeCell(s, x)
  {
    hide Size, Blocks;
    assert Owns(s.hdrs, s.owner, b);
    assert x in s.owner;
  }

  lemma UsedCellAgrees(s: State, t: State, x: nat)
    requires Valid(s) && Valid(t) && UsedOf(s.hdrs) == UsedOf(t.hdrs)
    requires x in t.owner && t.owner[x] in t.hdrs && t.hdrs[t.owner[x]].Used?
    ensures x in s.owner && s.owner[x] == t.owner[x] && t.owner[x] in s.hdrs && s.hdrs[t.owner[x]].Used?
  {
    hide Size, Blocks, ListsOk, CountsOk, OnOk, Sized, Coalesced;
    var q := t.owner[x];
    assert OwnedOk(t.hdrs, t.owner, x);
    assert q in UsedOf(t.hdrs) && UsedOf(t.hdrs)[q] == t.hdrs[q];
    assert q in UsedOf(s.hdrs) && UsedOf(s.hdrs)[q] == s.hdrs[q];
    assert Owns(s.hdrs, s.owner, q);
  }

  lemma CellIsFreeIff(s: State, t: State, x: nat)
    requires Valid(s) && Valid(t) && UsedOf(s.hdrs) == UsedOf(t.hdrs) && s.owner.Keys == t.owner.Keys
    ensures FreeCell(s, x) == FreeCell(t, x)
  {
    hide Size, Blocks, ListsOk, CountsOk, OnOk, Sized, Coalesced, UsedOf;
    if x in s.owner {
      assert x in t.owner && OwnedOk(t.hdrs, t.owner, x) && OwnedOk(s.hdrs, s.owner, x);
      if t.hdrs[t.owner[x]].Used? {
        UsedCellAgrees(s, t, x);
      } else if s.hdrs[s.owner[x]].Used? {
        UsedCellAgrees(t, s, x);
      }
    }
  }

  /** The cell in front of a free block, and the one behind it, are not free. */
  lemma FreeBlockIsMaximal(s: State, b: nat)
    requires Valid(s) && FreeAt(s.hdrs, b)
    ensures b > 0 && !FreeCell(s, b + Size(s.hdrs[b])) && !FreeCell(s, b - 1)
    ensures forall x: nat :: b <= x < b + Size(s.hdrs[b]) ==> FreeCell(s, x)
  {
    hide Blocks, Size, ListsOk, CountsOk, OnOk, Sized;
    var e := b + Size(s.hdrs[b]);
    assert Owns(s.hdrs, s.owner, b);
    NextBlock(s.hdrs, s.owner, b);
    if e in s.owner {
      assert OwnedOk(s.hdrs, s.owner, e);
      SplitApart(s.hdrs, s.owner, b, s.owner[e]);
    }
    var c: nat := b - 1;
    if c in s.owner {
      var q: nat := s.owner[c];
      assert OwnedOk(s.hdrs, s.owner, c);
      SplitApart(s.hdrs, s.owner, b, q);
      assert q + Size(s.hdrs[q]) == b;
    }
    forall x: nat | b <= x < e
      ensures FreeCell(s, x)
    {
      FreeCellFrom(s, b, x);
    }
  }

  /** Which cells are in the heap and which blocks are in use determines the free blocks: they are the maximal
      runs of free cells. */
  lemma FreeBlocksAgree(s: State, t: State, b: nat)
    requires Valid(s) && Valid(t) && UsedOf(s.hdrs) == UsedOf(t.hdrs) && s.owner.Keys == t.owner.Keys
    requires FreeAt(s.hdrs, b)
    ensures FreeAt(t.hdrs, b) && Size(t.hdrs[b]) == Size(s.hdrs[b])
  {
    hide Blocks, Size, ListsOk, CountsOk, OnOk, Sized, Coalesced, FreeCell, UsedOf;
    NextBlock(s.hdrs, s.owner, b);
    FreeBlockIsMaximal(s, b);
    forall x: nat
      ensures FreeCell(s, x) == FreeCell(t, x)
    {
      CellIsFreeIff(s, t, x);
    }
    var q := FreeCellBlock(t, b);
    FreeBlockIsMaximal(t, q);
  }

  lemma FreeCellBlock(s: State, x: nat) returns (q: nat)
    requires Tiling(s.hdrs, s.owner) && FreeCell(s, x)
    ensures FreeAt(s.hdrs, q) && q <= x < q + Size(s.hdrs[q])
  {
    q := s.owner[x];
    assert OwnedOk(s.hdrs, s.owner, x);
  }

  // ---------------------------------------------------------------- new heap sections, dropped blocks

  ghost predicate NewSection(s: State, s': State, p: nat, h: Hdr) {
    && p > 0 && h.Used? && Size(h) > 0 && (forall x :: x in s.owner ==> !(p <= x < p + Size(h)))
    && s'.hdrs == s.hdrs[p := h] && s'.owner == Give(s.owner, p, p, p + Size(h)) && s'.heapSize == s.heapSize + Size(h)
    && s'.lists == s.lists && s'.largeFree == s.largeFree
  }

  lemma NewSectionCounts(s: State, s': State, p: nat, h: Hdr)
    requires CountsOk(s) && NewSection(s, s', p, h) && p !in s.hdrs && p !in s.lists.on
    requires |s'.owner| == |s.owner| + Size(h)
    ensures CountsOk(s')
  {
    hide Range, Size, Blocks, Cells, Sum, Give;
    assert FreeBlocks(s'.hdrs) == FreeBlocks(s.hdrs);
    NewCells(s, s'.owner, p, h, FreeBlocks(s.hdrs));
    NewCells(s, s'.owner, p, h, s.lists.on.Keys);
  }

  lemma NewSectionNeat(s: State, s': State, p: nat, h: Hdr)
    requires Valid(s) && NewSection(s, s', p, h) && p !in s.hdrs
    ensures Sized(s'.hdrs, s.lists.on, 0) && Coalesced(s'.hdrs, 0, 0) && OnOk(s'.hdrs, s.lists.on, {})
    ensures UsedOf(s'.hdrs) == UsedOf(s.hdrs)[p := h]
  {
    hide Range, Size, Blocks, CountsOk, Give, ListsOk, Tiling, FlFromBlocks;
  }

  lemma NewSectionBase(s: State, s': State, p: nat, h: Hdr)
    requires Valid(s) && NewSection(s, s', p, h)
    ensures Valid(s') && p !in s.hdrs && forall x :: x in s'.owner <==> x in s.owner || p <= x < p + Size(h)
    ensures UsedOf(s'.hdrs) == UsedOf(s.hdrs)[p := h]
  {
    hide Range, ListsOk, Size, Blocks, Tiling, Sum, Give, FlFromBlocks, CountsOk, Sized, Coalesced, UsedOf;
    NewTiling(s.hdrs, s.owner, p, h, s'.hdrs, s'.owner);
    ListsSame(s.hdrs, s'.hdrs, s.lists);
    NewSectionCounts(s, s', p, h);
    NewSectionNeat(s, s', p, h);
  }

  lemma NewCells(s: State, owner': map<nat, nat>, p: nat, h: Hdr, blocks: set<nat>)
    requires owner' == Give(s.owner, p, p, p + Size(h)) && p !in blocks
    requires forall x :: x in s.owner ==> !(p <= x < p + Size(h))
    ensures Cells(owner', blocks) == Cells(s.owner, blocks)
  {
    hide Size, Give, Range;
  }

  /** Taking free blocks away leaves the rest in place. */
  lemma FewerFreeNeat(hdrs: Hdrs, h1: Hdrs, on: map<nat, nat>, on1: map<nat, nat>)
    requires Sized(hdrs, on, 0) && Coalesced(hdrs, 0, 0)
    requires forall k :: k in on1 ==> k in on && on1[k] == on[k] && FreeAt(h1, k)
    requires forall k: nat :: FreeAt(h1, k) ==> FreeAt(hdrs, k) && Size(h1[k]) == Size(hdrs[k])
    ensures Sized(h1, on1, 0) && Coalesced(h1, 0, 0)
  {
    hide Size, FlFromBlocks;
  }

  /** One step of dropping a block in single cells: its first cell becomes a used block. */
  ghost predicate DropStep(s: State, s': State, b: nat, h: Hdr) {
    && FreeAt(s.hdrs, b) && h.Used? && Size(h) == 1 <= Size(s.hdrs[b]) && s.largeFree > 0
    && s'.hdrs == (if Size(s.hdrs[b]) == 1 then s.hdrs[b := h]
      else s.hdrs[b := h][b + 1 := Free(Size(s.hdrs[b]) - 1, 0, 0)])
    && s'.owner == (if Size(s.hdrs[b]) == 1 then s.owner else Give(s.owner, b + 1, b + 1, b + Size(s.hdrs[b])))
    && s'.lists == s.lists && s'.largeFree == s.largeFree - 1 && s'.heapSize == s.heapSize
  }

  lemma DropStepBase(s: State, s': State, b: nat, h: Hdr)
    requires Base(s, {b}) && DropStep(s, s', b, h)
    ensures Base(s', if Size(s.hdrs[b]) == 1 then {} else {b + 1}) && s'.owner.Keys == s.owner.Keys
    ensures Size(s.hdrs[b]) > 1 ==> b + 1 !in s.hdrs
  {
    hide ListsOk, Tiling, CountsOk, OnOk, Blocks, Give;
    assert b in {b};
    if Size(s.hdrs[b]) == 1 {
      UsedBase(s, s', b, h, {b});
      assert {b} - {b} == {};
    } else {
      var s1 := s.(hdrs := s.hdrs[b := Free(1, 0, 0)][b + 1 := Free(Size(s.hdrs[b]) - 1, 0, 0)],
                   owner := Give(s.owner, b + 1, b + 1, b + Size(s.hdrs[b])));
      SplitBase(s, s1, b, 1);
      UsedBase(s1, s', b, h, {b, b + 1});
      assert {b, b + 1} - {b} == {b + 1};
    }
  }

  const PTRFREE := 0

  const DROPPED: Hdr := Used(HBLK_WORDS, PTRFREE, false)

  /** Cells lo up to hi as dropped blocks. */
  ghost function Dropped(lo: nat, hi: nat): map<nat, Hdr> {
    map x | x in Range(lo, hi) :: DROPPED
  }

  /** The free blocks other than b, and the rest of b at h, are as they were. */
  ghost predicate OthersSame(h1: Hdrs, h2: Hdrs, b: nat, h: nat, limit: nat) {
    && (forall k: nat :: FreeAt(h2, k) && !(k == h < limit) ==> FreeAt(h1, k) && k != b && h2[k] == h1[k])
    && (forall k: nat :: FreeAt(h1, k) && k != b ==> FreeAt(h2, k) && !(k == h < limit))
  }

  /** Half way through dropping block b of s1: the cells below h are used, and what is left of b starts at h. */
  ghost predicate DropState(s1: State, s: State, b: nat, h: nat, limit: nat) {
    && b <= h <= limit && Base(s, if h < limit then {h} else {})
    && (h < limit ==> FreeAt(s.hdrs, h) && Size(s.hdrs[h]) == limit - h)
    && UsedOf(s.hdrs) == UsedOf(s1.hdrs) + Dropped(b, h) && OthersSame(s1.hdrs, s.hdrs, b, h, limit)
    && s.heapSize == s1.heapSize && s.owner.Keys == s1.owner.Keys && s.largeFree + (h - b) == s1.largeFree &&
      s.lists == s1.lists
  }

  lemma DropStart(s: State, b: nat)
    requires Base(s, {b}) && FreeAt(s.hdrs, b) && Size(s.hdrs[b]) > 0
    ensures DropState(s, s, b, b, b + Size(s.hdrs[b]))
  {
    hide Base, Size, UsedOf;
    assert UsedOf(s.hdrs) + Dropped(b, b) == UsedOf(s.hdrs);
  }

  lemma DroppedMore(lo: nat, hi: nat)
    requires lo <= hi
    ensures Dropped(lo, hi + 1) == Dropped(lo, hi)[hi := DROPPED]
  {
  }

  lemma DropUsed(s1: State, s: State, s': State, b: nat, h: nat)
    requires DropStep(s, s', h, DROPPED) && UsedOf(s.hdrs) == UsedOf(s1.hdrs) + Dropped(b, h) && b <= h
    requires Size(s.hdrs[h]) > 1 ==> h + 1 !in s.hdrs
    ensures UsedOf(s'.hdrs) == UsedOf(s1.hdrs) + Dropped(b, h + 1)
  {
    hide Size, Give, Range, Dropped;
    assert UsedOf(s'.hdrs) == UsedOf(s.hdrs)[h := DROPPED];
    DroppedMore(b, h);
  }

  lemma DropOthers(s1: State, s: State, s': State, b: nat, h: nat, limit: nat)
    requires DropStep(s, s', h, DROPPED) && OthersSame(s1.hdrs, s.hdrs, b, h, limit) && h < limit
    requires Size(s.hdrs[h]) == limit - h
    requires Size(s.hdrs[h]) > 1 ==> h + 1 !in s.hdrs
    ensures OthersSame(s1.hdrs, s'.hdrs, b, h + 1, limit)
  {
    hide Size, Give, Range;
    assert forall k: nat :: k != h && !(k == h + 1 < limit) ==> FreeAt(s'.hdrs, k) == FreeAt(s.hdrs, k);
  }

  lemma DropStateStep(s1: State, s: State, s': State, b: nat, h: nat, limit: nat)
    requires DropState(s1, s, b, h, limit) && h < limit && DropStep(s, s', h, DROPPED)
    ensures DropState(s1, s', b, h + 1, limit)
  {
    hide Base, UsedOf, OthersSame, Give, Dropped;
    DropStepBase(s, s', h, DROPPED);
    DropUsed(s1, s, s', b, h);
    DropOthers(s1, s, s', b, h, limit);
  }

  lemma DropDone(s0: State, s1: State, s: State, b: nat, limit: nat)
    requires Valid(s0) && Unlisted(s0, s1, b) && DropState(s1, s, b, limit, limit)
    ensures Valid(s) && UsedOf(s.hdrs) == UsedOf(s0.hdrs) + Dropped(b, limit)
    ensures forall k: nat :: FreeAt(s.hdrs, k) <==> FreeAt(s0.hdrs, k) && k != b
    ensures forall k: nat :: FreeAt(s.hdrs, k) ==> Size(s.hdrs[k]) == Size(s0.hdrs[k])
  {
    hide ListsOk, Tiling, CountsOk, FlFromBlocks, Sized, Coalesced, Size, Blocks, UsedOf, SameBlocks, Dropped;
    FreeBlocksSame(s0.hdrs, s1.hdrs);
    SameUsed(s0.hdrs, s1.hdrs);
    assert forall k: nat :: FreeAt(s.hdrs, k) <==> FreeAt(s1.hdrs, k) && k != b;
    FewerFreeNeat(s0.hdrs, s.hdrs, s0.lists.on, s.lists.on);
  }
}
