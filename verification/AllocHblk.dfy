/** GC_allochblk, GC_freehblk and GC_add_to_heap on the allocator's globals. */
module AllocHblk {
  import opened Sizes
  import opened Arithmetic
  import opened BlockLists
  import opened BlockTiling
  import opened HblkAlloc
  import opened BlockSearch
  import BL = BlackList

  const FL_UNKNOWN := -1
  const MAX_HEAP_SECTS := 1024

  /** What GC_allochblk_nth does with the block it looks at. */
  datatype Action = Skip | Take(start: nat) | Drop

  class BlockHeap {
    var hdrs: Hdrs
    var heads: seq<nat>        // GC_hblkfreelist
    var freeBytes: seq<nat>    // GC_free_bytes
    var largeFree: nat         // GC_large_free_bytes
    var heapSize: nat          // GC_heapsize
    var sections: nat          // GC_n_heap_sects
    var dropCount: nat         // count of completely black-listed blocks met
    ghost var chains: seq<seq<nat>>
    ghost var on: map<nat, nat>
    ghost var owner: map<nat, nat>

    /** The allocator before any memory was added to the heap. */
    constructor ()
      ensures Valid(S()) && hdrs == map[] && owner == map[] && heapSize == 0 && largeFree == 0
    {
      hdrs := map[];
      heads := seq(N_HBLK_FLS + 1, i => 0);
      freeBytes := seq(N_HBLK_FLS + 1, i => 0);
      largeFree, heapSize, sections, dropCount := 0, 0, 0, 0;
      chains := seq(N_HBLK_FLS + 1, i => []);
      on := map[];
      owner := map[];
      new;
      EmptyIsValid(S());
    }

    ghost function L(): Lists
      reads this
    {
      Lists(heads, freeBytes, chains, on)
    }

    ghost function S(): State
      reads this
    {
      State(hdrs, L(), owner, largeFree, heapSize)
    }

    /** GC_remove_from_fl */
    method RemoveFromFl(b: nat, n: int)
      requires ListsOk(hdrs, L()) && b in on && b in hdrs
      requires n == on[b] || (n == FL_UNKNOWN && on[b] == FlFromBlocks(Size(hdrs[b])))
      modifies this`hdrs, this`heads, this`freeBytes, this`chains, this`on
      ensures Unlisted(old(S()), S(), b) && hdrs[b] == old(hdrs[b]) && ShorterList(old(L()), L(), b, old(on)[b])
    {
      hide SizeSum, FlFromBlocks, Blocks, SameBlocks, Unlisted, ShorterList, ListsOk, Size, Cut, Position;
      ghost var s0 := S();
      var index := if n == FL_UNKNOWN then FlFromBlocks(Size(hdrs[b])) else n;
      Neighbours(hdrs, L(), b);
      var h := hdrs[b];
      if h.prev == 0 {
        heads := heads[index := h.next];
      } else {
        hdrs := SetNext(hdrs, h.prev, h.next);
      }
      ghost var h1 := hdrs;
      freeBytes := freeBytes[index := freeBytes[index] - Size(h)];
      if h.next != 0 {
        hdrs := SetPrev(hdrs, h.next, h.prev);
      }
      chains := chains[index := Cut(chains[index], Position(chains[index], b))];
      on := on - {b};
      UnlinkKeeps(s0.hdrs, s0.lists, b, h1, hdrs, L());
      RemovedIsUnlisted(s0, S(), b, index);
    }

    /** GC_add_to_fl: pushes the block at the head of the list for its size. */
    method AddToFl(b: nat)
      requires ListsOk(hdrs, L()) && b !in on && b > 0 && FreeAt(hdrs, b)
      modifies this`hdrs, this`heads, this`freeBytes, this`chains, this`on
      ensures Listed(old(S()), S(), b, FlFromBlocks(old(Size(hdrs[b]))))
      ensures PushedFirst(old(L()), L(), b, FlFromBlocks(old(Size(hdrs[b]))))
    {
      hide SizeSum, FlFromBlocks, Blocks, SameBlocks, ChainOk;
      var index := FlFromBlocks(Size(hdrs[b]));
      ghost var hdrs0, l := hdrs, L();
      ghost var c := AddedChain(hdrs, l, b, index);
      var second := heads[index];
      heads := heads[index := b];
      freeBytes := freeBytes[index := freeBytes[index] + Size(hdrs[b])];
      hdrs := hdrs[b := hdrs[b].(prev := 0, next := second)];
      ghost var h1 := hdrs;
      if second != 0 {
        hdrs := SetPrev(hdrs, second, b);
      }
      PushChain(hdrs0, c, b, h1, hdrs);
      AddKeeps(hdrs0, l, b, index, hdrs);
      chains := chains[index := [b] + c];
      on := on[b := index];
      assert L() == Added(l, b, index, Size(hdrs0[b]));
    }

    /** GC_split_block: n replaces h on list `index`, on which it may not belong, and h goes to the list for its
        new size. */
    method SplitBlock(h: nat, n: nat, index: nat)
      requires Base(S(), {}) && h in on && on[h] == index && h in hdrs && h < n < h + Size(hdrs[h])
      modifies this`hdrs, this`heads, this`freeBytes, this`chains, this`on, this`owner
      ensures Base(S(), {}) && SplitHdrs(old(hdrs), hdrs, h, n) && n !in old(hdrs)
      ensures on == old(on)[n := index][h := FlFromBlocks(n - h)]
      ensures exists l :: InPlace(old(L()), l, h, n, index) && PushedFirst(l, L(), h, FlFromBlocks(n - h))
      ensures largeFree == old(largeFree) && heapSize == old(heapSize) && owner.Keys == old(owner).Keys
    {
      hide ListsOk, Tiling, CountsOk, SplitHdrs, SameBlocks, FlFromBlocks, Blocks, Give, InPlace, PushedFirst;
      ghost var s0 := S();
      ReplaceOnList(h, n, index);
      ghost var s1 := S();
      SwappedBase(s0, s1, h, n, index);
      SplitFacts(s0.hdrs, hdrs, h, n);
      SplitKeys(s0, s1, h, n, index);
      assert h in {h};
      PositiveBlock(s1, h);
      AddToFl(h);
      ListedBase(s1, S(), h, FlFromBlocks(n - h), {h});
      assert {h} - {h} == {};
      SplitHdrsSame(s0.hdrs, s1.hdrs, hdrs, h, n);
    }

    /** The first part of GC_split_block. */
    method ReplaceOnList(h: nat, n: nat, index: nat)
      requires Base(S(), {}) && h in on && on[h] == index && h in hdrs && h < n < h + Size(hdrs[h])
      modifies this`hdrs, this`heads, this`freeBytes, this`chains, this`on, this`owner
      ensures Swapped(old(S()), S(), h, n, index) && InPlace(old(L()), L(), h, n, index)
    {
      hide SizeSum, FlFromBlocks, Blocks, ListsOk, Tiling, CountsOk, Give, InPlace;
      ghost var s0 := S();
      assert FreeAt(hdrs, h);
      NotInside(s0, h, n);
      ReplaceLinks(h, n, index);
      ghost var h3 := hdrs;
      hdrs := hdrs[h := hdrs[h].(size := n - h)];
      ListsSame(h3, hdrs, L());
      owner := Give(owner, n, n, h + Size(s0.hdrs[h]));
      SplitHdrsHolds(s0.hdrs, h3, hdrs, h, n);
    }

    method ReplaceLinks(h: nat, n: nat, index: nat)
      requires ListsOk(hdrs, L()) && h in on && on[h] == index && FreeAt(hdrs, h)
      requires n !in hdrs && n !in on && h < n < h + Size(hdrs[h])
      modifies this`hdrs, this`heads, this`freeBytes, this`chains, this`on
      ensures ListsOk(hdrs, L()) && hdrs.Keys == old(hdrs).Keys + {n} && hdrs[h] == old(hdrs)[h]
      ensures FreeAt(hdrs, n) && Size(hdrs[n]) == Size(old(hdrs)[h]) - (n - h)
      ensures forall k :: k in old(hdrs) ==> SameBlock(old(hdrs)[k], hdrs[k])
      ensures on == (old(on) - {h})[n := index] && index < |old(freeBytes)| && n - h <= old(freeBytes)[index]
      ensures freeBytes == old(freeBytes)[index := old(freeBytes)[index] - (n - h)]
      ensures InPlace(old(L()), L(), h, n, index)
    {
      hide SizeSum, FlFromBlocks, Blocks, ListsOk, Position, SameBlocks;
      ghost var hdrs0, l := hdrs, L();
      Neighbours(hdrs, l, h);
      var size := hdrs[h].size - (n - h);
      var prev, next := hdrs[h].prev, hdrs[h].next;
      hdrs := hdrs[n := Free(size, prev, next)];
      ghost var h1 := hdrs;
      if prev != 0 {
        hdrs := SetNext(hdrs, prev, n);
      } else {
        heads := heads[index := n];
      }
      ghost var h2 := hdrs;
      if next != 0 {
        hdrs := SetPrev(hdrs, next, n);
      }
      freeBytes := freeBytes[index := freeBytes[index] - (n - h)];
      ghost var c: seq<nat> := chains[index][Position(chains[index], h) := n];
      chains := chains[index := c];
      on := (on - {h})[n := index];
      SwapKeeps(hdrs0, l, h, n, size, h1, h2, hdrs, L());
    }

    /** GC_get_first_part, with hb_sz of the block set at once to what the caller will make it. */
    method GetFirstPart(b: nat, needed: nat, index: nat)
      requires Base(S(), {}) && b in on && on[b] == index && FreeAt(hdrs, b) && 0 < needed <= Size(hdrs[b])
      modifies this`hdrs, this`heads, this`freeBytes, this`chains, this`on, this`owner
      ensures Base(S(), {b}) && FirstPart(old(hdrs), hdrs, b, needed) && FreeAt(hdrs, b)
      ensures on == PartOn(old(on), b, needed, Size(old(hdrs)[b]))
      ensures largeFree == old(largeFree) && heapSize == old(heapSize) && owner.Keys == old(owner).Keys
    {
      hide ListsOk, Tiling, CountsOk, OnOk, FirstPart, SameBlocks, FlFromBlocks, Blocks, Give, Size;
      ghost var s0 := S();
      var total := Size(hdrs[b]);
      PositiveBlock(s0, b);
      RemoveFromFl(b, index);
      ghost var s1 := S();
      UnlistedBase(s0, s1, b, {});
      assert {} + {b} == {b};
      if total == needed {
        FirstPartWhole(s0.hdrs, hdrs, b);
        return;
      }
      var rest := b + needed;
      hdrs := hdrs[b := Free(needed, 0, 0)][rest := Free(total - needed, 0, 0)];
      owner := Give(owner, rest, rest, b + total);
      ghost var s2 := S();
      SameSize(s0.hdrs, s1.hdrs, b);
      SplitBase(s1, s2, b, needed);
      OffTheLists(s2, {b, rest}, rest);
      AddToFl(rest);
      FreeSize(s2.hdrs, rest);
      ListedBase(s2, S(), rest, FlFromBlocks(total - needed), {b, rest});
      assert {b, rest} - {rest} == {b};
      FirstPartSplit(s0.hdrs, s1.hdrs, s2.hdrs, hdrs, b, needed);
    }

    /** What GC_allochblk_nth does once it has chosen where to allocate: the first part of block b becomes used. */
    method TakeFirstPart(b: nat, needed: nat, index: nat, h: Hdr)
      requires Base(S(), {}) && b in on && on[b] == index && FreeAt(hdrs, b) && 0 < needed <= Size(hdrs[b])
      requires Sized(hdrs, on, b) && Coalesced(hdrs, 0, b) && h.Used? && Size(h) == needed
      modifies this`hdrs, this`heads, this`freeBytes, this`largeFree, this`chains, this`on, this`owner
      ensures Valid(S()) && FirstPart(old(hdrs), hdrs, b, needed) && hdrs[b] == h
      ensures largeFree == old(largeFree) - needed && heapSize == old(heapSize) && owner.Keys == old(owner).Keys
    {
      hide ListsOk, Tiling, CountsOk, OnOk, FirstPart, FlFromBlocks, Blocks, Size, Sized, Coalesced;
      ghost var s0 := S();
      GetFirstPart(b, needed, index);
      ghost var s1 := S();
      PartSize(s0.hdrs, hdrs, b, needed);
      FreeFits(s1, b);
      hdrs := hdrs[b := h];
      largeFree := largeFree - needed;
      UsedBase(s1, S(), b, h, {b});
      assert {b} - {b} == {};
      FirstPartUsed(s0.hdrs, s1.hdrs, b, needed, h);
      FirstPartNeat(s0, hdrs, on, b, needed);
    }

    /** GC_free_block_ending_at, with the header look-up as a search for the greatest headed block below h. */
    method FreeBlockEndingAt(h: nat) returns (p: nat)
      requires Tiling(hdrs, owner) && h > 0
      ensures p != 0 ==> FreeAt(hdrs, p) && p + Size(hdrs[p]) == h
      ensures p == 0 ==> forall q: nat :: FreeAt(hdrs, q) ==> q + Size(hdrs[q]) != h
    {
      hide Size, Blocks, Tiling;
      p := h - 1;
      while p > 0 && p !in hdrs
        invariant p < h && forall q: nat :: p < q < h ==> q !in hdrs
      {
        p := p - 1;
      }
      NoneEndsAt(hdrs, owner, p, h);
      if p !in hdrs || !hdrs[p].Free? || p + Size(hdrs[p]) != h {
        p := 0;
      }
    }

    /** Block b absorbs the block a behind it: the one of them on a list leaves it, and a loses its header. */
    method Absorb(b: nat, a: nat, listed: nat, unlisted: nat)
      requires Base(S(), {unlisted}) && FreeAt(hdrs, b) && FreeAt(hdrs, a) && a == b + Size(hdrs[b]) && b != a
      requires {listed, unlisted} == {a, b} && listed != unlisted && Sized(hdrs, on, 0)
      modifies this`hdrs, this`heads, this`freeBytes, this`chains, this`on, this`owner
      ensures Base(S(), {b}) && MergeHdrs(old(hdrs), hdrs, b, a) && on == old(on) - {listed}
      ensures largeFree == old(largeFree) && heapSize == old(heapSize) && owner.Keys == old(owner).Keys
    {
      hide ListsOk, Tiling, CountsOk, MergeHdrs, SameBlocks, FlFromBlocks, Blocks, Give, Size;
      ghost var s0 := S();
      PositiveBlock(s0, listed);
      RemoveFromFl(listed, FL_UNKNOWN);
      ghost var s1 := S();
      UnlistedBase(s0, s1, listed, {unlisted});
      assert {unlisted} + {listed} == {b, a};
      SameSize(s0.hdrs, s1.hdrs, b);
      SameSize(s0.hdrs, s1.hdrs, a);
      var total := Size(hdrs[b]) + Size(hdrs[a]);
      owner := Give(owner, b, a, a + Size(hdrs[a]));
      hdrs := (hdrs - {a})[b := Free(total, 0, 0)];
      MergedBase(s1, S(), b, a);
      MergeKeys(s1.hdrs, s1.owner, b, a);
      MergeHdrsHolds(s0.hdrs, s1.hdrs, hdrs, b, a);
    }

    /** GC_freehblk. Freeing a block that is free already is the "duplicate deallocation" abort. Otherwise b leaves
        the blocks in use, its cells become free, and nothing else changes but how free cells are grouped. */
    method FreeHblk(b: nat) returns (ok: bool)
      requires Valid(S()) && b in hdrs
      modifies this`hdrs, this`heads, this`freeBytes, this`largeFree, this`chains, this`on, this`owner
      ensures ok == old(hdrs)[b].Used?
      ensures !ok ==> S() == old(S())
      ensures ok ==> Valid(S()) && UsedOf(hdrs) == UsedOf(old(hdrs)) - {b}
      ensures ok ==>
                owner.Keys == old(owner).Keys && heapSize == old(heapSize) &&
                largeFree == old(largeFree) + Size(old(hdrs)[b])
    {
      hide ListsOk, Tiling, CountsOk, OnOk, FlFromBlocks, Blocks, Size, Sized, Coalesced, UsedOf;
      if hdrs[b].Free? {
        return false;
      }
      ok := true;
      ghost var s0 := S();
      PositiveBlock(s0, b);
      var size := Size(hdrs[b]);
      hdrs := hdrs[b := Free(size, 0, 0)];
      largeFree := largeFree + size;
      FreedBase(s0, S(), b);
      FreedNeat(s0, hdrs, b);
      var prev := FreeBlockEndingAt(b);
      AbsorbNext(b, prev);
      AbsorbPrev(b, prev);
    }

    /** The coalescing with the successor in GC_freehblk. */
    method AbsorbNext(b: nat, prev: nat)
      requires Base(S(), {b}) && FreeAt(hdrs, b) && Sized(hdrs, on, 0) && Coalesced(hdrs, b, b)
      requires PrevOk(hdrs, prev, b)
      modifies this`hdrs, this`heads, this`freeBytes, this`chains, this`on, this`owner
      ensures Base(S(), {b}) && FreeAt(hdrs, b) && Sized(hdrs, on, 0) && Coalesced(hdrs, 0, b)
      ensures PrevOk(hdrs, prev, b) && UsedOf(hdrs) == UsedOf(old(hdrs))
      ensures largeFree == old(largeFree) && heapSize == old(heapSize) && owner.Keys == old(owner).Keys
    {
      hide ListsOk, Tiling, CountsOk, OnOk, FlFromBlocks, Blocks, Size, Sized, Coalesced, UsedOf, PrevOk, MergeHdrs;
      ghost var s0 := S();
      var next := b + Size(hdrs[b]);
      PositiveBlock(s0, b);
      NotListed(s0, {b}, b);
      if next in hdrs && hdrs[next].Free? {
        Absorb(b, next, next, b);
        MergeFacts(s0.hdrs, hdrs, b, next);
        NotListed(S(), {b}, b);
        MergeSized(s0.hdrs, s0.lists.on, hdrs, on, b, next);
        AbsorbNextNeat(s0.hdrs, s0.owner, hdrs, b, next);
        MergeUsed(s0.hdrs, hdrs, b, next);
        MergePrev(s0.hdrs, s0.owner, hdrs, prev, b, next);
      } else {
        NoNextNeat(hdrs, b);
      }
    }

    /** The coalescing with the predecessor in GC_freehblk, and putting the result on its list. */
    method AbsorbPrev(b: nat, prev: nat)
      requires Base(S(), {b}) && FreeAt(hdrs, b) && Sized(hdrs, on, 0) && Coalesced(hdrs, 0, b)
      requires PrevOk(hdrs, prev, b)
      modifies this`hdrs, this`heads, this`freeBytes, this`chains, this`on, this`owner
      ensures Valid(S()) && UsedOf(hdrs) == UsedOf(old(hdrs))
      ensures largeFree == old(largeFree) && heapSize == old(heapSize) && owner.Keys == old(owner).Keys
    {
      hide ListsOk, Tiling, CountsOk, OnOk, FlFromBlocks, Blocks, Size, Sized, Coalesced, UsedOf, MergeHdrs;
      ghost var s0 := S();
      PositiveBlock(s0, b);
      NotListed(s0, {b}, b);
      var hbp := b;
      if prev != 0 {
        PositiveBlock(s0, prev);
        Absorb(prev, b, prev, b);
        MergeFacts(s0.hdrs, hdrs, prev, b);
        NotListed(S(), {prev}, prev);
        MergeSized(s0.hdrs, s0.lists.on, hdrs, on, prev, b);
        AbsorbPrevNeat(s0.hdrs, s0.owner, hdrs, prev, b);
        MergeUsed(s0.hdrs, hdrs, prev, b);
        hbp := prev;
      } else {
        NoPrevNeat(hdrs, b);
      }
      ghost var s1 := S();
      OffTheLists(s1, {hbp}, hbp);
      AddToFl(hbp);
      ListedBase(s1, S(), hbp, FlFromBlocks(Size(s1.hdrs[hbp])), {hbp});
      assert {hbp} - {hbp} == {};
      AddNeat(s1, S(), hbp);
    }

    /** GC_add_to_heap, for memory at p that is not part of the heap. With too many sections the collector aborts. */
    method AddToHeap(p: nat, n: nat) returns (ok: bool)
      requires Valid(S()) && p > 0 && n > 0 && forall x :: x in owner ==> !(p <= x < p + n)
      modifies this
      ensures ok == (old(sections) < MAX_HEAP_SECTS)
      ensures !ok ==> S() == old(S())
      ensures ok ==> Valid(S()) && UsedOf(hdrs) == UsedOf(old(hdrs))
      ensures ok ==> forall x :: x in owner <==> x in old(owner) || p <= x < p + n
      ensures ok ==> heapSize == old(heapSize) + n && largeFree == old(largeFree) + n
    {
      hide ListsOk, Tiling, CountsOk, OnOk, FlFromBlocks, Sized, Coalesced, Give, Range, Size, Blocks, UsedOf;
      if sections >= MAX_HEAP_SECTS {
        return false;
      }
      ghost var s0 := S();
      InstallSection(p, n);
      ok := FreeHblk(p);
      AddAndRemove(s0.hdrs, p, Used(n * HBLK_WORDS, 0, false));
    }

    /** The part of GC_add_to_heap that gives the new section a header, as a used block. */
    method InstallSection(p: nat, n: nat)
      requires Valid(S()) && p > 0 && n > 0 && forall x :: x in owner ==> !(p <= x < p + n)
      modifies this
      ensures p !in old(hdrs) && hdrs == old(hdrs)[p := Used(n * HBLK_WORDS, 0, false)] && Size(hdrs[p]) == n
      ensures Valid(S()) && UsedOf(hdrs) == UsedOf(old(hdrs))[p := hdrs[p]]
      ensures forall x :: x in owner <==> x in old(owner) || p <= x < p + n
      ensures heapSize == old(heapSize) + n && largeFree == old(largeFree)
    {
      hide Valid, Give, Range, Size, UsedOf;
      ghost var s0 := S();
      sections := sections + 1;
      var h := Used(n * HBLK_WORDS, 0, false);
      hdrs := hdrs[p := h];
      owner := Give(owner, p, p, p + n);
      heapSize := heapSize + n;
      SectionSize(h, n);
      SectionInstalled(s0, S(), p, n, h);
    }

    /** Allocation at a start t inside the free block hbp, as GC_allochblk_nth does it. */
    method AllocateAt(hbp: nat, t: nat, needed: nat, n: nat, h: Hdr)
      requires Valid(S()) && hbp in on && on[hbp] == n && FreeAt(hdrs, hbp) && hbp <= t && 0 < needed
      requires t + needed <= hbp + Size(hdrs[hbp])
      requires h.Used? && Size(h) == needed
      modifies this`hdrs, this`heads, this`freeBytes, this`largeFree, this`chains, this`on, this`owner
      ensures Valid(S()) && UsedOf(hdrs) == UsedOf(old(hdrs))[t := h]
      ensures largeFree == old(largeFree) - needed && heapSize == old(heapSize) && owner.Keys == old(owner).Keys
    {
      hide ListsOk, Tiling, CountsOk, FlFromBlocks, Sized, Coalesced, Size, Blocks, UsedOf, SplitHdrs, FirstPart;
      ghost var s0 := S();
      if t != hbp {
        SplitBlock(hbp, t, n);
        SplitNeat(s0, hdrs, on, hbp, t, n);
        SplitUsed(s0.hdrs, hdrs, hbp, t);
        SplitPart(s0.hdrs, hdrs, hbp, t);
      } else {
        ExemptNeat(s0, t);
      }
      ghost var s1 := S();
      TakeFirstPart(t, needed, n, h);
      FirstPartUses(s1.hdrs, hdrs, t, needed);
    }

    /** Block b is dropped: it leaves its list, and each of its cells becomes a used block of its own. */
    method DropBlock(b: nat, n: nat)
      requires Valid(S()) && b in on && on[b] == n && FreeAt(hdrs, b)
      modifies this`hdrs, this`heads, this`freeBytes, this`largeFree, this`chains, this`on, this`owner
      ensures Valid(S()) && UsedOf(hdrs) == UsedOf(old(hdrs)) + Dropped(b, b + Size(old(hdrs)[b]))
      ensures heapSize == old(heapSize) && owner.Keys == old(owner).Keys
      ensures largeFree + Size(old(hdrs)[b]) == old(largeFree)
      ensures on == old(on) - {b} && ShorterList(old(L()), L(), b, n)
      ensures forall k: nat :: FreeAt(hdrs, k) <==> FreeAt(old(hdrs), k) && k != b
      ensures forall k: nat :: FreeAt(hdrs, k) ==> Size(hdrs[k]) == Size(old(hdrs)[k])
    {
      hide Valid, Size, Blocks, UsedOf, Unlisted, DropState, Dropped, ListsOk, SameBlocks, ShorterList, OnOk, Tiling,
        CountsOk;
      ghost var s0 := S();
      var limit := b + Size(hdrs[b]);
      ValidBase(s0);
      PositiveBlock(s0, b);
      RemoveFromFl(b, n);
      ghost var s1 := S();
      UnlistedBase(s0, s1, b, {});
      assert {} + {b} == {b};
      UnlistedFacts(s0, s1, b);
      DropStart(s1, b);
      DropCells(b, limit, s1);
      DropFacts(s1, S(), b, limit);
      DropDone(s0, s1, S(), b, limit);
    }

    /** The cells of block b, one at a time from its first up to limit. */
    method DropCells(b: nat, limit: nat, ghost s1: State)
      requires DropState(s1, S(), b, b, limit) && b <= limit
      modifies this`hdrs, this`largeFree, this`owner
      ensures DropState(s1, S(), b, limit, limit)
    {
      hide DropState, Base, DropStep;
      var h := b;
      while h < limit
        invariant DropState(s1, S(), b, h, limit) && b <= h <= limit
      {
        ghost var s := S();
        DropNow(s1, s, b, h, limit);
        DropCell(h);
        DropStateStep(s1, s, S(), b, h, limit);
        h := h + 1;
      }
    }

    method DropCell(h: nat)
      requires Base(S(), {h}) && FreeAt(hdrs, h)
      modifies this`hdrs, this`largeFree, this`owner
      ensures DropStep(old(S()), S(), h, DROPPED)
    {
      hide Base, Give;
      DropRoom(S(), h);
      var size := Size(hdrs[h]);
      hdrs := hdrs[h := DROPPED];
      if size > 1 {
        hdrs := hdrs[h + 1 := Free(size - 1, 0, 0)];
        owner := Give(owner, h + 1, h + 1, h + size);
      }
      largeFree := largeFree - 1;
    }

    /** GC_enough_large_bytes_left: stops adding as soon as the limit is passed. */
    method EnoughLargeBytesLeft(cfg: Config, n: nat) returns (enough: bool)
      requires |freeBytes| == N_HBLK_FLS + 1 && n <= N_HBLK_FLS
      ensures enough == (cfg.largeAllocd + Sum(freeBytes[n..]) > cfg.maxLargeAllocd)
    {
      var bytes := cfg.largeAllocd;
      var i := N_HBLK_FLS;
      assert freeBytes[i + 1..] == [];
      while i >= n
        invariant n - 1 <= i <= N_HBLK_FLS && bytes == cfg.largeAllocd + Sum(freeBytes[i + 1..])
        invariant i < N_HBLK_FLS ==> bytes <= cfg.maxLargeAllocd
      {
        assert freeBytes[i..][1..] == freeBytes[i + 1..];
        bytes := bytes + freeBytes[i];
        if bytes > cfg.maxLargeAllocd {
          SumTail(freeBytes, n, i);
          return true;
        }
        i := i - 1;
      }
      return false;
    }

    method GateIsClosed(cfg: Config, n: nat) returns (closed: bool)
      requires |freeBytes| == N_HBLK_FLS + 1 && n <= N_HBLK_FLS
      ensures closed == GateClosed(cfg, heapSize, largeFree, freeBytes, n)
    {
      if !(!cfg.useEntireHeap && !cfg.dontGc && (heapSize - largeFree) * HBLKSIZE >= cfg.requestedBytes
           && !cfg.incremental && cfg.shouldCollect) {
        return false;
      }
      var enough := EnoughLargeBytesLeft(cfg, n);
      closed := !enough || cfg.finalizerWordsFreed * 4 > heapSize * HBLKSIZE / 16;
    }

    /** The black-list part of GC_allochblk_nth: where to allocate in the block hbp, if anywhere. */
    method ChooseStart(cfg: Config, req: Request, hbp: nat, size: nat) returns (found: bool, t: nat)
      requires 0 < Needed(req) <= size
      ensures found == (Exempt(req) || Punt(cfg, Needed(req), size) || HasStart(cfg, req, hbp, size))
      ensures found ==> hbp <= t && t + Needed(req) <= hbp + size
      ensures found && !Exempt(req) && BL.Listed(cfg.black, t, Effective(req)) ==>
                t == hbp && Needed(req) * HBLKSIZE > cfg.blLimit && (size - Needed(req)) * HBLKSIZE > cfg.blLimit
      ensures !found ==> !Exempt(req) && forall x: nat :: hbp <= x && x + Needed(req) <= hbp + size ==>
              BL.Listed(cfg.black, x, Effective(req))
      ensures found ==> t == hbp || (forall x: nat :: hbp <= x < t ==> BL.Listed(cfg.black, x, Effective(req)))
      ensures found && (Exempt(req) || !HasStart(cfg, req, hbp, size)) ==> t == hbp
      ensures found && !Exempt(req) && HasStart(cfg, req, hbp, size) ==> !BL.Listed(cfg.black, t, Effective(req))
    {
      hide Blocks, BL.Listed;
      if Exempt(req) {
        return true, hbp;
      }
      t := BL.FirstUnlisted(cfg.black, hbp, size, Needed(req), Effective(req));
      if t + Needed(req) <= hbp + size {
        found := true;
        assert HasStart(cfg, req, hbp, size);
      } else if Punt(cfg, Needed(req), size) {
        return true, hbp;
      } else {
        found := false;
      }
    }

    /** The body of the search loop up to the decision. It changes nothing but the count of black-listed blocks. */
    method Consider(cfg: Config, req: Request, n: nat, hbp: nat) returns (act: Action)
      requires Valid(S()) && hbp in on && on[hbp] == n && FreeAt(hdrs, hbp) && 0 < Needed(req)
      modifies this`dropCount
      ensures act.Take? ==> hbp <= act.start && act.start + Needed(req) <= hbp + Size(hdrs[hbp])
      ensures act.Take? && !Exempt(req) && BL.Listed(cfg.black, act.start, Effective(req)) ==>
                act.start == hbp && Needed(req) * HBLKSIZE > cfg.blLimit &&
                (Size(hdrs[hbp]) - Needed(req)) * HBLKSIZE > cfg.blLimit
      ensures act.Take? <==> Suitable(cfg, req, S(), n, hbp) && !Better(cfg, req, hdrs, hbp)
      ensures act.Take? ==>
                act.start == hbp || (forall x: nat :: hbp <= x < act.start ==> BL.Listed(cfg.black, x, Effective(req)))
      ensures act.Skip? ==>
                !Suitable(cfg, req, S(), n, hbp) || (hdrs[hbp].next != 0 && Suitable(cfg, req, S(), n, hdrs[hbp].next))
      ensures act.Drop? ==> !Suitable(cfg, req, S(), n, hbp) && Needed(req) == 1 && !Exempt(req) && !cfg.findLeak
      ensures act.Drop? ==> forall x: nat :: hbp <= x < hbp + Size(hdrs[hbp]) ==> BL.Listed(cfg.black, x, 1)
      ensures dropCount == old(dropCount) + if AllListed(cfg, req, S(), n, hbp) then 1 else 0
      ensures act.Drop? <==> dropCount / 4 > old(dropCount) / 4
    {
      hide ListsOk, Tiling, CountsOk, OnOk, Sized, Coalesced, Blocks, GateClosed, HasStart, Punt, Exempt, BL.Listed,
        Size, Sum;
      var avail, needed := Size(hdrs[hbp]), Needed(req);
      ListsShape(hdrs, L());
      Neighbours(hdrs, L(), hbp);
      if avail < needed {
        return Skip;
      }
      var closed := GateIsClosed(cfg, n);
      if avail != needed && closed {
        return Skip;
      }
      var next := hdrs[hbp].next;
      if next != 0 {
        var nextSize := Size(hdrs[next]);
        if nextSize < avail && nextSize >= needed {
          var listed := BL.IsBlackListed(cfg.black, next, needed);
          if listed == 0 {
            BetterIsSuitable(cfg, req, S(), n, hbp, next);
            return Skip;
          }
        }
      }
      var found, t := ChooseStart(cfg, req, hbp, avail);
      if found {
        return Take(t);
      }
      if needed == 1 && !cfg.findLeak {
        dropCount := dropCount + 1;
        if dropCount % 4 == 0 {
          assert Effective(req) == 1;
          return Drop;
        }
      }
      return Skip;
    }

    method TakeBlock(cfg: Config, req: Request, n: nat, hbp: nat, r: nat)
      requires Valid(S()) && hbp in on && on[hbp] == n && FreeAt(hdrs, hbp) && req.words > 0
      requires 0 < hbp <= r && r + Needed(req) <= hbp + Size(hdrs[hbp])
      requires !Exempt(req) && BL.Listed(cfg.black, r, Effective(req)) ==>
                 r == hbp && Needed(req) * HBLKSIZE > cfg.blLimit &&
                 (Size(hdrs[hbp]) - Needed(req)) * HBLKSIZE > cfg.blLimit
      modifies this`hdrs, this`heads, this`freeBytes, this`largeFree, this`chains, this`on, this`owner
      ensures Valid(S()) && Allocated(cfg, req, old(S()), S(), r, {})
    {
      hide Valid, Allocated, Blocks, Size, UsedOf, Header, Exempt, BL.Listed;
      ghost var s := S();
      NeededPositive(req);
      AllocateAt(hbp, r, Needed(req), n, Header(req));
      TakenIsAllocated(cfg, req, s, S(), hbp, r);
    }

    method DropListed(cfg: Config, req: Request, n: nat, hbp: nat, ghost j: nat)
      requires Valid(S()) && FreeAt(hdrs, hbp) && hbp in on && on[hbp] == n && Needed(req) == 1 && !Exempt(req)
      requires !cfg.findLeak
      requires forall x: nat :: hbp <= x < hbp + Size(hdrs[hbp]) ==> BL.Listed(cfg.black, x, 1)
      requires n < |chains| == N_HBLK_FLS + 1 && j < |chains[n]| && chains[n][j] == hbp && hbp > 0
      requires Passed(cfg, req, S(), n, j) && !Suitable(cfg, req, S(), n, hbp)
      modifies this`hdrs, this`heads, this`freeBytes, this`largeFree, this`chains, this`on, this`owner
      ensures Valid(S()) && Allocated(cfg, req, old(S()), S(), 0, Range(hbp, hbp + Size(old(hdrs)[hbp])))
      ensures Shrunk(old(S()), S())
      ensures |chains| == N_HBLK_FLS + 1 && |chains[n]| == |old(chains)[n]| - 1 && Passed(cfg, req, S(), n, j)
      ensures NonePicked(cfg, req, S(), n, j) && KeepsFits(cfg, req, old(S()), S(), n)
      ensures j > 0 ==> FreeAt(hdrs, old(chains)[n][j - 1]) && hdrs[old(chains)[n][j - 1]].next == At(chains[n], j)
    {
      hide Valid, Allocated, Shrunk, Suitable, Blocks, Size, UsedOf, Exempt, BL.Listed, Range, Passed, NonePicked,
        Dropped, ListsOk, Fits;
      ghost var s := S();
      DropBlock(hbp, n);
      ShorterFacts(s.lists, L(), hbp, n);
      DropIsAllocated(cfg, req, s, S(), hbp);
      DroppedCursor(cfg, req, s, S(), n, j);
      HeadOf(s, n);
      DropKeepsFits(cfg, req, s, S(), n, hbp);
    }

    /** GC_allochblk_nth: the search of list n. It fails only if no block of the list can serve the request; that it
        passes over a block because the next one is better never makes it fail. Otherwise it takes the first block it
        should take of the list that `before`, the heap without the dropped blocks, has. */
    method AllocHblkNth(cfg: Config, req: Request, n: nat) returns (r: nat, ghost dropped: set<nat>,
                        ghost before: State)
      requires Valid(S()) && n <= N_HBLK_FLS && req.words > 0 && n < |chains|
      modifies this`hdrs, this`heads, this`freeBytes, this`largeFree, this`dropCount, this`chains, this`on, this`owner
      ensures Valid(S()) && Allocated(cfg, req, old(S()), S(), r, dropped)
      ensures r == 0 ==> Shrunk(old(S()), S()) && NoneSuitable(cfg, req, S(), n)
      ensures Valid(before) && Allocated(cfg, req, old(S()), before, 0, dropped) && Shrunk(old(S()), before)
      ensures KeepsFits(cfg, req, old(S()), before, n) && (r == 0 ==> before == S())
      ensures r != 0 ==> exists j: nat :: PickedAt(cfg, req, before, n, j, r)
      ensures dropCount >= old(dropCount) && (dropped != {} <==> dropCount / 4 > old(dropCount) / 4)
      decreases |chains[n]|, 0
    {
      hide Fits, Valid, Allocated, Shrunk, Suitable, NoneSuitable, Blocks, Size, UsedOf, Header, Range, Passed, Pick;
      NeededPositive(req);
      ghost var s0 := S();
      dropped := {};
      NothingDone(cfg, req, s0);
      HeadOf(s0, n);
      var hbp: nat := heads[n];
      ghost var j := 0;
      NonePassed(cfg, req, s0, n);
      while hbp != 0
        invariant Valid(S()) && Allocated(cfg, req, s0, S(), 0, dropped) && Shrunk(s0, S())
        invariant KeepsFits(cfg, req, s0, S(), n)
        invariant |chains| == N_HBLK_FLS + 1 && j <= |chains[n]| <= |s0.lists.chains[n]| && hbp == At(chains[n], j)
        invariant Passed(cfg, req, S(), n, j) && NonePicked(cfg, req, S(), n, j)
        invariant dropCount >= old(dropCount) && (dropped != {} <==> dropCount / 4 > old(dropCount) / 4)
        decreases |chains[n]| - j
      {
        ghost var s := S();
        before := s;
        Cursor(s, n, j);
        var act := Consider(cfg, req, n, hbp);
        PickIff(cfg, req, s, n, hbp);
        if act.Skip? {
          PassedOne(cfg, req, s, n, j);
          hbp := hdrs[hbp].next;
          j := j + 1;
        } else if act.Take? {
          r := act.start;
          TakeBlock(cfg, req, n, hbp, r);
          AllocatedTrans(cfg, req, s0, s, S(), dropped, r, {});
          assert dropped + {} == dropped;
          assert PickedAt(cfg, req, before, n, j, r);
          return;
        } else {
          var prev := hdrs[hbp].prev;
          ghost var cells := Range(hbp, hbp + Size(hdrs[hbp]));
          assert hbp in cells by {
            FreeBlockCell(S(), hbp);
          }
          DropListed(cfg, req, n, hbp, j);
          AllocatedTrans(cfg, req, s0, s, S(), dropped, 0, cells);
          ShrunkTrans(s0, s, S());
          dropped := dropped + cells;
          if prev == 0 {
            r, dropped, before := SearchAgain(cfg, req, n, s0, dropped);
            return;
          }
          hbp := hdrs[prev].next;
        }
      }
      r, before := 0, S();
      AllPassed(cfg, req, S(), n, j);
    }

    /** The recursive call, when the first block of the list was dropped. */
    method SearchAgain(cfg: Config, req: Request, n: nat, ghost s0: State, ghost dropped0: set<nat>)
      returns (r: nat, ghost dropped: set<nat>, ghost before: State)
      requires Valid(S()) && n <= N_HBLK_FLS && req.words > 0 && n < |chains|
      requires Valid(s0) && Allocated(cfg, req, s0, S(), 0, dropped0) && Shrunk(s0, S())
      requires KeepsFits(cfg, req, s0, S(), n)
      modifies this`hdrs, this`heads, this`freeBytes, this`largeFree, this`dropCount, this`chains, this`on, this`owner
      ensures Valid(S()) && Allocated(cfg, req, s0, S(), r, dropped)
      ensures r == 0 ==> Shrunk(s0, S()) && NoneSuitable(cfg, req, S(), n)
      ensures Valid(before) && Allocated(cfg, req, s0, before, 0, dropped) && Shrunk(s0, before)
      ensures KeepsFits(cfg, req, s0, before, n) && (r == 0 ==> before == S())
      ensures r != 0 ==> exists j: nat :: PickedAt(cfg, req, before, n, j, r)
      ensures dropCount >= old(dropCount) && dropped0 <= dropped
      ensures dropped != dropped0 ==> dropCount / 4 > old(dropCount) / 4
      ensures dropped0 == {} && dropped == {} ==> dropCount / 4 == old(dropCount) / 4
      decreases |chains[n]|, 1
    {
      hide Valid, Allocated, Shrunk, NoneSuitable, PickedAt, Fits;
      ghost var s1 := S();
      r, dropped, before := AllocHblkNth(cfg, req, n);
      AllocatedTrans(cfg, req, s0, s1, S(), dropped0, r, dropped);
      AllocatedTrans(cfg, req, s0, s1, before, dropped0, 0, dropped);
      ShrunkTrans(s0, s1, before);
      if r == 0 {
        ShrunkTrans(s0, s1, S());
      }
      dropped := dropped0 + dropped;
    }

    /** GC_allochblk: the lists from the one for the size needed upwards. Blocks are dropped exactly when the count of
        completely black-listed blocks passes a multiple of four. If that size has a list of its own and a block
        on it can serve the request, such a block is used whole. */
    method AllocHblk(cfg: Config, req: Request) returns (r: nat, ghost dropped: set<nat>)
      requires Valid(S()) && req.words > 0
      modifies this`hdrs, this`heads, this`freeBytes, this`largeFree, this`dropCount, this`chains, this`on, this`owner
      ensures Valid(S()) && Allocated(cfg, req, old(S()), S(), r, dropped)
      ensures r == 0 ==> forall n :: 0 <= n <= N_HBLK_FLS ==> NoneSuitable(cfg, req, S(), n)
      ensures dropCount >= old(dropCount) && (dropped != {} <==> dropCount / 4 > old(dropCount) / 4)
      ensures r != 0 ==> r in hdrs && hdrs[r] == Used(req.words, req.kind, req.ignoreOffPage)
      ensures Needed(req) < UNIQUE_THRESHOLD && (exists b :: Fits(cfg, req, old(S()), Needed(req), b)) ==>
                FreeAt(old(hdrs), r) && Size(old(hdrs)[r]) == Needed(req)
    {
      hide Valid, Allocated, Shrunk, Suitable, NoneSuitable, Blocks, FlFromBlocks, Fits, PickedAt, KeepsFits, Size;
      ghost var s0 := S();
      dropped := {};
      NothingDone(cfg, req, s0);
      var start := FlFromBlocks(Needed(req));
      if Needed(req) < UNIQUE_THRESHOLD {
        ListOfSize(Needed(req), Needed(req));
      }
      SmallListsFail(cfg, req, s0);
      var i := start;
      while i <= N_HBLK_FLS
        invariant start <= i <= N_HBLK_FLS + 1 && Valid(S()) && Allocated(cfg, req, s0, S(), 0, dropped)
        invariant forall n :: 0 <= n < i ==> NoneSuitable(cfg, req, S(), n)
        invariant dropCount >= old(dropCount) && (dropped != {} <==> dropCount / 4 > old(dropCount) / 4)
        invariant if i == start then S() == s0 else forall b :: !Fits(cfg, req, s0, start, b)
      {
        ghost var s1 := S();
        HeadOf(s1, i);
        ghost var more, before;
        r, more, before := AllocHblkNth(cfg, req, i);
        AllocatedTrans(cfg, req, s0, s1, S(), dropped, r, more);
        dropped := dropped + more;
        ResultHeader(cfg, req, s0, S(), r, dropped);
        if r != 0 {
          if i == start && Needed(req) < UNIQUE_THRESHOLD {
            ExactFit(cfg, req, s0, before, r);
          }
          return;
        }
        if i == start {
          HeadOf(before, i);
          NoneFits(cfg, req, s0, before, i);
        }
        StillNoneSuitable(cfg, req, s1, S(), i);
        i := i + 1;
      }
      r := 0;
    }
  }

  /** Where block b is on its list, and what its neighbours look like. */
  lemma RemovedChain(hdrs: Hdrs, l: Lists, b: nat) returns (c: seq<nat>, j: nat)
    requires ListsOk(hdrs, l) && b in l.on && b in hdrs
    ensures l.on[b] < |l.chains| && c == l.chains[l.on[b]] && b in c && j == Position(c, b) && ChainOk(hdrs, c)
    ensures LinkOk(hdrs, c, j)
    ensures j > 0 ==> LinkOk(hdrs, c, j - 1)
    ensures j + 1 < |c| ==> LinkOk(hdrs, c, j + 1)
    ensures forall k :: 0 <= k < |c| ==> c[k] in l.on && l.on[c[k]] == l.on[b]
    ensures l.heads[l.on[b]] == c[0] && Size(hdrs[b]) <= l.freeBytes[l.on[b]]
  {
    assert ListOk(hdrs, l, l.on[b]);
    c := l.chains[l.on[b]];
    j := Position(c, b);
    SizeSumCut(hdrs, c, j);
  }

  lemma AddedChain(hdrs: Hdrs, l: Lists, b: nat, index: nat) returns (c: seq<nat>)
    requires ListsOk(hdrs, l) && b !in l.on && index <= N_HBLK_FLS
    ensures c == l.chains[index] && b !in c && ChainOk(hdrs, c) && l.heads[index] == At(c, 0)
    ensures c != [] ==> LinkOk(hdrs, c, 0)
    ensures forall k :: 0 <= k < |c| ==> c[k] in l.on && l.on[c[k]] == index
  {
    assert ListOk(hdrs, l, index);
    c := l.chains[index];
  }

  lemma NotInside(s: State, h: nat, n: nat)
    requires Base(s, {}) && h in s.hdrs && h < n < h + Size(s.hdrs[h])
    ensures n !in s.hdrs && n !in s.lists.on
  {
    hide Size, Blocks, ListsOk, CountsOk;
    assert Owns(s.hdrs, s.owner, h);
    assert n in s.owner && s.owner[n] == h;
  }

  lemma SplitHdrsHolds(hdrs0: Hdrs, h3: Hdrs, hdrs: Hdrs, h: nat, n: nat)
    requires FreeAt(hdrs0, h) && n !in hdrs0 && h < n < h + Size(hdrs0[h])
    requires h3.Keys == hdrs0.Keys + {n} && FreeAt(h3, n) && Size(h3[n]) == Size(hdrs0[h]) - (n - h)
    requires forall k :: k in hdrs0 ==> SameBlock(hdrs0[k], h3[k])
    requires h3[h] == hdrs0[h] && hdrs == h3[h := h3[h].(size := n - h)]
    ensures SplitHdrs(hdrs0, hdrs, h, n)
  {
    hide Blocks;
    forall k | k in hdrs0 && k != h
      ensures SameBlock(hdrs0[k], hdrs[k]) && Size(hdrs[k]) == Size(hdrs0[k])
    {
      assert SameBlock(hdrs0[k], h3[k]);
    }
  }

  lemma PositiveBlock(s: State, b: nat)
    requires Tiling(s.hdrs, s.owner) && b in s.hdrs
    ensures b > 0 && Size(s.hdrs[b]) > 0
  {
  }

  ghost function PartOn(on: map<nat, nat>, b: nat, needed: nat, total: nat): map<nat, nat> {
    if needed < total then (on - {b})[b + needed := FlFromBlocks(total - needed)] else on - {b}
  }

  lemma PartSize(h0: Hdrs, h1: Hdrs, b: nat, needed: nat)
    requires FirstPart(h0, h1, b, needed)
    ensures b in h1 && Size(h1[b]) == needed
  {
  }

  lemma SameSize(h0: Hdrs, h1: Hdrs, b: nat)
    requires SameBlocks(h0, h1) && b in h0
    ensures b in h1 && Size(h0[b]) == Size(h1[b]) && FreeAt(h0, b) == FreeAt(h1, b)
  {
    assert SameBlock(h0[b], h1[b]);
  }

  lemma ResultHeader(cfg: Config, req: Request, s: State, s': State, r: nat, dropped: set<nat>)
    requires Allocated(cfg, req, s, s', r, dropped)
    ensures r != 0 ==> r in s'.hdrs && s'.hdrs[r] == Used(req.words, req.kind, req.ignoreOffPage)
  {
    assert r != 0 ==> r in UsedOf(s'.hdrs);
  }

  lemma FreeBlockCell(s: State, b: nat)
    requires Valid(s) && FreeAt(s.hdrs, b)
    ensures b < b + Size(s.hdrs[b])
  {
    PositiveBlock(s, b);
  }

  lemma FreeSize(hdrs: Hdrs, b: nat)
    requires FreeAt(hdrs, b)
    ensures Size(hdrs[b]) == hdrs[b].size
  {
  }

  lemma OffTheLists(s: State, off: set<nat>, b: nat)
    requires Base(s, off) && b in off
    ensures b !in s.lists.on && FreeAt(s.hdrs, b) && b > 0 && ListsOk(s.hdrs, s.lists)
  {
    hide ListsOk, CountsOk;
  }

  lemma NoneEndsAt(hdrs: Hdrs, owner: map<nat, nat>, p: nat, h: nat)
    requires Tiling(hdrs, owner) && p < h && (p == 0 || p in hdrs) && (forall q: nat :: p < q < h ==> q !in hdrs)
    ensures forall q: nat :: FreeAt(hdrs, q) && q != p ==> q + Size(hdrs[q]) != h
    ensures 0 !in hdrs
  {
    hide Size, Blocks;
    forall q: nat | FreeAt(hdrs, q) && q != p
      ensures q + Size(hdrs[q]) != h
    {
      assert q > 0 && Size(hdrs[q]) > 0;
      if q < p {
        Disjoint(hdrs, owner, q, p);
      }
    }
  }

  lemma MergeHdrsHolds(h0: Hdrs, h1: Hdrs, h2: Hdrs, b: nat, a: nat)
    requires FreeAt(h0, b) && FreeAt(h0, a) && a == b + Size(h0[b]) && b != a && SameBlocks(h0, h1)
    requires h2 == (h1 - {a})[b := Free(Size(h1[b]) + Size(h1[a]), 0, 0)]
    ensures MergeHdrs(h0, h2, b, a)
  {
    hide Blocks;
    assert SameBlock(h0[b], h1[b]) && SameBlock(h0[a], h1[a]);
  }

  lemma FreedNeat(s: State, h1: Hdrs, b: nat)
    requires Valid(s) && b in s.hdrs && s.hdrs[b].Used? && h1 == s.hdrs[b := Free(Size(s.hdrs[b]), 0, 0)]
    ensures Sized(h1, s.lists.on, 0) && Coalesced(h1, b, b) && UsedOf(h1) == UsedOf(s.hdrs) - {b}
  {
    hide ListsOk, Tiling, CountsOk, FlFromBlocks, Blocks, Size;
    assert Size(h1[b]) == Size(s.hdrs[b]) by {
      FreeSize(h1, b);
    }
    FreedCoalesced(s.hdrs, s.owner, h1, b);
  }

  lemma NotListed(s: State, off: set<nat>, b: nat)
    requires Base(s, off) && b in off
    ensures b !in s.lists.on && 0 !in s.hdrs
  {
    hide ListsOk, CountsOk, Size, Blocks;
  }

  lemma AddNeat(s: State, s': State, b: nat)
    requires b in s.hdrs && Listed(s, s', b, FlFromBlocks(Size(s.hdrs[b]))) && Sized(s.hdrs, s.lists.on, 0)
    requires Coalesced(s.hdrs, 0, 0)
    ensures Sized(s'.hdrs, s'.lists.on, 0) && Coalesced(s'.hdrs, 0, 0) && UsedOf(s'.hdrs) == UsedOf(s.hdrs)
  {
    hide ListsOk, FlFromBlocks, Blocks, Size, SameBlocks, Coalesced, UsedOf;
    FreeBlocksSame(s.hdrs, s'.hdrs);
    forall k | k in s'.lists.on && k in s'.hdrs && k != 0
      ensures s'.lists.on[k] == FlFromBlocks(Size(s'.hdrs[k]))
    {
      assert k in s.hdrs && Size(s.hdrs[k]) == Size(s'.hdrs[k]);
    }
    SameNeat(s.hdrs, s'.hdrs, 0, 0);
    SameUsed(s.hdrs, s'.hdrs);
  }

  lemma SplitKeys(s: State, s': State, h: nat, n: nat, i: nat)
    requires Swapped(s, s', h, n, i) && Tiling(s.hdrs, s.owner)
    ensures s'.owner.Keys == s.owner.Keys
  {
    hide Size, Blocks, Tiling, Give, ListsOk;
    SplitNew(s.hdrs, s'.hdrs, s.owner, h, n - h);
  }

  lemma SplitPart(h0: Hdrs, h1: Hdrs, h: nat, n: nat)
    requires SplitHdrs(h0, h1, h, n)
    ensures FreeAt(h1, n) && n + Size(h1[n]) == h + Size(h0[h])
  {
  }

  lemma ExemptNeat(s: State, t: nat)
    requires Valid(s)
    ensures Sized(s.hdrs, s.lists.on, t) && Coalesced(s.hdrs, 0, t)
  {
    hide ListsOk, CountsOk, OnOk, FlFromBlocks, Size, Blocks;
  }

  lemma SectionSize(h: Hdr, n: nat)
    requires h.Used? && h.words == n * HBLK_WORDS
    ensures Size(h) == n
  {
  }

  lemma SectionInstalled(s: State, s': State, p: nat, n: nat, h: Hdr)
    requires Valid(s) && p > 0 && n > 0 && (forall x :: x in s.owner ==> !(p <= x < p + n)) && h.Used? && Size(h) == n
    requires s' == s.(hdrs := s.hdrs[p := h], owner := Give(s.owner, p, p, p + n), heapSize := s.heapSize + n)
    ensures Valid(s') && p !in s.hdrs && forall x :: x in s'.owner <==> x in s.owner || p <= x < p + n
    ensures UsedOf(s'.hdrs) == UsedOf(s.hdrs)[p := h]
  {
    hide Valid, Give, Range, Size, UsedOf;
    NewSectionBase(s, s', p, h);
  }

  lemma AddAndRemove(hdrs: Hdrs, p: nat, h: Hdr)
    requires p !in hdrs
    ensures UsedOf(hdrs)[p := h] - {p} == UsedOf(hdrs)
  {
  }

  /** A block for a request of one heap block that is black-listed from end to end and is not passed over for another
      reason. */
  ghost predicate AllListed(cfg: Config, req: Request, s: State, n: nat, b: nat) {
    && FreeAt(s.hdrs, b) && n <= |s.lists.freeBytes| && Needed(req) == 1 <= Size(s.hdrs[b]) && !cfg.findLeak
    && (Size(s.hdrs[b]) == 1 || !GateClosed(cfg, s.heapSize, s.largeFree, s.lists.freeBytes, n))
    && !Suitable(cfg, req, s, n, b) && !Better(cfg, req, s.hdrs, b)
  }

  /** Block b is at the head of list i, and the other lists are as they were. */
  ghost predicate PushedFirst(l: Lists, l': Lists, b: nat, i: nat) {
    i < |l.chains| && l'.chains == l.chains[i := [b] + l.chains[i]]
  }

  /** N is where h was on list i, and the other lists are as they were. */
  ghost predicate InPlace(l: Lists, l': Lists, h: nat, n: nat, i: nat) {
    && i < |l.chains| && h in l.chains[i]
    && var c: seq<nat> := l.chains[i][Position(l.chains[i], h) := n];
       l'.chains == l.chains[i := c]
  }

  /** List n has lost block b and kept its order, and the other lists are as they were. */
  ghost predicate ShorterList(l: Lists, l': Lists, b: nat, n: nat) {
    && n < |l.chains| && b in l.chains[n] && l'.chains == l.chains[n := Cut(l.chains[n], Position(l.chains[n], b))]
    && |l'.freeBytes| == |l.freeBytes| && forall i :: 0 <= i < |l.freeBytes| ==> l'.freeBytes[i] <= l.freeBytes[i]
  }

  lemma UnlistedFacts(s: State, s': State, b: nat)
    requires Unlisted(s, s', b) && FreeAt(s.hdrs, b)
    ensures FreeAt(s'.hdrs, b) && Size(s'.hdrs[b]) == Size(s.hdrs[b]) && s'.lists.on == s.lists.on - {b}
    ensures s'.owner == s.owner && s'.largeFree == s.largeFree && s'.heapSize == s.heapSize
  {
    SameSize(s.hdrs, s'.hdrs, b);
  }

  lemma DropFacts(s1: State, s: State, b: nat, limit: nat)
    requires DropState(s1, s, b, limit, limit)
    ensures s.lists == s1.lists && s.heapSize == s1.heapSize && s.owner.Keys == s1.owner.Keys
    ensures s.largeFree + (limit - b) == s1.largeFree
  {
  }

  lemma DropRoom(s: State, b: nat)
    requires Base(s, {b}) && FreeAt(s.hdrs, b)
    ensures s.largeFree > 0 && Size(s.hdrs[b]) > 0
  {
    hide ListsOk, CountsOk;
    FreeFits(s, b);
    PositiveBlock(s, b);
  }

  lemma ValidBase(s: State)
    requires Valid(s)
    ensures Base(s, {})
  {
  }

  lemma DropNow(s1: State, s: State, b: nat, h: nat, limit: nat)
    requires DropState(s1, s, b, h, limit) && h < limit
    ensures Base(s, {h}) && FreeAt(s.hdrs, h)
  {
    hide Base;
  }

  lemma RemovedIsUnlisted(s: State, s': State, b: nat, i: nat)
    requires b in s.hdrs && b in s.lists.on && s.lists.on[b] == i && ListsOk(s.hdrs, s.lists)
    requires ListsOk(s'.hdrs, s'.lists) && SameBlocks(s.hdrs, s'.hdrs)
    requires Size(s.hdrs[b]) <= s.lists.freeBytes[i] && s'.lists == Removed(s.lists, b, i, Size(s.hdrs[b]))
    requires s'.owner == s.owner && s'.largeFree == s.largeFree && s'.heapSize == s.heapSize
    ensures Unlisted(s, s', b) && ShorterList(s.lists, s'.lists, b, i)
  {
    hide Size, Blocks, SameBlocks, Cut, ListOk;
  }

  lemma Neighbours(hdrs: Hdrs, l: Lists, b: nat)
    requires ListsOk(hdrs, l) && b in l.on && b in hdrs
    ensures FreeAt(hdrs, b) && l.on[b] < |l.chains| == |l.heads| == |l.freeBytes| && b in l.chains[l.on[b]]
    ensures Size(hdrs[b]) <= l.freeBytes[l.on[b]]
    ensures hdrs[b].prev != 0 ==> FreeAt(hdrs, hdrs[b].prev)
    ensures hdrs[b].next != 0 ==> FreeAt(hdrs, hdrs[b].next)
  {
    hide SizeSum, ListsOk;
    var c, j := RemovedChain(hdrs, l, b);
    ListsShape(hdrs, l);
  }

  lemma ListsShape(hdrs: Hdrs, l: Lists)
    requires ListsOk(hdrs, l)
    ensures |l.chains| == |l.heads| == |l.freeBytes| == N_HBLK_FLS + 1
  {
  }

  /** The header and head updates of GC_remove_from_fl take b off its list. */
  lemma UnlinkKeeps(hdrs: Hdrs, l: Lists, b: nat, h1: Hdrs, h2: Hdrs, l': Lists)
    requires ListsOk(hdrs, l) && b in l.on && FreeAt(hdrs, b) && l.on[b] < |l.chains| == |l.heads| == |l.freeBytes|
    requires b in l.chains[l.on[b]] && Size(hdrs[b]) <= l.freeBytes[l.on[b]]
    requires hdrs[b].prev != 0 ==> FreeAt(hdrs, hdrs[b].prev)
    requires h1 == if hdrs[b].prev != 0 then SetNext(hdrs, hdrs[b].prev, hdrs[b].next) else hdrs
    requires hdrs[b].next != 0 ==> FreeAt(h1, hdrs[b].next)
    requires h2 == if hdrs[b].next != 0 then SetPrev(h1, hdrs[b].next, hdrs[b].prev) else h1
    requires l'.heads == if hdrs[b].prev != 0 then l.heads else l.heads[l.on[b] := hdrs[b].next]
    requires l'.freeBytes == l.freeBytes[l.on[b] := l.freeBytes[l.on[b]] - Size(hdrs[b])]
    requires l'.chains == l.chains[l.on[b] := Cut(l.chains[l.on[b]], Position(l.chains[l.on[b]], b))]
    requires l'.on == l.on - {b}
    ensures l' == Removed(l, b, l.on[b], Size(hdrs[b])) && ListsOk(h2, l') && SameBlocks(hdrs, h2) && h2[b] == hdrs[b]
  {
    hide SizeSum, ListsOk, Size, SameBlocks, ChainOk;
    var c, j := RemovedChain(hdrs, l, b);
    UnlinkChain(hdrs, c, j, h1, h2);
    RemoveKeeps(hdrs, l, b, h2);
  }

  /** The next block of the list is smaller but large enough, and not black-listed. */
  ghost predicate Better(cfg: Config, req: Request, hdrs: Hdrs, b: nat)
    requires FreeAt(hdrs, b)
  {
    var next := hdrs[b].next;
    next != 0 && FreeAt(hdrs, next) && Needed(req) <= Size(hdrs[next]) < Size(hdrs[b]) &&
      !BL.Listed(cfg.black, next, Needed(req))
  }

  lemma {:induction false} SumTail(s: seq<nat>, n: nat, i: nat)
    requires n <= i <= |s|
    ensures Sum(s[i..]) <= Sum(s[n..])
    decreases i
  {
    if n < i {
      assert s[i - 1..][1..] == s[i..];
      SumTail(s, n, i - 1);
    }
  }

  /** The search takes block b of list n when it comes to it. */
  ghost predicate Pick(cfg: Config, req: Request, s: State, n: nat, b: nat) {
    Suitable(cfg, req, s, n, b) && !Better(cfg, req, s.hdrs, b)
  }

  lemma PickIff(cfg: Config, req: Request, s: State, n: nat, b: nat)
    requires FreeAt(s.hdrs, b)
    ensures Pick(cfg, req, s, n, b) == (Suitable(cfg, req, s, n, b) && !Better(cfg, req, s.hdrs, b))
  {
  }

  ghost predicate NonePicked(cfg: Config, req: Request, s: State, n: nat, j: nat) {
    n < |s.lists.chains| && j <= |s.lists.chains[n]| && forall i :: 0 <= i < j ==>
      !Pick(cfg, req, s, n, s.lists.chains[n][i])
  }

  /** The first block of list n that the search takes is at position j, and r is in it. */
  ghost predicate PickedAt(cfg: Config, req: Request, s: State, n: nat, j: nat, r: nat) {
    && NonePicked(cfg, req, s, n, j) && j < |s.lists.chains[n]|
    && var b := s.lists.chains[n][j];
       Pick(cfg, req, s, n, b) && FreeAt(s.hdrs, b) && b <= r && r + Needed(req) <= b + Size(s.hdrs[b])
  }

  lemma NeededPositive(req: Request)
    requires req.words > 0
    ensures Needed(req) > 0 && Size(Header(req)) == Needed(req) && Header(req).Used?
  {
  }

  lemma HeadOf(s: State, n: nat)
    requires Valid(s) && n <= N_HBLK_FLS
    ensures |s.lists.chains| == |s.lists.heads| == |s.lists.freeBytes| == N_HBLK_FLS + 1
    ensures s.lists.heads[n] == At(s.lists.chains[n], 0)
  {
    hide Tiling, CountsOk, OnOk, Sized, Coalesced, ChainOk, SizeSum;
    assert ListOk(s.hdrs, s.lists, n);
  }

  /** The block at position j of list n. */
  lemma Cursor(s: State, n: nat, j: nat)
    requires Valid(s) && n < |s.lists.chains| == N_HBLK_FLS + 1 && At(s.lists.chains[n], j) != 0
    ensures j < |s.lists.chains[n]| && s.lists.chains[n][j] > 0 && s.lists.chains[n][j] in s.lists.on
    ensures s.lists.on[s.lists.chains[n][j]] == n
    ensures FreeAt(s.hdrs, s.lists.chains[n][j]) && s.hdrs[s.lists.chains[n][j]].next == At(s.lists.chains[n], j + 1)
    ensures s.hdrs[s.lists.chains[n][j]].prev == At(s.lists.chains[n], j - 1)
    ensures j > 0 ==> FreeAt(s.hdrs, s.lists.chains[n][j - 1]) && s.lists.chains[n][j - 1] > 0
    ensures Position(s.lists.chains[n], s.lists.chains[n][j]) == j
  {
    hide Tiling, CountsOk, OnOk, Sized, Coalesced, SizeSum;
    assert ListOk(s.hdrs, s.lists, n);
    var c := s.lists.chains[n];
    assert LinkOk(s.hdrs, c, j);
    if j > 0 {
      assert LinkOk(s.hdrs, c, j - 1);
    }
  }

  /** The blocks in front of position j cannot serve the request, unless the one at j can. */
  ghost predicate Passed(cfg: Config, req: Request, s: State, n: nat, j: nat)
    requires n < |s.lists.chains| && j <= |s.lists.chains[n]|
  {
    || (j < |s.lists.chains[n]| && Suitable(cfg, req, s, n, s.lists.chains[n][j]))
    || forall i :: 0 <= i < j ==> !Suitable(cfg, req, s, n, s.lists.chains[n][i])
  }

  lemma NonePassed(cfg: Config, req: Request, s: State, n: nat)
    requires n < |s.lists.chains|
    ensures Passed(cfg, req, s, n, 0)
  {
  }

  lemma PassedOne(cfg: Config, req: Request, s: State, n: nat, j: nat)
    requires n < |s.lists.chains| && j < |s.lists.chains[n]| && Passed(cfg, req, s, n, j)
    requires var c := s.lists.chains[n];
               !Suitable(cfg, req, s, n, c[j]) || (j + 1 < |c| && Suitable(cfg, req, s, n, c[j + 1]))
    ensures Passed(cfg, req, s, n, j + 1)
  {
    hide Suitable;
  }

  lemma AllPassed(cfg: Config, req: Request, s: State, n: nat, j: nat)
    requires Valid(s) && n < |s.lists.chains| == N_HBLK_FLS + 1 && j <= |s.lists.chains[n]|
    requires At(s.lists.chains[n], j) == 0
    requires Passed(cfg, req, s, n, j)
    ensures NoneSuitable(cfg, req, s, n)
  {
    hide Tiling, CountsOk, OnOk, Sized, Coalesced, SizeSum, Suitable;
    assert ListOk(s.hdrs, s.lists, n);
    var c := s.lists.chains[n];
    forall i | 0 <= i < |c|
      ensures c[i] > 0
    {
      assert LinkOk(s.hdrs, c, i);
    }
    assert j == |c|;
  }

  lemma TakenIsAllocated(cfg: Config, req: Request, s: State, s': State, hbp: nat, r: nat)
    requires Valid(s) && FreeAt(s.hdrs, hbp) && 0 < hbp <= r && r + Needed(req) <= hbp + Size(s.hdrs[hbp])
    requires UsedOf(s'.hdrs) == UsedOf(s.hdrs)[r := Header(req)] && s'.owner.Keys == s.owner.Keys
    requires s'.heapSize == s.heapSize
    requires !Exempt(req) && BL.Listed(cfg.black, r, Effective(req)) ==>
               r == hbp && Needed(req) * HBLKSIZE > cfg.blLimit &&
               (Size(s.hdrs[hbp]) - Needed(req)) * HBLKSIZE > cfg.blLimit
    ensures Allocated(cfg, req, s, s', r, {})
  {
    hide ListsOk, Tiling, CountsOk, OnOk, Sized, Coalesced, UsedOf, Header, FreeCell, Exempt, BL.Listed, Blocks, Size;
    assert UsedOf(s.hdrs) + DroppedMap({}) == UsedOf(s.hdrs);
    forall x: nat | r <= x < hbp + Size(s.hdrs[hbp])
      ensures FreeCell(s, x)
    {
      FreeCellFrom(s, hbp, x);
    }
  }

  lemma DropIsAllocated(cfg: Config, req: Request, s: State, s': State, hbp: nat)
    requires Valid(s) && FreeAt(s.hdrs, hbp) && s'.owner.Keys == s.owner.Keys && s'.heapSize == s.heapSize
    requires UsedOf(s'.hdrs) == UsedOf(s.hdrs) + Dropped(hbp, hbp + Size(s.hdrs[hbp]))
    requires Needed(req) == 1 && !Exempt(req) && !cfg.findLeak
    requires forall x: nat :: hbp <= x < hbp + Size(s.hdrs[hbp]) ==> BL.Listed(cfg.black, x, 1)
    requires s'.largeFree <= s.largeFree && |s'.lists.freeBytes| == |s.lists.freeBytes|
    requires forall i :: 0 <= i < |s.lists.freeBytes| ==> s'.lists.freeBytes[i] <= s.lists.freeBytes[i]
    requires s'.lists.on == s.lists.on - {hbp}
    requires forall k: nat :: FreeAt(s'.hdrs, k) ==> FreeAt(s.hdrs, k) && Size(s'.hdrs[k]) == Size(s.hdrs[k])
    ensures Allocated(cfg, req, s, s', 0, Range(hbp, hbp + Size(s.hdrs[hbp]))) && Shrunk(s, s')
  {
    hide ListsOk, Tiling, CountsOk, OnOk, Sized, Coalesced, UsedOf, Header, FreeCell, Exempt, BL.Listed, Blocks, Size,
      Range;
    var cells := Range(hbp, hbp + Size(s.hdrs[hbp]));
    assert DroppedMap(cells) == Dropped(hbp, hbp + Size(s.hdrs[hbp]));
    forall x: nat | x in cells
      ensures FreeCell(s, x)
    {
      FreeCellFrom(s, hbp, x);
    }
  }

  /** After a drop the search goes on at the same position. */
  lemma DroppedCursor(cfg: Config, req: Request, s: State, s': State, n: nat, j: nat)
    requires Valid(s) && Valid(s') && Shrunk(s, s') && n < |s.lists.chains| == N_HBLK_FLS + 1
    requires At(s.lists.chains[n], j) != 0
    requires j < |s.lists.chains[n]| && Passed(cfg, req, s, n, j) && !Suitable(cfg, req, s, n, s.lists.chains[n][j])
    requires ShorterList(s.lists, s'.lists, s.lists.chains[n][j], n)
    ensures |s'.lists.chains| == N_HBLK_FLS + 1 && |s'.lists.chains[n]| == |s.lists.chains[n]| - 1
    ensures Passed(cfg, req, s', n, j) && NonePicked(cfg, req, s', n, j)
    ensures j > 0 ==>
              FreeAt(s'.hdrs, s.lists.chains[n][j - 1]) &&
              s'.hdrs[s.lists.chains[n][j - 1]].next == At(s'.lists.chains[n], j)
  {
    hide Valid, Suitable, Shrunk;
    Cursor(s, n, j);
    var c, d := s.lists.chains[n], s'.lists.chains[n];
    assert d == Cut(c, j);
    GateFits(s);
    HeadOf(s, n);
    forall i | 0 <= i < j
      ensures !Suitable(cfg, req, s', n, d[i])
    {
      assert d[i] == c[i];
      if Suitable(cfg, req, s', n, d[i]) {
        StaysUnsuitable(cfg, req, s, s', n, d[i]);
      }
    }
    if j > 0 {
      Cursor(s, n, j - 1);
      Cursor(s', n, j - 1);
    }
  }

  /** A dropped block does not fit, so blocks that do stay. */
  lemma DropKeepsFits(cfg: Config, req: Request, s: State, s': State, n: nat, hbp: nat)
    requires !Suitable(cfg, req, s, n, hbp) && n <= |s.lists.freeBytes| && s'.lists.on == s.lists.on - {hbp}
    requires forall k: nat :: FreeAt(s'.hdrs, k) <==> FreeAt(s.hdrs, k) && k != hbp
    requires forall k: nat :: FreeAt(s'.hdrs, k) ==> FreeAt(s.hdrs, k) && Size(s'.hdrs[k]) == Size(s.hdrs[k])
    ensures KeepsFits(cfg, req, s, s', n)
  {
    hide Suitable, HasStart, Exempt, Size;
    forall b | Fits(cfg, req, s, n, b)
      ensures Fits(cfg, req, s', n, b)
    {
      FitsIsSuitable(cfg, req, s, n, b);
    }
  }

  /** The list for a size below UNIQUE_THRESHOLD holds that size only, so a block taken from it is used whole. */
  lemma ExactFit(cfg: Config, req: Request, s: State, before: State, r: nat)
    requires Valid(before) && Shrunk(s, before) && Needed(req) < UNIQUE_THRESHOLD
    requires exists j: nat :: PickedAt(cfg, req, before, Needed(req), j, r)
    ensures FreeAt(s.hdrs, r) && Size(s.hdrs[r]) == Needed(req)
  {
    hide ListsOk, Tiling, CountsOk, Coalesced, FlFromBlocks, Blocks, Size, Pick;
    var n := Needed(req);
    var j: nat :| PickedAt(cfg, req, before, n, j, r);
    var b := before.lists.chains[n][j];
    HeadOf(before, n);
    PositiveBlock(before, b);
    Cursor(before, n, j);
    ListedSize(before, b);
    ListOfSize(n, Size(before.hdrs[b]));
  }

  /** Every listed block is on the list of its band of sizes. */
  lemma ListsHoldBands(s: State, b: nat)
    requires Valid(s) && b in s.lists.on
    ensures FreeAt(s.hdrs, b) && s.lists.on[b] <= N_HBLK_FLS && LeastSize(s.lists.on[b]) <= Size(s.hdrs[b])
    ensures s.lists.on[b] < N_HBLK_FLS ==> Size(s.hdrs[b]) < LeastSize(s.lists.on[b] + 1)
  {
    hide ListsOk, Tiling, CountsOk, Coalesced, FlFromBlocks, Blocks, Size, LeastSize;
    ListedSize(s, b);
    ListOfSize(s.lists.on[b], Size(s.hdrs[b]));
  }

  lemma GateFits(s: State)
    requires Valid(s)
    ensures s.largeFree <= s.heapSize
  {
    hide ListsOk, Tiling, OnOk, Sized, Coalesced, Sum;
    CellsWithin(s.owner, FreeBlocks(s.hdrs));
  }

  lemma CellsWithin(owner: map<nat, nat>, blocks: set<nat>)
    ensures |Cells(owner, blocks)| <= |owner|
  {
    SubsetCard(Cells(owner, blocks), owner.Keys);
    assert |owner| == |owner.Keys|;
  }

  lemma SmallListsFail(cfg: Config, req: Request, s: State)
    requires Valid(s)
    ensures forall n :: 0 <= n < FlFromBlocks(Needed(req)) ==> NoneSuitable(cfg, req, s, n)
  {
    hide ListsOk, Tiling, CountsOk, Coalesced, FlFromBlocks, Blocks, Size, GateClosed, HasStart, Exempt, Punt;
    forall n, b | 0 <= n < FlFromBlocks(Needed(req)) && b in s.lists.on && s.lists.on[b] == n
      ensures !Suitable(cfg, req, s, n, b)
    {
      ListedSize(s, b);
      if Needed(req) <= Size(s.hdrs[b]) {
        BigEnoughIsNotBelow(Needed(req), Size(s.hdrs[b]));
      }
    }
  }

  lemma ListedSize(s: State, b: nat)
    requires Valid(s) && b in s.lists.on
    ensures b in s.hdrs && s.lists.on[b] == FlFromBlocks(Size(s.hdrs[b]))
  {
    hide ListsOk, CountsOk, Coalesced, FlFromBlocks, Blocks, Size;
  }

  lemma StillNoneSuitable(cfg: Config, req: Request, s: State, s': State, i: nat)
    requires Valid(s) && Shrunk(s, s') && i <= N_HBLK_FLS && NoneSuitable(cfg, req, s', i)
    requires forall n :: 0 <= n < i ==> NoneSuitable(cfg, req, s, n)
    ensures forall n :: 0 <= n <= i ==> NoneSuitable(cfg, req, s', n)
  {
    hide Valid, Shrunk, NoneSuitable;
    GateFits(s);
    HeadOf(s, i);
    forall n: nat | n < i
      ensures NoneSuitable(cfg, req, s', n)
    {
      NoneSuitableStays(cfg, req, s, s', n);
    }
  }

  lemma ShorterFacts(l: Lists, l': Lists, b: nat, n: nat)
    requires ShorterList(l, l', b, n)
    ensures |l'.freeBytes| == |l.freeBytes| && forall i :: 0 <= i < |l.freeBytes| ==> l'.freeBytes[i] <= l.freeBytes[i]
  {
  }

  lemma {:induction false} SumZero(s: seq<nat>)
    requires forall i :: 0 <= i < |s| ==> s[i] == 0
    ensures Sum(s) == 0
  {
    if s != [] {
      SumZero(s[1..]);
    }
  }

  lemma EmptyIsValid(s: State)
    requires s.hdrs == map[] && s.owner == map[] && s.lists.on == map[] && s.largeFree == 0 && s.heapSize == 0
    requires |s.lists.heads| == |s.lists.freeBytes| == |s.lists.chains| == N_HBLK_FLS + 1
    requires forall i :: 0 <= i <= N_HBLK_FLS ==>
               s.lists.heads[i] == 0 && s.lists.freeBytes[i] == 0 && s.lists.chains[i] == []
    ensures Valid(s)
  {
    SumZero(s.lists.freeBytes);
    assert Cells(s.owner, FreeBlocks(s.hdrs)) == {} && Cells(s.owner, s.lists.on.Keys) == {};
  }

  // ---------------------------------------------------------------- consequences

  /** The counts of the lists add up to GC_large_free_bytes, and with the used blocks to GC_heapsize. */
  lemma HeapAccounting(s: State)
    requires Valid(s)
    ensures Sum(s.lists.freeBytes) == s.largeFree
    ensures s.largeFree + |Cells(s.owner, UsedOf(s.hdrs).Keys)| == s.heapSize
    ensures forall i :: 0 <= i <= N_HBLK_FLS ==>
              |s.lists.chains| > i && s.lists.freeBytes[i] == SizeSum(s.hdrs, s.lists.chains[i])
  {
    hide Size, Blocks, SizeSum, Sum, Sized, Coalesced, Tiling, ListOk, Cells, UsedOf;
    assert s.lists.on.Keys == FreeBlocks(s.hdrs);
    FreeOrUsed(s.hdrs, s.owner);
    assert |s.owner| == |s.owner.Keys|;
    forall i | 0 <= i <= N_HBLK_FLS
      ensures s.lists.freeBytes[i] == SizeSum(s.hdrs, s.lists.chains[i])
    {
      ListCount(s.hdrs, s.lists, i);
    }
  }

  lemma FreeOrUsed(hdrs: Hdrs, owner: map<nat, nat>)
    requires Tiling(hdrs, owner)
    ensures |Cells(owner, FreeBlocks(hdrs))| + |Cells(owner, UsedOf(hdrs).Keys)| == |owner.Keys|
  {
    hide Size, Blocks;
    var free, used := Cells(owner, FreeBlocks(hdrs)), Cells(owner, UsedOf(hdrs).Keys);
    forall x | x in owner
      ensures x in free || x in used
    {
      assert OwnedOk(hdrs, owner, x);
    }
    assert free + used == owner.Keys && free !! used;
  }

  lemma ListCount(hdrs: Hdrs, l: Lists, i: nat)
    requires ListsOk(hdrs, l) && i <= N_HBLK_FLS
    ensures l.freeBytes[i] == SizeSum(hdrs, l.chains[i])
  {
    assert ListOk(hdrs, l, i);
  }

  /** With the collect gate open and the black list out of play, GC_allochblk fails only if no free block is large
      enough. */
  lemma AllocationComplete(cfg: Config, req: Request, s: State, b: nat)
    requires Valid(s) && forall n :: 0 <= n <= N_HBLK_FLS ==> NoneSuitable(cfg, req, s, n)
    requires cfg.useEntireHeap || cfg.dontGc || cfg.incremental || !cfg.shouldCollect
    requires Exempt(req) || forall t: nat :: !BL.Listed(cfg.black, t, Effective(req))
    requires FreeAt(s.hdrs, b)
    ensures Size(s.hdrs[b]) < Needed(req)
  {
    hide ListsOk, Tiling, CountsOk, Coalesced, FlFromBlocks, Blocks, Size, Punt, BL.Listed, Exempt;
    assert b in s.lists.on;
    ListedSize(s, b);
    var n := s.lists.on[b];
    assert n <= N_HBLK_FLS && |s.lists.freeBytes| == N_HBLK_FLS + 1 by {
      HeadOf(s, 0);
      ListIndex(s, b);
    }
    if !Exempt(req) {
      assert !BL.Listed(cfg.black, b, Effective(req));
    }
    assert NoneSuitable(cfg, req, s, n);
    assert !Suitable(cfg, req, s, n, b);
  }

  lemma ListIndex(s: State, b: nat)
    requires Valid(s) && b in s.lists.on
    ensures s.lists.on[b] <= N_HBLK_FLS
  {
  }

  /** Freeing the block just allocated restores the free blocks, whatever was split in between. */
  lemma FreeUndoesAlloc(cfg: Config, req: Request, s: State, s1: State, s2: State, r: nat, b: nat)
    requires Valid(s) && Valid(s1) && Valid(s2) && r != 0 && 0 < Needed(req) && Allocated(cfg, req, s, s1, r, {})
    requires UsedOf(s2.hdrs) == UsedOf(s1.hdrs) - {r} && s2.owner.Keys == s1.owner.Keys
    ensures FreeAt(s.hdrs, b) <==> FreeAt(s2.hdrs, b)
    ensures FreeAt(s.hdrs, b) ==> Size(s.hdrs[b]) == Size(s2.hdrs[b])
  {
    hide Valid, UsedOf, FreeCell, Exempt, Header, Blocks, Size;
    assert FreeCell(s, r);
    assert r !in UsedOf(s.hdrs) by {
      if r in UsedOf(s.hdrs) {
        DroppedIsUsed(s, r);
      }
    }
    assert UsedOf(s.hdrs) + DroppedMap({}) == UsedOf(s.hdrs);
    assert UsedOf(s2.hdrs) == UsedOf(s.hdrs);
    if FreeAt(s.hdrs, b) {
      FreeBlocksAgree(s, s2, b);
    } else if FreeAt(s2.hdrs, b) {
      FreeBlocksAgree(s2, s, b);
    }
  }

  /** The header and head updates of GC_split_block put n in the place of h. */
  lemma SwapKeeps(hdrs: Hdrs, l: Lists, h: nat, n: nat, size: nat, h1: Hdrs, h2: Hdrs, h3: Hdrs, l': Lists)
    requires ListsOk(hdrs, l) && h in l.on && FreeAt(hdrs, h) && l.on[h] < |l.chains| == |l.heads| == |l.freeBytes|
    requires h in l.chains[l.on[h]] && Size(hdrs[h]) <= l.freeBytes[l.on[h]] && n !in hdrs && n !in l.on
    requires h < n < h + Size(hdrs[h]) && size == Size(hdrs[h]) - (n - h)
    requires h1 == hdrs[n := Free(size, hdrs[h].prev, hdrs[h].next)]
    requires hdrs[h].prev != 0 ==> FreeAt(h1, hdrs[h].prev)
    requires h2 == if hdrs[h].prev != 0 then SetNext(h1, hdrs[h].prev, n) else h1
    requires hdrs[h].next != 0 ==> FreeAt(h2, hdrs[h].next)
    requires h3 == if hdrs[h].next != 0 then SetPrev(h2, hdrs[h].next, n) else h2
    requires l'.heads == if hdrs[h].prev != 0 then l.heads else l.heads[l.on[h] := n]
    requires l'.freeBytes == l.freeBytes[l.on[h] := l.freeBytes[l.on[h]] - (n - h)]
    requires InPlace(l, l', h, n, l.on[h]) && l'.on == (l.on - {h})[n := l.on[h]]
    ensures ListsOk(h3, l') && h3.Keys == hdrs.Keys + {n} && h3[h] == hdrs[h] && FreeAt(h3, n) && Size(h3[n]) == size
    ensures forall k :: k in hdrs ==> SameBlock(hdrs[k], h3[k])
  {
    hide SizeSum, ListsOk, ChainOk;
    var c, j := RemovedChain(hdrs, l, h);
    ReplaceChain(hdrs, c, j, n, size, h1, h2, h3);
    ReplaceKeeps(hdrs, l, h, n, n - h, h1, h3);
    assert l' == Replaced(l, h, n, l.on[h], n - h);
    assert SameBlock(h1[n], h3[n]);
  }
}
