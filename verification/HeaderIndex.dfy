/** The two-level index from block addresses to block headers. Addresses are block numbers. A bottom index covers
    BOTTOM_SZ consecutive blocks and is identified by its key, the high-order part of their addresses. */
module HeaderIndex {
  import opened BlockLists
  import opened BlockTiling
  import opened HblkAlloc

  const BOTTOM_SZ := 1024
  const MAX_JUMP := 4095

  datatype Entry =
    | Nil                    // no header here, or inside a free block
    | Jump(count: nat)       // inside a used block that starts at least `count` blocks further down
    | Head(h: Hdr)

  const NONE := -1

  /** A bottom index; asc and desc are the keys of its neighbours, or NONE. */
  datatype Bottom = Bottom(index: seq<Entry>, asc: int, desc: int)

  type Index = map<nat, Bottom>

  function Hi(x: nat): nat {
    x / BOTTOM_SZ
  }

  function Lo(x: nat): (lo: nat)
    ensures lo < BOTTOM_SZ
  {
    x % BOTTOM_SZ
  }

  function Addr(hi: nat, lo: nat): nat {
    hi * BOTTOM_SZ + lo
  }

  lemma AddrParts(hi: nat, lo: nat)
    requires lo < BOTTOM_SZ
    ensures Hi(Addr(hi, lo)) == hi && Lo(Addr(hi, lo)) == lo
  {
  }

  lemma PartsAddr(x: nat)
    ensures Addr(Hi(x), Lo(x)) == x
  {
  }

  lemma AddrOrder(hi: nat, lo: nat, x: nat)
    requires lo < BOTTOM_SZ
    ensures x < Addr(hi, lo) <==> Hi(x) < hi || (Hi(x) == hi && Lo(x) < lo)
    ensures x == Addr(hi, lo) <==> Hi(x) == hi && Lo(x) == lo
  {
    PartsAddr(x);
    if Hi(x) < hi {
      assert Hi(x) + 1 <= hi;
    } else if Hi(x) > hi {
      assert hi + 1 <= Hi(x);
    }
  }

  ghost predicate Shape(bis: Index) {
    forall k :: k in bis ==> |bis[k].index| == BOTTOM_SZ
  }

  /** HDR */
  function EntryAt(bis: Index, x: nat): Entry {
    if Hi(x) in bis && Lo(x) < |bis[Hi(x)].index| then bis[Hi(x)].index[Lo(x)] else Nil
  }

  // ---------------------------------------------------------------- the linked list of bottom indices

  /** n is the least key above k, or NONE if there is none. */
  ghost predicate IsNext(bis: Index, k: int, n: int) {
    && (n == NONE ==> forall m :: m in bis ==> m <= k)
    && (n != NONE ==> n >= 0 && n in bis && n > k && forall m :: m in bis ==> m <= k || m >= n)
  }

  /** p is the greatest key below k, or NONE if there is none. */
  ghost predicate IsPrev(bis: Index, k: int, p: int) {
    && (p == NONE ==> forall m :: m in bis ==> m >= k)
    && (p != NONE ==> p >= 0 && p in bis && p < k && forall m :: m in bis ==> m <= p || m >= k)
  }

  ghost predicate IsLast(bis: Index, last: int) {
    && (last == NONE ==> bis == map[])
    && (last != NONE ==> last >= 0 && last in bis && forall m :: m in bis ==> m <= last)
  }

  /** The bottom indices are linked in strictly ascending order of their keys, and in descending order. */
  ghost predicate LinksOk(bis: Index, first: int, last: int) {
    && Shape(bis) && IsNext(bis, NONE, first) && IsLast(bis, last)
    && forall k :: k in bis ==> LinkAt(bis, k)
  }

  ghost predicate LinkAt(bis: Index, k: nat)
    requires k in bis
  {
    IsNext(bis, k, bis[k].asc) && IsPrev(bis, k, bis[k].desc)
  }

  lemma LinksInverse(bis: Index, first: int, last: int, k: nat)
    requires LinksOk(bis, first, last) && k in bis
    ensures bis[k].asc != NONE ==> bis[k].asc >= 0 && bis[k].asc in bis && bis[bis[k].asc].desc == k
    ensures bis[k].desc != NONE ==> bis[k].desc >= 0 && bis[k].desc in bis && bis[bis[k].desc].asc == k
    ensures bis[k].asc == NONE <==> k == last
    ensures bis[k].desc == NONE <==> k == first
  {
    hide LinkAt;
    NeighbourLinks(bis, first, last, k);
    if bis[k].asc != NONE {
      NeighbourLinks(bis, first, last, bis[k].asc);
    }
    if bis[k].desc != NONE {
      NeighbourLinks(bis, first, last, bis[k].desc);
    }
  }

  lemma NeighbourLinks(bis: Index, first: int, last: int, k: int)
    requires LinksOk(bis, first, last) && k >= 0 && k in bis
    ensures IsNext(bis, k, bis[k].asc) && IsPrev(bis, k, bis[k].desc)
  {
    hide IsNext, IsPrev;
    assert LinkAt(bis, k);
  }

  // ---------------------------------------------------------------- the flat block map it stands for

  function Capped(distance: nat): nat {
    if distance > MAX_JUMP then MAX_JUMP else distance
  }

  ghost function Expected(hdrs: Hdrs, owner: map<nat, nat>, x: nat): Entry {
    if x !in owner || owner[x] !in hdrs || owner[x] > x then Nil
    else if owner[x] == x then Head(hdrs[x])
    else if hdrs[owner[x]].Used? then Jump(Capped(x - owner[x]))
    else Nil
  }

  /** The index agrees with the block map: headers at the heads of blocks, capped distances inside used blocks,
      nothing elsewhere. */
  ghost predicate Agrees(bis: Index, hdrs: Hdrs, owner: map<nat, nat>) {
    forall x: nat :: EntryAt(bis, x) == Expected(hdrs, owner, x)
  }

  lemma HeadIff(bis: Index, hdrs: Hdrs, owner: map<nat, nat>, x: nat)
    requires Agrees(bis, hdrs, owner) && Tiling(hdrs, owner)
    ensures EntryAt(bis, x).Head? <==> x in hdrs
    ensures x in hdrs ==> EntryAt(bis, x) == Head(hdrs[x])
  {
    hide Size, Blocks, EntryAt;
    assert EntryAt(bis, x) == Expected(hdrs, owner, x);
    if x in hdrs {
      assert Owns(hdrs, owner, x);
      assert x in owner;
    }
  }

  /** A forwarding count stays inside the block, so it passes no head. */
  lemma JumpInside(bis: Index, hdrs: Hdrs, owner: map<nat, nat>, x: nat)
    requires Agrees(bis, hdrs, owner) && Tiling(hdrs, owner) && EntryAt(bis, x).Jump?
    ensures x in owner && owner[x] in hdrs && hdrs[owner[x]].Used? && 0 < EntryAt(bis, x).count <= x - owner[x]
    ensures EntryAt(bis, x).count == 4095 || x - EntryAt(bis, x).count == owner[x]
    ensures EntryAt(bis, x).count <= 4095
    ensures forall y: nat :: owner[x] < y <= x ==> y !in hdrs && y in owner && owner[y] == owner[x]
  {
    hide Size, Blocks, EntryAt;
    assert EntryAt(bis, x) == Expected(hdrs, owner, x);
    var b := owner[x];
    assert OwnedOk(hdrs, owner, x) && Owns(hdrs, owner, b);
    forall y: nat | b < y <= x
      ensures y !in hdrs && y in owner && owner[y] == b
    {
      assert y in owner && owner[y] == b;
      if y in hdrs {
        Disjoint(hdrs, owner, b, y);
      }
    }
  }

  // ---------------------------------------------------------------- inserting a bottom index

  ghost predicate AllNil(index: seq<Entry>) {
    |index| == BOTTOM_SZ && forall i :: 0 <= i < |index| ==> index[i] == Nil
  }

  ghost predicate SameEntries(bis: Index, bis': Index) {
    forall x: nat :: EntryAt(bis', x) == EntryAt(bis, x)
  }

  /** Bottom index hi goes between p and n. */
  ghost predicate Splice(bis: Index, p: int, hi: nat, n: int, bis': Index) {
    && hi !in bis && bis'.Keys == bis.Keys + {hi} && p < hi && (n == NONE || hi < n)
    && AllNil(bis'[hi].index) && bis'[hi].asc == n && bis'[hi].desc == p
    && forall k :: k in bis ==>
         && bis'[k].index == bis[k].index
         && bis'[k].asc == (if k == p then hi else bis[k].asc) && bis'[k].desc == (if k == n then hi else bis[k].desc)
  }

  lemma SpliceHolds(bis: Index, p: int, hi: nat, n: int, nil: seq<Entry>, b1: Index, b2: Index, b3: Index)
    requires hi !in bis && AllNil(nil) && p < hi && (n == NONE || hi < n) && IsNext(bis, p, n) &&
             (p == NONE || p in bis)
    requires b1 == bis[hi := Bottom(nil, n, p)]
    requires b2 == if n == NONE then b1 else b1[n := Bottom(bis[n].index, bis[n].asc, hi)]
    requires b3 == if p == NONE then b2 else b2[p := Bottom(bis[p].index, hi, bis[p].desc)]
    ensures Splice(bis, p, hi, n, b3)
  {
  }

  lemma InsertNext(bis: Index, p: int, hi: nat, n: int, bis': Index, k: int, m: int)
    requires Splice(bis, p, hi, n, bis') && IsNext(bis, p, n) && (k in bis || k == NONE) && IsNext(bis, k, m) &&
             (p == NONE || p in bis)
    ensures IsNext(bis', k, if k == p then hi else m)
  {
  }

  lemma InsertPrev(bis: Index, p: int, hi: nat, n: int, bis': Index, k: nat, m: int)
    requires Splice(bis, p, hi, n, bis') && IsNext(bis, p, n) && k in bis && IsPrev(bis, k, m)
    requires (p == NONE || p in bis)
    ensures IsPrev(bis', k, if k == n then hi else m)
  {
  }

  lemma InsertLinks(bis: Index, first: int, last: int, p: int, hi: nat, n: int, bis': Index)
    requires LinksOk(bis, first, last) && Splice(bis, p, hi, n, bis') && IsNext(bis, p, n) && (p == NONE || p in bis)
    ensures LinksOk(bis', if p == NONE then hi else first, if n == NONE then hi else last)
    ensures SameEntries(bis, bis')
  {
    hide EntryAt, IsNext, IsPrev;
    InsertNext(bis, p, hi, n, bis', NONE, first);
    forall k | k in bis'
      ensures LinkAt(bis', k)
    {
      if k == hi {
        InsertedLinks(bis, p, hi, n, bis');
      } else {
        assert LinkAt(bis, k);
        InsertNext(bis, p, hi, n, bis', k, bis[k].asc);
        InsertPrev(bis, p, hi, n, bis', k, bis[k].desc);
      }
    }
    InsertedLast(bis, p, hi, n, bis', last);
    SameIndexes(bis, bis', hi);
  }

  lemma InsertedLinks(bis: Index, p: int, hi: nat, n: int, bis': Index)
    requires Splice(bis, p, hi, n, bis') && IsNext(bis, p, n) && (p == NONE || p in bis)
    ensures IsNext(bis', hi, n) && IsPrev(bis', hi, p)
  {
  }

  lemma InsertedLast(bis: Index, p: int, hi: nat, n: int, bis': Index, last: int)
    requires Splice(bis, p, hi, n, bis') && IsNext(bis, p, n) && IsLast(bis, last)
    ensures IsLast(bis', if n == NONE then hi else last)
  {
  }

  lemma SameIndexes(bis: Index, b3: Index, hi: nat)
    requires Shape(bis) && Shape(b3) && hi !in bis && b3.Keys == bis.Keys + {hi} && AllNil(b3[hi].index)
    requires forall k :: k in bis ==> b3[k].index == bis[k].index
    ensures SameEntries(bis, b3)
  {
    hide Hi;
  }

  class Headers {
    var bis: Index          // the bottom indices, by key
    var first: int          // GC_all_bottom_indices
    var last: int           // GC_all_bottom_indices_end
    ghost var hdrs: Hdrs    // the block map the index stands for
    ghost var owner: map<nat, nat>

    ghost predicate Linked()
      reads this
    {
      LinksOk(bis, first, last)
    }

    ghost predicate Valid()
      reads this
    {
      LinksOk(bis, first, last) && Tiling(hdrs, owner) && Agrees(bis, hdrs, owner)
    }

    /** The place of key hi in the list of bottom indices. */
    method FindGap(hi: nat) returns (pi: int, p: int)
      requires Linked() && hi !in bis
      ensures IsNext(bis, pi, p) && pi < hi && (pi == NONE || pi in bis) && (p == NONE || hi < p)
    {
      hide LinkAt;
      p, pi := first, NONE;
      while p != NONE && p < hi
        invariant IsNext(bis, pi, p) && pi < hi && (pi == NONE || pi in bis)
        decreases hi - pi
      {
        NeighbourLinks(bis, first, last, p);
        pi := p;
        p := bis[p].asc;
      }
    }

    /** get_index: makes sure that there is a bottom index with key hi. */
    method GetIndex(hi: nat)
      requires Linked()
      modifies this`bis, this`first, this`last
      ensures Linked() && hi in bis && SameEntries(old(bis), bis)
      ensures bis.Keys == old(bis).Keys + {hi}
    {
      hide EntryAt, Splice, LinkAt;
      if hi in bis {
        return;
      }
      var pi, p := FindGap(hi);
      ghost var b0 := bis;
      var nil := seq(BOTTOM_SZ, j => Nil);
      bis := bis[hi := Bottom(nil, p, pi)];
      ghost var b1 := bis;
      if p == NONE {
        last := hi;
      } else {
        bis := bis[p := bis[p].(desc := hi)];
      }
      ghost var b2 := bis;
      if pi == NONE {
        first := hi;
      } else {
        bis := bis[pi := bis[pi].(asc := hi)];
      }
      SpliceHolds(b0, pi, hi, p, nil, b1, b2, bis);
      InsertLinks(b0, old(first), old(last), pi, hi, p, bis);
    }

    /** SET_HDR, for a block that has a bottom index. */
    method SetEntry(x: nat, e: Entry)
      requires Linked() && Hi(x) in bis
      modifies this`bis
      ensures Linked() && bis.Keys == old(bis).Keys && Wrote(old(bis), bis, x, e) && SameLinks(old(bis), bis)
    {
      hide Hi, Lo, LinkAt;
      ghost var b0 := bis;
      var bi := bis[Hi(x)];
      bis := bis[Hi(x) := Bottom(bi.index[Lo(x) := e], bi.asc, bi.desc)];
      LinksSame(b0, bis, first, last);
      WroteOne(b0, bis, x, e);
    }

    /** GC_install_counts: afterwards every block of the range has a bottom index, and those inside it hold their
        capped distance to h. */
    method InstallCounts(h: nat, n: nat)
      requires Linked() && n > 0
      modifies this`bis, this`first, this`last
      ensures Linked()
      ensures forall x: nat :: EntryAt(bis, x) == if h < x < h + n then Jump(Capped(x - h)) else EntryAt(old(bis), x)
      ensures forall x: nat :: h <= x < h + n ==> Hi(x) in bis
    {
      hide EntryAt, Linked, LinksOk, Capped;
      IndexRange(h, n);
      ghost var b1 := bis;
      var hbp := h + 1;
      while hbp < h + n
        invariant h < hbp <= h + n && Linked() && bis.Keys == b1.Keys
        invariant forall x: nat :: EntryAt(bis, x) == if h < x < hbp then Jump(Capped(x - h)) else EntryAt(old(bis), x)
      {
        SetEntry(hbp, Jump(Capped(hbp - h)));
        hbp := hbp + 1;
      }
    }

    /** The first part of GC_install_counts. */
    method IndexRange(h: nat, n: nat)
      requires Linked() && n > 0
      modifies this`bis, this`first, this`last
      ensures Linked() && SameEntries(old(bis), bis)
      ensures forall x: nat :: h <= x < h + n ==> Hi(x) in bis
    {
      hide EntryAt, LinksOk;
      var hbp := h;
      while hbp < h + n
        invariant h <= hbp < h + n + BOTTOM_SZ && Linked() && SameEntries(old(bis), bis)
        invariant forall k: nat :: Hi(h) <= k < Hi(hbp) ==> k in bis
      {
        GetIndex(Hi(hbp));
        NextIndex(hbp);
        hbp := hbp + BOTTOM_SZ;
      }
      GetIndex(Hi(h + n - 1));
      forall x: nat | h <= x < h + n
        ensures Hi(x) in bis
      {
        HiBetween(h, x, h + n - 1, hbp);
      }
    }

    /** GC_remove_counts */
    method RemoveCounts(h: nat, n: nat)
      requires Linked()
      modifies this`bis
      ensures Linked() && bis.Keys == old(bis).Keys && SameLinks(old(bis), bis)
      ensures forall x: nat :: EntryAt(bis, x) == if h < x < h + n then Nil else EntryAt(old(bis), x)
    {
      hide EntryAt, Linked, LinksOk;
      var hbp := h + 1;
      while hbp < h + n
        invariant h < hbp && Linked() && bis.Keys == old(bis).Keys && SameLinks(old(bis), bis)
        invariant forall x: nat :: EntryAt(bis, x) == if h < x < hbp && x < h + n then Nil else EntryAt(old(bis), x)
      {
        if Hi(hbp) in bis {
          SetEntry(hbp, Nil);
        } else {
          NoEntry(bis, hbp);
        }
        hbp := hbp + 1;
      }
    }

    /** GC_install_header */
    method InstallHeader(x: nat, h: Hdr)
      requires Linked()
      modifies this`bis, this`first, this`last
      ensures Linked() && Wrote(old(bis), bis, x, Head(h))
    {
      hide EntryAt, LinksOk;
      GetIndex(Hi(x));
      SetEntry(x, Head(h));
    }

    constructor ()
      ensures Valid() && hdrs == map[]
    {
      bis := map[];
      first, last := NONE, NONE;
      hdrs := map[];
      owner := map[];
    }

    /** A section added to the heap gets one header. */
    method AddSection(p: nat, n: nat)
      requires Valid() && p > 0 && n > 0 && forall x :: x in owner ==> !(p <= x < p + n)
      modifies this
      ensures Valid() && hdrs == old(hdrs)[p := Free(n, 0, 0)] && owner == Give(old(owner), p, p, p + n)
    {
      hide LinksOk, Tiling, Agrees, EntryAt, Give, Hi;
      ghost var b0, h0, o0 := bis, hdrs, owner;
      InstallHeader(p, Free(n, 0, 0));
      hdrs := hdrs[p := Free(n, 0, 0)];
      owner := Give(owner, p, p, p + n);
      SectionAgrees(b0, bis, h0, hdrs, o0, owner, p, n);
    }

    /** What GC_get_first_part and GC_split_block do to the index: the second part of a free block gets a header. */
    method SplitBlock(b: nat, m: nat)
      requires Valid() && FreeAt(hdrs, b) && 0 < m < Size(hdrs[b])
      modifies this
      ensures Valid() && hdrs == old(hdrs)[b := Free(m, 0, 0)][b + m := Free(Size(old(hdrs)[b]) - m, 0, 0)]
      ensures owner == Give(old(owner), b + m, b + m, b + Size(old(hdrs)[b]))
    {
      hide LinksOk, Tiling, Agrees, EntryAt, Give, Hi;
      ghost var b0, h0, o0 := bis, hdrs, owner;
      HeadIff(bis, hdrs, owner, b);
      var size := Size(EntryAt(bis, b).h);
      InstallHeader(b + m, Free(size - m, 0, 0));
      ghost var b1 := bis;
      InstallHeader(b, Free(m, 0, 0));
      hdrs := hdrs[b := Free(m, 0, 0)][b + m := Free(size - m, 0, 0)];
      owner := Give(owner, b + m, b + m, b + size);
      SplitAgrees(b0, b1, bis, h0, hdrs, o0, owner, b, m);
    }

    /** What allocating a free block of the right size does to the index. */
    method UseBlock(b: nat, h: Hdr)
      requires Valid() && FreeAt(hdrs, b) && h.Used? && Size(h) == Size(hdrs[b])
      modifies this
      ensures Valid() && hdrs == old(hdrs)[b := h] && owner == old(owner)
    {
      hide LinksOk, Tiling, Agrees, EntryAt, Hi, Size, Capped;
      ghost var b0, h0 := bis, hdrs;
      HeadIff(bis, hdrs, owner, b);
      PositiveSize(hdrs, owner, b);
      InstallCounts(b, Size(h));
      ghost var b1 := bis;
      InstallHeader(b, h);
      hdrs := hdrs[b := h];
      UseAgrees(b0, b1, bis, h0, hdrs, owner, b);
    }

    /** Following forwarding counts from anywhere in a used block leads to its head, in as few steps as counts of twelve
        bits allow. */
    method ForwardToHead(x: nat) returns (b: nat, ghost steps: nat)
      requires Valid() && x in owner && owner[x] in hdrs && hdrs[owner[x]].Used?
      ensures b == owner[x] && EntryAt(bis, b) == Head(hdrs[b])
      ensures 4095 * steps >= x - b > 4095 * (steps - 1)
    {
      hide LinksOk, Tiling, Agrees, EntryAt;
      b, steps := x, 0;
      OwnerBelow(hdrs, owner, x);
      while EntryAt(bis, b).Jump?
        invariant owner[x] <= b <= x && b in owner && owner[b] == owner[x]
        invariant 4095 * steps >= x - b > 4095 * (steps - 1) && (b != owner[x] ==> x - b == 4095 * steps)
        decreases b
      {
        JumpInside(bis, hdrs, owner, b);
        b := b - EntryAt(bis, b).count;
        SameOwner(hdrs, owner, x, b);
        steps := steps + 1;
      }
      EndOfJumps(bis, hdrs, owner, b);
    }

    /** GC_next_used_block: the least used block at or above h, or 0. */
    method NextUsedBlock(h: nat) returns (r: nat)
      requires Valid()
      ensures r != 0 ==> r >= h && UsedAt(hdrs, r) && forall x: nat :: h <= x < r ==> !UsedAt(hdrs, x)
      ensures r == 0 ==> forall x: nat :: h <= x ==> !UsedAt(hdrs, x)
    {
      hide LinksOk, Tiling, Agrees, EntryAt, IsNext, IsPrev, Addr, Hi, Lo, NoUsed;
      var bi: int, j: nat := Hi(h), Lo(h);
      if Hi(h) !in bis {
        var pi;
        pi, bi := FindGap(Hi(h));
        j := 0;
        GapAbove(bis, hdrs, owner, pi, bi, h);
      } else {
        NoUsedYet(hdrs, h);
      }
      while bi != NONE
        invariant bi == NONE || (bi >= 0 && bi in bis)
        invariant NoUsed(hdrs, h, bi, j) && From(h, bi, j)
        decreases if bi == NONE then 0 else last - bi + 1
      {
        LastKey(bis, first, last, bi);
        while j < BOTTOM_SZ
          invariant NoUsed(hdrs, h, bi, j) && From(h, bi, j)
          decreases BOTTOM_SZ - j
        {
          var e := bis[bi].index[j];
          ReadEntry(bis, first, last, bi, j);
          SkipOne(bis, hdrs, owner, h, bi, j);
          if !e.Head? {
            j := j + 1;
          } else if e.h.Used? {
            HeadIff(bis, hdrs, owner, Addr(bi, j));
            FoundUsed(hdrs, owner, h, bi, j);
            return Addr(bi, j);
          } else {
            SkipFree(bis, hdrs, owner, h, bi, j);
            j := j + e.h.size;
          }
        }
        NeighbourLinks(bis, first, last, bi);
        NextHasNone(bis, hdrs, owner, h, bi, j, bis[bi].asc);
        NextKeyUp(bis, first, last, bi);
        j := 0;
        bi := bis[bi].asc;
      }
      r := 0;
      NoUsedAtAll(hdrs, h, j);
    }

    /** The last bottom index with a key below hi, or NONE. */
    method LastBelow(hi: nat) returns (bi: int)
      requires Linked() && hi !in bis
      ensures IsPrev(bis, hi, bi)
    {
      hide LinkAt;
      bi := last;
      while bi != NONE && bi > hi
        invariant bi == NONE || (bi >= 0 && bi in bis)
        invariant forall m :: m in bis ==> m <= bi || m > hi
        decreases bi
      {
        NeighbourLinks(bis, first, last, bi);
        bi := bis[bi].desc;
      }
    }

    /** GC_prev_block: the greatest block at or below h that has a header, or 0. A forwarding count may lead below the
        bottom index it is in; the search then goes on from the top of the previous one. */
    method PrevBlock(h: nat) returns (r: nat)
      requires Valid()
      ensures r != 0 ==> r <= h && r in hdrs && forall x: nat :: r < x <= h ==> x !in hdrs
      ensures r == 0 ==> forall x: nat :: x <= h ==> x !in hdrs
    {
      hide LinksOk, Tiling, Agrees, EntryAt, IsNext, IsPrev, Addr, Hi, Lo, NoHead;
      var bi: int, j: int := Hi(h), Lo(h);
      if Hi(h) !in bis {
        bi := LastBelow(Hi(h));
        j := BOTTOM_SZ - 1;
        GapBelow(bis, hdrs, owner, bi, h);
      } else {
        NoHeadYet(hdrs, h);
      }
      while bi != NONE
        invariant bi == NONE || (bi >= 0 && bi in bis)
        invariant j < BOTTOM_SZ && NoHead(hdrs, h, bi, j) && UpTo(h, bi, j)
        decreases bi
      {
        LastKey(bis, first, last, bi);
        while j >= 0
          invariant j < BOTTOM_SZ && NoHead(hdrs, h, bi, j) && UpTo(h, bi, j)
          decreases j
        {
          var e := bis[bi].index[j];
          ReadEntry(bis, first, last, bi, j);
          if e.Nil? {
            StepDown(bis, hdrs, owner, h, bi, j);
            j := j - 1;
          } else if e.Jump? {
            JumpDown(bis, hdrs, owner, h, bi, j);
            j := j - e.count;
          } else {
            FoundHead(bis, hdrs, owner, h, bi, j);
            return Addr(bi, j);
          }
        }
        NeighbourLinks(bis, first, last, bi);
        NextKeyUp(bis, first, last, bi);
        PrevHasNone(bis, hdrs, owner, h, bi, j, bis[bi].desc);
        j := BOTTOM_SZ - 1;
        bi := bis[bi].desc;
      }
      r := 0;
      NoHeadAtAll(hdrs, h, j);
    }

    /** GC_free_block_ending_at, for the start h of a block. */
    method FreeBlockEndingAt(h: nat) returns (p: nat)
      requires Valid() && h in hdrs && h > 0
      ensures p != 0 ==> FreeAt(hdrs, p) && p + Size(hdrs[p]) == h
      ensures p == 0 ==> forall q: nat :: FreeAt(hdrs, q) ==> q + Size(hdrs[q]) != h
    {
      hide LinksOk, Tiling, Agrees, EntryAt, Size, Blocks;
      p := h - 1;
      while EntryAt(bis, p).Jump?
        invariant 0 <= p < h
        invariant p == h - 1 || UsedBefore(hdrs, owner, h, p)
        decreases p
      {
        JumpBefore(bis, hdrs, owner, h, p);
        p := p - EntryAt(bis, p).count;
      }
      HeadIff(bis, hdrs, owner, p);
      if EntryAt(bis, p).Head? {
        PositiveSize(hdrs, owner, p);
        EndsAtHead(hdrs, owner, h, p);
        if !EntryAt(bis, p).h.Free? {
          p := 0;
        }
        return;
      }
      NilBefore(bis, hdrs, owner, h, p);
      p := PrevBlock(h - 1);
      EndsBelow(hdrs, owner, h, p);
      if p != 0 {
        HeadIff(bis, hdrs, owner, p);
        if !(EntryAt(bis, p).h.Free? && p + Size(EntryAt(bis, p).h) == h) {
          p := 0;
        }
      }
    }

    /** What GC_freehblk does to the index: the counts inside the block go, and headers of blocks that are absorbed go.
        Free neighbours are merged, so if no two free blocks touched before, none do afterwards. */
    method FreeBlock(b: nat)
      requires Valid() && UsedAt(hdrs, b)
      modifies this`bis, this`hdrs, this`owner
      ensures Valid() && SameLinks(old(bis), bis)
      ensures UsedOf(hdrs) == UsedOf(old(hdrs)) - {b} && owner.Keys == old(owner).Keys
      ensures Coalesced(old(hdrs), 0, 0) ==> Coalesced(hdrs, 0, 0)
    {
      hide LinksOk, Tiling, Agrees, EntryAt, Size, Blocks, UsedOf, Give, MergeHdrs, Hi, Coalesced;
      ghost var h0, o0 := hdrs, owner;
      MakeFree(b);
      if Coalesced(h0, 0, 0) {
        FreedCoalesced(h0, o0, hdrs, b);
      }
      PositiveSize(hdrs, owner, b);
      var prev := FreeBlockEndingAt(b);
      AbsorbNext(b, prev);
      ghost var h1, o1 := hdrs, owner;
      if prev != 0 {
        Absorb(prev, b);
        if Coalesced(h1, 0, b) {
          AbsorbPrevNeat(h1, o1, hdrs, prev, b);
        }
      } else if Coalesced(h1, 0, b) {
        NoPrevNeat(hdrs, b);
      }
    }

    /** The merging with the free block behind. */
    method AbsorbNext(b: nat, ghost prev: nat)
      requires Valid() && FreeAt(hdrs, b) && PrevOk(hdrs, prev, b)
      modifies this`bis, this`hdrs, this`owner
      ensures Valid() && SameLinks(old(bis), bis) && FreeAt(hdrs, b) && PrevOk(hdrs, prev, b)
      ensures UsedOf(hdrs) == UsedOf(old(hdrs)) && owner.Keys == old(owner).Keys
      ensures Coalesced(old(hdrs), b, b) ==> Coalesced(hdrs, 0, b)
    {
      hide LinksOk, Tiling, Agrees, EntryAt, Size, Blocks, UsedOf, Give, MergeHdrs, Hi, Coalesced, PrevOk;
      HeadIff(bis, hdrs, owner, b);
      FreeSizes(hdrs);
      var next := b + EntryAt(bis, b).h.size;
      HeadIff(bis, hdrs, owner, next);
      ghost var h0, o0 := hdrs, owner;
      if EntryAt(bis, next).Head? && EntryAt(bis, next).h.Free? {
        Absorb(b, next);
        MergePrev(h0, o0, hdrs, prev, b, next);
        if Coalesced(h0, b, b) {
          AbsorbNextNeat(h0, o0, hdrs, b, next);
        }
      } else if Coalesced(h0, b, b) {
        NoNextNeat(hdrs, b);
      }
    }

    method MakeFree(b: nat)
      requires Valid() && UsedAt(hdrs, b)
      modifies this`bis, this`hdrs
      ensures Valid() && SameLinks(old(bis), bis)
      ensures hdrs == old(hdrs)[b := Free(Size(old(hdrs)[b]), 0, 0)] && UsedOf(hdrs) == UsedOf(old(hdrs)) - {b}
    {
      hide LinksOk, Tiling, Agrees, EntryAt, Size, Blocks, Hi;
      HeadIff(bis, hdrs, owner, b);
      ghost var b0, h0 := bis, hdrs;
      var size := Size(EntryAt(bis, b).h);
      HasIndex(bis, b);
      RemoveCounts(b, size);
      ghost var b1 := bis;
      SetEntry(b, Head(Free(size, 0, 0)));
      hdrs := hdrs[b := Free(size, 0, 0)];
      FreedAgrees(b0, b1, bis, h0, hdrs, owner, b);
      SameLinksTrans(b0, b1, bis);
    }

    /** Block b takes over the block a behind it, which loses its header. */
    method Absorb(b: nat, a: nat)
      requires Valid() && FreeAt(hdrs, b) && FreeAt(hdrs, a) && a == b + Size(hdrs[b])
      modifies this`bis, this`hdrs, this`owner
      ensures Valid() && SameLinks(old(bis), bis) && MergeHdrs(old(hdrs), hdrs, b, a)
      ensures UsedOf(hdrs) == UsedOf(old(hdrs)) && owner.Keys == old(owner).Keys && FreeAt(hdrs, b)
    {
      hide LinksOk, Tiling, Agrees, EntryAt, Size, Blocks, Give, Hi, UsedOf;
      HeadIff(bis, hdrs, owner, b);
      HeadIff(bis, hdrs, owner, a);
      PositiveSize(hdrs, owner, b);
      ghost var b0, h0, o0 := bis, hdrs, owner;
      var total := Size(EntryAt(bis, b).h) + Size(EntryAt(bis, a).h);
      HasIndex(bis, a);
      HasIndex(bis, b);
      SetEntry(a, Nil);
      ghost var b1 := bis;
      SetEntry(b, Head(Free(total, 0, 0)));
      hdrs := (hdrs - {a})[b := Free(total, 0, 0)];
      owner := Give(owner, b, a, a + Size(h0[a]));
      AbsorbedAgrees(b0, b1, bis, h0, hdrs, o0, owner, b, a);
      SameLinksTrans(b0, b1, bis);
    }

    /** GC_apply_to_all_blocks with GC_reclaim_block as the function: the blocks in `empty` are freed when they are
        visited, which coalesces them with their neighbours and removes headers while the walk goes on. Each block
        in use at the start is visited exactly once. */
    method ApplyToAllBlocks(empty: set<nat>) returns (visited: seq<nat>)
      requires Valid()
      modifies this`bis, this`hdrs, this`owner
      ensures Valid()
      ensures forall b: nat :: UsedAt(old(hdrs), b) <==> b in visited
      ensures forall i, j :: 0 <= i < j < |visited| ==> visited[i] != visited[j]
      ensures forall b: nat :: UsedAt(hdrs, b) <==> UsedAt(old(hdrs), b) && b !in empty
    {
      hide LinksOk, Tiling, Agrees, EntryAt, Walked, Addr, Hi, Lo;
      ghost var h0, b0 := hdrs, bis;
      visited := [];
      var bi := first;
      WalkStart(bis, first, last, hdrs, owner, empty);
      while bi != NONE
        invariant Valid() && SameLinks(b0, bis) && (bi == NONE || (bi >= 0 && bi in bis))
        invariant Walked(h0, hdrs, empty, visited, bi, BOTTOM_SZ - 1) && Covered(h0, bis)
        decreases if bi == NONE then 0 else last - bi + 1
      {
        LastKey(bis, first, last, bi);
        var j := BOTTOM_SZ - 1;
        while j >= 0
          invariant Valid() && SameLinks(b0, bis) && bi in bis && j < BOTTOM_SZ
          invariant Walked(h0, hdrs, empty, visited, bi, j) && Covered(h0, bis)
          decreases j
        {
          ReadEntry(bis, first, last, bi, j);
          var e := bis[bi].index[j];
          if e.Head? {
            if e.h.Used? {
              HeadIff(bis, hdrs, owner, Addr(bi, j));
              ghost var h1 := hdrs;
              Callback(Addr(bi, j), empty);
              WalkVisit(h0, h1, hdrs, empty, visited, bi, j);
              visited := visited + [Addr(bi, j)];
            } else {
              WalkSkip(bis, h0, hdrs, owner, empty, visited, bi, j, 1);
            }
            j := j - 1;
          } else if e.Nil? {
            WalkSkip(bis, h0, hdrs, owner, empty, visited, bi, j, 1);
            j := j - 1;
          } else {
            WalkSkip(bis, h0, hdrs, owner, empty, visited, bi, j, e.count);
            j := j - e.count;
          }
        }
        NeighbourLinks(bis, first, last, bi);
        NextKeyUp(bis, first, last, bi);
        WalkNext(bis, h0, hdrs, empty, visited, bi, j, bis[bi].asc);
        bi := bis[bi].asc;
      }
      WalkEnd(h0, hdrs, empty, visited);
    }

    /** GC_reclaim_block as far as the index can tell. */
    method Callback(b: nat, empty: set<nat>)
      requires Valid() && UsedAt(hdrs, b)
      modifies this`bis, this`hdrs, this`owner
      ensures Valid() && SameLinks(old(bis), bis)
      ensures forall x: nat :: UsedAt(hdrs, x) <==> UsedAt(old(hdrs), x) && !(x == b && b in empty)
    {
      hide LinksOk, Tiling, Agrees;
      if b in empty {
        ghost var h0 := hdrs;
        FreeBlock(b);
        UsedAfter(h0, hdrs, b);
      }
    }
  }

  ghost predicate Wrote(bis: Index, bis': Index, x: nat, e: Entry) {
    forall y: nat :: EntryAt(bis', y) == if y == x then e else EntryAt(bis, y)
  }

  ghost predicate SameLinks(bis: Index, bis': Index) {
    bis.Keys == bis'.Keys && forall k :: k in bis ==> bis'[k].asc == bis[k].asc && bis'[k].desc == bis[k].desc
  }

  lemma LinksSame(bis: Index, bis': Index, first: int, last: int)
    requires LinksOk(bis, first, last) && SameLinks(bis, bis') && Shape(bis')
    ensures LinksOk(bis', first, last)
  {
    forall k | k in bis'
      ensures LinkAt(bis', k)
    {
      assert LinkAt(bis, k);
    }
  }

  lemma WroteOne(bis: Index, bis': Index, x: nat, e: Entry)
    requires Shape(bis) && Shape(bis') && Hi(x) in bis
    requires bis' == bis[Hi(x) := Bottom(bis[Hi(x)].index[Lo(x) := e], bis[Hi(x)].asc, bis[Hi(x)].desc)]
    ensures Wrote(bis, bis', x, e)
  {
    hide Hi, Lo;
    forall y: nat
      ensures EntryAt(bis', y) == if y == x then e else EntryAt(bis, y)
    {
      PartsAddr(x);
      PartsAddr(y);
    }
  }

  lemma NoEntry(bis: Index, x: nat)
    requires Hi(x) !in bis
    ensures EntryAt(bis, x) == Nil
  {
  }

  lemma NextIndex(x: nat)
    ensures Hi(x + BOTTOM_SZ) == Hi(x) + 1
  {
  }

  lemma HiBetween(h: nat, x: nat, end: nat, hbp: nat)
    requires h <= x <= end < hbp < end + 1 + BOTTOM_SZ
    ensures Hi(h) <= Hi(x) <= Hi(end) && (Hi(x) == Hi(end) || Hi(x) < Hi(hbp))
  {
    PartsAddr(h);
    PartsAddr(x);
    PartsAddr(end);
    PartsAddr(hbp);
  }

  // ---------------------------------------------------------------- walking the index

  ghost predicate UsedAt(hdrs: Hdrs, x: nat) {
    x in hdrs && hdrs[x].Used?
  }

  lemma OwnerBelow(hdrs: Hdrs, owner: map<nat, nat>, x: nat)
    requires Tiling(hdrs, owner) && x in owner
    ensures owner[x] <= x
  {
    hide Size, Blocks;
    assert OwnedOk(hdrs, owner, x);
  }

  lemma SameOwner(hdrs: Hdrs, owner: map<nat, nat>, x: nat, b: nat)
    requires Tiling(hdrs, owner) && x in owner && owner[x] <= b <= x
    ensures b in owner && owner[b] == owner[x]
  {
    hide Size, Blocks;
    assert OwnedOk(hdrs, owner, x) && Owns(hdrs, owner, owner[x]);
  }

  lemma EndOfJumps(bis: Index, hdrs: Hdrs, owner: map<nat, nat>, b: nat)
    requires Agrees(bis, hdrs, owner) && Tiling(hdrs, owner) && !EntryAt(bis, b).Jump?
    requires b in owner && owner[b] in hdrs && hdrs[owner[b]].Used?
    ensures b == owner[b] && EntryAt(bis, b) == Head(hdrs[b])
  {
    hide Size, Blocks, EntryAt;
    assert EntryAt(bis, b) == Expected(hdrs, owner, b) && OwnedOk(hdrs, owner, b);
  }

  /** No used block starts from h up to position j of bottom index bi; from h on at all if bi is NONE. */
  ghost predicate NoUsed(hdrs: Hdrs, h: nat, bi: int, j: nat) {
    forall x: nat :: h <= x && (bi < 0 || x < Addr(bi, j)) ==> !UsedAt(hdrs, x)
  }

  lemma NoUsedYet(hdrs: Hdrs, h: nat)
    ensures NoUsed(hdrs, h, Hi(h), Lo(h))
  {
    PartsAddr(h);
  }

  /** Position j of bottom index bi is not below h. */
  ghost predicate From(h: nat, bi: int, j: int) {
    bi < 0 || Hi(h) < bi || (Hi(h) == bi && Lo(h) <= j)
  }

  lemma NoUsedAtAll(hdrs: Hdrs, h: nat, j: nat)
    requires NoUsed(hdrs, h, NONE, j)
    ensures forall x: nat :: h <= x ==> !UsedAt(hdrs, x)
  {
  }

  /** Between two neighbouring bottom indices there are no heads. */
  lemma GapHasNoHeads(bis: Index, hdrs: Hdrs, owner: map<nat, nat>, k: int, n: int, x: nat)
    requires Agrees(bis, hdrs, owner) && Tiling(hdrs, owner) && IsNext(bis, k, n) && k >= NONE
    requires x >= Addr(k + 1, 0) && (n == NONE || x < Addr(n, 0))
    ensures x !in hdrs
  {
    hide Size, Blocks, Tiling, Agrees;
    PartsAddr(x);
    AddrOrder(k + 1, 0, x);
    if n != NONE {
      AddrOrder(n, 0, x);
    }
    NoEntry(bis, x);
    HeadIff(bis, hdrs, owner, x);
  }

  lemma GapAbove(bis: Index, hdrs: Hdrs, owner: map<nat, nat>, pi: int, p: int, h: nat)
    requires Agrees(bis, hdrs, owner) && Tiling(hdrs, owner) && IsNext(bis, pi, p) && NONE <= pi < Hi(h)
    ensures NoUsed(hdrs, h, p, 0)
    ensures p == NONE || (p >= 0 && p in bis)
  {
    hide Size, Blocks, Tiling, Agrees;
    PartsAddr(h);
    forall x: nat | h <= x && (p < 0 || x < Addr(p, 0))
      ensures !UsedAt(hdrs, x)
    {
      GapHasNoHeads(bis, hdrs, owner, pi, p, x);
    }
  }

  lemma LastKey(bis: Index, first: int, last: int, bi: int)
    requires LinksOk(bis, first, last) && bi >= 0 && bi in bis
    ensures 0 <= bi <= last && |bis[bi].index| == BOTTOM_SZ
  {
    hide LinkAt;
  }

  lemma NextKeyUp(bis: Index, first: int, last: int, bi: int)
    requires LinksOk(bis, first, last) && bi >= 0 && bi in bis
    ensures bis[bi].asc == NONE || (bis[bi].asc > bi && bis[bi].asc in bis)
    ensures bis[bi].desc == NONE || (0 <= bis[bi].desc < bi && bis[bi].desc in bis)
  {
    hide LinkAt;
    NeighbourLinks(bis, first, last, bi);
  }

  lemma ReadEntry(bis: Index, first: int, last: int, bi: int, j: nat)
    requires LinksOk(bis, first, last) && bi >= 0 && bi in bis && j < BOTTOM_SZ
    ensures j < |bis[bi].index| && EntryAt(bis, Addr(bi, j)) == bis[bi].index[j]
  {
    hide LinkAt;
    AddrParts(bi, j);
  }

  lemma SkipOne(bis: Index, hdrs: Hdrs, owner: map<nat, nat>, h: nat, bi: int, j: nat)
    requires Agrees(bis, hdrs, owner) && Tiling(hdrs, owner) && bi >= 0 && NoUsed(hdrs, h, bi, j)
    ensures !EntryAt(bis, Addr(bi, j)).Head? ==> NoUsed(hdrs, h, bi, j + 1)
  {
    hide Size, Blocks, Tiling, Agrees;
    HeadIff(bis, hdrs, owner, Addr(bi, j));
  }

  /** A free block hides no used block. */
  lemma SkipFree(bis: Index, hdrs: Hdrs, owner: map<nat, nat>, h: nat, bi: int, j: nat)
    requires Agrees(bis, hdrs, owner) && Tiling(hdrs, owner) && bi >= 0 && NoUsed(hdrs, h, bi, j)
    requires EntryAt(bis, Addr(bi, j)).Head? && EntryAt(bis, Addr(bi, j)).h.Free?
    ensures NoUsed(hdrs, h, bi, j + EntryAt(bis, Addr(bi, j)).h.size) && EntryAt(bis, Addr(bi, j)).h.size > 0
  {
    hide Tiling, Agrees, EntryAt, Blocks;
    var b := Addr(bi, j);
    HeadIff(bis, hdrs, owner, b);
    PositiveSize(hdrs, owner, b);
    forall x: nat | h <= x < Addr(bi, j + hdrs[b].size)
      ensures !UsedAt(hdrs, x)
    {
      if x > b && x in hdrs {
        Disjoint(hdrs, owner, b, x);
      }
    }
  }

  lemma PositiveSize(hdrs: Hdrs, owner: map<nat, nat>, b: nat)
    requires Tiling(hdrs, owner) && b in hdrs
    ensures b > 0 && Size(hdrs[b]) > 0
  {
    hide Size;
  }

  lemma FoundUsed(hdrs: Hdrs, owner: map<nat, nat>, h: nat, bi: int, j: nat)
    requires Tiling(hdrs, owner) && bi >= 0 && NoUsed(hdrs, h, bi, j) && UsedAt(hdrs, Addr(bi, j)) && From(h, bi, j)
    requires j < BOTTOM_SZ
    ensures h <= Addr(bi, j) && Addr(bi, j) > 0 && forall x: nat :: h <= x < Addr(bi, j) ==> !UsedAt(hdrs, x)
  {
    hide Size;
    AddrOrder(bi, j, h);
  }

  lemma NextHasNone(bis: Index, hdrs: Hdrs, owner: map<nat, nat>, h: nat, bi: int, j: nat, n: int)
    requires Agrees(bis, hdrs, owner) && Tiling(hdrs, owner) && bi >= 0 && NoUsed(hdrs, h, bi, j) && j >= BOTTOM_SZ
    requires IsNext(bis, bi, n)
    ensures NoUsed(hdrs, h, n, 0)
  {
    hide Size, Tiling, Agrees;
    forall x: nat | h <= x && (n < 0 || x < Addr(n, 0))
      ensures !UsedAt(hdrs, x)
    {
      if x >= Addr(bi, j) {
        GapHasNoHeads(bis, hdrs, owner, bi, n, x);
      }
    }
  }

  /** No head from above position j of bottom index bi up to h; none up to h at all if bi is NONE. */
  ghost predicate NoHead(hdrs: Hdrs, h: nat, bi: int, j: int) {
    forall x: nat :: x <= h && (bi < 0 || x > bi * BOTTOM_SZ + j) ==> x !in hdrs
  }

  /** Position j of bottom index bi is not above h. */
  ghost predicate UpTo(h: nat, bi: int, j: int) {
    bi < Hi(h) || (Hi(h) == bi && j <= Lo(h))
  }

  lemma NoHeadYet(hdrs: Hdrs, h: nat)
    ensures NoHead(hdrs, h, Hi(h), Lo(h))
  {
    PartsAddr(h);
  }

  lemma NoHeadAtAll(hdrs: Hdrs, h: nat, j: int)
    requires NoHead(hdrs, h, NONE, j)
    ensures forall x: nat :: x <= h ==> x !in hdrs
  {
  }

  lemma NoHeadsBetween(bis: Index, hdrs: Hdrs, owner: map<nat, nat>, p: int, k: nat, x: nat)
    requires Agrees(bis, hdrs, owner) && Tiling(hdrs, owner) && IsPrev(bis, k, p)
    requires x < Addr(k, 0) && (p == NONE || x > p * BOTTOM_SZ + BOTTOM_SZ - 1)
    ensures x !in hdrs
  {
    hide Size, Blocks, Tiling, Agrees;
    PartsAddr(x);
    AddrOrder(k, 0, x);
    NoEntry(bis, x);
    HeadIff(bis, hdrs, owner, x);
  }

  lemma GapBelow(bis: Index, hdrs: Hdrs, owner: map<nat, nat>, p: int, h: nat)
    requires Agrees(bis, hdrs, owner) && Tiling(hdrs, owner) && IsPrev(bis, Hi(h), p) && Hi(h) !in bis
    ensures NoHead(hdrs, h, p, BOTTOM_SZ - 1) && UpTo(h, p, BOTTOM_SZ - 1)
    ensures p == NONE || (p >= 0 && p in bis)
  {
    hide Size, Blocks, Tiling, Agrees;
    forall x: nat | x <= h && (p < 0 || x > p * BOTTOM_SZ + BOTTOM_SZ - 1)
      ensures x !in hdrs
    {
      AddrOrder(Hi(h), 0, x);
      if x < Addr(Hi(h), 0) {
        NoHeadsBetween(bis, hdrs, owner, p, Hi(h), x);
      } else {
        PartsAddr(x);
        PartsAddr(h);
        assert Hi(x) == Hi(h);
        NoEntry(bis, x);
        HeadIff(bis, hdrs, owner, x);
      }
    }
  }

  lemma StepDown(bis: Index, hdrs: Hdrs, owner: map<nat, nat>, h: nat, bi: int, j: nat)
    requires Agrees(bis, hdrs, owner) && Tiling(hdrs, owner) && bi >= 0 && NoHead(hdrs, h, bi, j)
    requires !EntryAt(bis, Addr(bi, j)).Head?
    ensures NoHead(hdrs, h, bi, j - 1)
  {
    hide Size, Tiling, Agrees, EntryAt;
    HeadIff(bis, hdrs, owner, Addr(bi, j));
  }

  lemma JumpDown(bis: Index, hdrs: Hdrs, owner: map<nat, nat>, h: nat, bi: int, j: nat)
    requires Agrees(bis, hdrs, owner) && Tiling(hdrs, owner) && bi >= 0 && NoHead(hdrs, h, bi, j)
    requires EntryAt(bis, Addr(bi, j)).Jump?
    ensures EntryAt(bis, Addr(bi, j)).count > 0 && NoHead(hdrs, h, bi, j - EntryAt(bis, Addr(bi, j)).count)
  {
    hide Size, Tiling, Agrees, EntryAt;
    JumpInside(bis, hdrs, owner, Addr(bi, j));
  }

  lemma FoundHead(bis: Index, hdrs: Hdrs, owner: map<nat, nat>, h: nat, bi: int, j: nat)
    requires Agrees(bis, hdrs, owner) && Tiling(hdrs, owner) && bi >= 0 && NoHead(hdrs, h, bi, j)
    requires EntryAt(bis, Addr(bi, j)).Head?
    requires UpTo(h, bi, j) && j < BOTTOM_SZ
    ensures 0 < Addr(bi, j) <= h && Addr(bi, j) in hdrs && forall x: nat :: Addr(bi, j) < x <= h ==> x !in hdrs
  {
    hide Size, Tiling, Agrees, EntryAt;
    HeadIff(bis, hdrs, owner, Addr(bi, j));
    PositiveSize(hdrs, owner, Addr(bi, j));
    AddrOrder(bi, j, h);
  }

  lemma PrevHasNone(bis: Index, hdrs: Hdrs, owner: map<nat, nat>, h: nat, bi: int, j: int, p: int)
    requires Agrees(bis, hdrs, owner) && Tiling(hdrs, owner) && bi >= 0 && NoHead(hdrs, h, bi, j) && j < 0
    requires IsPrev(bis, bi, p)
    requires UpTo(h, bi, j)
    ensures NoHead(hdrs, h, p, BOTTOM_SZ - 1) && UpTo(h, p, BOTTOM_SZ - 1)
  {
    hide Size, Tiling, Agrees;
    forall x: nat | x <= h && (p < 0 || x > p * BOTTOM_SZ + BOTTOM_SZ - 1)
      ensures x !in hdrs
    {
      if x < Addr(bi, 0) {
        NoHeadsBetween(bis, hdrs, owner, p, bi, x);
      }
    }
  }

  // ---------------------------------------------------------------- the block in front of another

  /** The block in front of h is used, and p is in it. */
  ghost predicate UsedBefore(hdrs: Hdrs, owner: map<nat, nat>, h: nat, p: nat) {
    h > 0 && h - 1 in owner && p in owner && owner[p] == owner[h - 1] && owner[p] in hdrs && hdrs[owner[p]].Used?
  }

  lemma JumpBefore(bis: Index, hdrs: Hdrs, owner: map<nat, nat>, h: nat, p: nat)
    requires Agrees(bis, hdrs, owner) && Tiling(hdrs, owner) && EntryAt(bis, p).Jump? && p < h
    requires p == h - 1 || UsedBefore(hdrs, owner, h, p)
    ensures 0 < EntryAt(bis, p).count <= p && UsedBefore(hdrs, owner, h, p - EntryAt(bis, p).count)
  {
    hide Size, Tiling, Agrees, EntryAt;
    JumpInside(bis, hdrs, owner, p);
    SameOwner(hdrs, owner, p, p - EntryAt(bis, p).count);
  }

  /** If the cell in front of h belongs to a block, only that block can end at h. */
  lemma EndsAtHead(hdrs: Hdrs, owner: map<nat, nat>, h: nat, p: nat)
    requires Tiling(hdrs, owner) && h in hdrs && p in hdrs && p < h
    requires p == h - 1 || UsedBefore(hdrs, owner, h, p)
    ensures hdrs[p].Free? ==> p + Size(hdrs[p]) == h
    ensures !hdrs[p].Free? ==> forall q: nat :: FreeAt(hdrs, q) ==> q + Size(hdrs[q]) != h
  {
    hide Size;
    assert Owns(hdrs, owner, p);
    assert p in owner && owner[p] == p;
    Disjoint(hdrs, owner, p, h);
    forall q: nat | FreeAt(hdrs, q) && q + Size(hdrs[q]) == h
      ensures q == p
    {
      assert Owns(hdrs, owner, q);
      assert h - 1 in owner && owner[h - 1] == q;
    }
  }

  lemma NilBefore(bis: Index, hdrs: Hdrs, owner: map<nat, nat>, h: nat, p: nat)
    requires Agrees(bis, hdrs, owner) && Tiling(hdrs, owner) && EntryAt(bis, p).Nil? && p < h
    requires p == h - 1 || UsedBefore(hdrs, owner, h, p)
    ensures p == h - 1
  {
    hide Size, Tiling, Agrees, EntryAt;
    if UsedBefore(hdrs, owner, h, p) {
      EndOfJumps(bis, hdrs, owner, p);
    }
  }

  lemma EndsBelow(hdrs: Hdrs, owner: map<nat, nat>, h: nat, p: nat)
    requires Tiling(hdrs, owner) && h > 0
    requires p != 0 ==> p <= h - 1 && p in hdrs && forall x: nat :: p < x <= h - 1 ==> x !in hdrs
    requires p == 0 ==> forall x: nat :: x <= h - 1 ==> x !in hdrs
    ensures forall q: nat :: FreeAt(hdrs, q) && q != p ==> q + Size(hdrs[q]) != h
  {
    hide Size;
    forall q: nat | FreeAt(hdrs, q) && q != p
      ensures q + Size(hdrs[q]) != h
    {
      assert Size(hdrs[q]) > 0;
      if p != 0 && q < p {
        Disjoint(hdrs, owner, q, p);
      }
    }
  }

  // ---------------------------------------------------------------- freeing keeps index and block map in step

  lemma HasIndex(bis: Index, x: nat)
    requires !EntryAt(bis, x).Nil?
    ensures Hi(x) in bis
  {
  }

  lemma SameLinksTrans(b0: Index, b1: Index, b2: Index)
    requires SameLinks(b0, b1) && SameLinks(b1, b2)
    ensures SameLinks(b0, b2)
  {
  }

  lemma FreeSizes(hdrs: Hdrs)
    ensures forall b: nat :: FreeAt(hdrs, b) ==> Size(hdrs[b]) == hdrs[b].size
  {
  }

  lemma FreedAgrees(b0: Index, b1: Index, b2: Index, h0: Hdrs, h1: Hdrs, owner: map<nat, nat>, b: nat)
    requires Agrees(b0, h0, owner) && Tiling(h0, owner) && UsedAt(h0, b) && h1 == h0[b := Free(Size(h0[b]), 0, 0)]
    requires forall x: nat :: EntryAt(b1, x) == if b < x < b + Size(h0[b]) then Nil else EntryAt(b0, x)
    requires Wrote(b1, b2, b, Head(h1[b]))
    ensures Agrees(b2, h1, owner) && Tiling(h1, owner) && UsedOf(h1) == UsedOf(h0) - {b}
  {
    hide Blocks, EntryAt, Tiling;
    TilingSame(h0, h1, owner);
    PositiveSize(h0, owner, b);
    CellOfBlock(h0, owner, b, b);
    forall x: nat
      ensures EntryAt(b2, x) == Expected(h1, owner, x)
    {
      assert EntryAt(b0, x) == Expected(h0, owner, x);
      CellOfBlock(h0, owner, b, x);
    }
  }

  lemma AbsorbedAgrees(b0: Index, b1: Index, b2: Index, h0: Hdrs, h1: Hdrs, owner: map<nat, nat>, owner': map<nat,
                       nat>, b: nat, a: nat)
    requires Agrees(b0, h0, owner) && Tiling(h0, owner) && FreeAt(h0, b) && FreeAt(h0, a) && a == b + Size(h0[b])
    requires b != a
    requires h1 == (h0 - {a})[b := Free(Size(h0[b]) + Size(h0[a]), 0, 0)]
    requires owner' == Give(owner, b, a, a + Size(h0[a]))
    requires Wrote(b0, b1, a, Nil) && Wrote(b1, b2, b, Head(h1[b]))
    ensures MergeHdrs(h0, h1, b, a) && Tiling(h1, owner') && owner'.Keys == owner.Keys && UsedOf(h1) == UsedOf(h0)
    ensures Agrees(b2, h1, owner')
  {
    hide Blocks, EntryAt, Tiling, Give;
    MergeTiling(h0, h1, owner, b, a);
    forall x: nat
      ensures EntryAt(b2, x) == Expected(h1, owner', x)
    {
      AbsorbedEntry(b0, b1, b2, h0, h1, owner, owner', b, a, x);
    }
  }

  lemma AbsorbedEntry(b0: Index, b1: Index, b2: Index, h0: Hdrs, h1: Hdrs, owner: map<nat, nat>, owner': map<nat, nat>,
                      b: nat, a: nat, x: nat)
    requires Agrees(b0, h0, owner) && Tiling(h0, owner) && FreeAt(h0, b) && FreeAt(h0, a) && a == b + Size(h0[b])
    requires b != a
    requires h1 == (h0 - {a})[b := Free(Size(h0[b]) + Size(h0[a]), 0, 0)]
    requires owner' == Give(owner, b, a, a + Size(h0[a]))
    requires Wrote(b0, b1, a, Nil) && Wrote(b1, b2, b, Head(h1[b]))
    ensures EntryAt(b2, x) == Expected(h1, owner', x)
  {
    hide Blocks, EntryAt, Tiling, Give, Size;
    assert EntryAt(b0, x) == Expected(h0, owner, x);
    CellOfBlock(h0, owner, a, x);
    CellOfBlock(h0, owner, b, x);
    CellOfBlock(h0, owner, b, b);
    CellOfBlock(h0, owner, a, a);
    PositiveSize(h0, owner, b);
    PositiveSize(h0, owner, a);
  }

  // ---------------------------------------------------------------- walking all blocks

  lemma UsedAfter(h0: Hdrs, h1: Hdrs, b: nat)
    requires UsedOf(h1) == UsedOf(h0) - {b}
    ensures forall x: nat :: UsedAt(h1, x) <==> UsedAt(h0, x) && x != b
  {
    assert forall x: nat :: UsedAt(h1, x) <==> x in UsedOf(h1);
    assert forall x: nat :: UsedAt(h0, x) <==> x in UsedOf(h0);
  }

  /** Block b comes before position j of bottom index bi in the walk, which goes through each bottom index from its
      top down. */
  ghost predicate Before(b: nat, bi: int, j: int) {
    bi < 0 || Hi(b) < bi || (Hi(b) == bi && Lo(b) > j)
  }

  /** The walk has visited the blocks of h0 in front of position j of bottom index bi, each once. */
  ghost predicate Walked(h0: Hdrs, hdrs: Hdrs, empty: set<nat>, visited: seq<nat>, bi: int, j: int) {
    && (forall b: nat :: UsedAt(h0, b) ==> (b in visited <==> Before(b, bi, j)))
    && (forall b: nat :: b in visited ==> UsedAt(h0, b))
    && (forall m, n :: 0 <= m < n < |visited| ==> visited[m] != visited[n])
    && (forall b: nat :: UsedAt(hdrs, b) <==> UsedAt(h0, b) && !(b in visited && b in empty))
  }

  ghost predicate Covered(h0: Hdrs, bis: Index) {
    forall b: nat :: UsedAt(h0, b) ==> Hi(b) in bis
  }

  lemma WalkStart(bis: Index, first: int, last: int, hdrs: Hdrs, owner: map<nat, nat>, empty: set<nat>)
    requires LinksOk(bis, first, last) && Tiling(hdrs, owner) && Agrees(bis, hdrs, owner)
    ensures Walked(hdrs, hdrs, empty, [], first, BOTTOM_SZ - 1) && Covered(hdrs, bis)
    ensures first == NONE || (first >= 0 && first in bis)
  {
    hide Tiling, Agrees, LinkAt;
    forall b: nat | UsedAt(hdrs, b)
      ensures Hi(b) in bis && first != NONE && !Before(b, first, BOTTOM_SZ - 1)
    {
      HeadIff(bis, hdrs, owner, b);
      HasIndex(bis, b);
    }
  }

  lemma WalkVisit(h0: Hdrs, h1: Hdrs, hdrs: Hdrs, empty: set<nat>, visited: seq<nat>, bi: nat, j: nat)
    requires Walked(h0, h1, empty, visited, bi, j) && j < BOTTOM_SZ && UsedAt(h1, Addr(bi, j))
    requires forall x: nat :: UsedAt(hdrs, x) <==> UsedAt(h1, x) && !(x == Addr(bi, j) && Addr(bi, j) in empty)
    ensures Walked(h0, hdrs, empty, visited + [Addr(bi, j)], bi, j - 1)
  {
    hide Hi, Lo, Addr, UsedAt;
    var x := Addr(bi, j);
    AddrParts(bi, j);
    assert x !in visited;
    forall b: nat
      ensures Before(b, bi, j - 1) <==> Before(b, bi, j) || b == x
    {
      AddrOrder(bi, j, b);
    }
    assert forall b: nat :: b in visited + [x] <==> b in visited || b == x;
  }

  /** The next c positions of the walk hold no block still to be visited. */
  lemma WalkSkip(bis: Index, h0: Hdrs, hdrs: Hdrs, owner: map<nat, nat>, empty: set<nat>, visited: seq<nat>, bi: nat,
                 j: nat, c: nat)
    requires Tiling(hdrs, owner) && Agrees(bis, hdrs, owner) && Walked(h0, hdrs, empty, visited, bi, j) && j < BOTTOM_SZ
    requires var e := EntryAt(bis, Addr(bi, j)); if e.Head? then e.h.Free? && c == 1 else if e.Nil? then c == 1
             else c == e.count
    ensures Walked(h0, hdrs, empty, visited, bi, j - c) && c > 0
  {
    hide Tiling, Agrees, EntryAt, Hi, Lo;
    var x := Addr(bi, j);
    HeadIff(bis, hdrs, owner, x);
    if EntryAt(bis, x).Jump? {
      JumpInside(bis, hdrs, owner, x);
    }
    forall b: nat | UsedAt(h0, b)
      ensures Before(b, bi, j - c) <==> Before(b, bi, j)
    {
      PartsAddr(b);
      assert Before(b, bi, j - c) ==> Before(b, bi, j) || x - c < b <= x;
    }
  }

  lemma WalkNext(bis: Index, h0: Hdrs, hdrs: Hdrs, empty: set<nat>, visited: seq<nat>, bi: nat, j: int, n: int)
    requires Walked(h0, hdrs, empty, visited, bi, j) && j < 0 && IsNext(bis, bi, n) && Covered(h0, bis)
    ensures Walked(h0, hdrs, empty, visited, n, BOTTOM_SZ - 1)
  {
    hide Hi, UsedAt;
    forall b: nat | UsedAt(h0, b)
      ensures Before(b, n, BOTTOM_SZ - 1) <==> Before(b, bi, j)
    {
      assert Hi(b) in bis;
    }
  }

  lemma WalkEnd(h0: Hdrs, hdrs: Hdrs, empty: set<nat>, visited: seq<nat>)
    requires Walked(h0, hdrs, empty, visited, NONE, BOTTOM_SZ - 1)
    ensures forall b: nat :: UsedAt(h0, b) <==> b in visited
    ensures forall i, j :: 0 <= i < j < |visited| ==> visited[i] != visited[j]
    ensures forall b: nat :: UsedAt(hdrs, b) <==> UsedAt(h0, b) && b !in empty
  {
    hide UsedAt;
  }

  // ---------------------------------------------------------------- adding, splitting and using blocks

  lemma SectionAgrees(b0: Index, b1: Index, h0: Hdrs, h1: Hdrs, owner: map<nat, nat>, owner': map<nat, nat>, p: nat,
                      n: nat)
    requires Agrees(b0, h0, owner) && Tiling(h0, owner) && p > 0 && n > 0
    requires (forall x :: x in owner ==> !(p <= x < p + n))
    requires h1 == h0[p := Free(n, 0, 0)] && owner' == Give(owner, p, p, p + n) && Wrote(b0, b1, p, Head(Free(n, 0, 0)))
    ensures Agrees(b1, h1, owner') && Tiling(h1, owner')
  {
    hide Blocks, EntryAt, Tiling, Give, Range, Expected;
    NewTiling(h0, owner, p, Free(n, 0, 0), h1, owner');
    forall x: nat
      ensures EntryAt(b1, x) == Expected(h1, owner', x)
    {
      SectionEntry(h0, h1, owner, owner', p, n, x);
    }
  }

  lemma SectionEntry(h0: Hdrs, h1: Hdrs, owner: map<nat, nat>, owner': map<nat, nat>, p: nat, n: nat, x: nat)
    requires p !in h0 && n > 0 && (forall y :: y in owner ==> !(p <= y < p + n))
    requires h1 == h0[p := Free(n, 0, 0)] && owner' == Give(owner, p, p, p + n) && Tiling(h0, owner)
    ensures Expected(h1, owner', x) == if x == p then Head(Free(n, 0, 0)) else Expected(h0, owner, x)
  {
    hide Size, Give, Range;
  }

  lemma SplitAgrees(b0: Index, b1: Index, b2: Index, h0: Hdrs, h1: Hdrs, owner: map<nat, nat>, owner': map<nat, nat>,
                    b: nat, m: nat)
    requires Agrees(b0, h0, owner) && Tiling(h0, owner) && FreeAt(h0, b) && 0 < m < Size(h0[b])
    requires h1 == h0[b := Free(m, 0, 0)][b + m := Free(Size(h0[b]) - m, 0, 0)]
    requires owner' == Give(owner, b + m, b + m, b + Size(h0[b]))
    requires Wrote(b0, b1, b + m, Head(h1[b + m])) && Wrote(b1, b2, b, Head(h1[b]))
    ensures Agrees(b2, h1, owner') && Tiling(h1, owner')
  {
    hide Blocks, EntryAt, Tiling, Give, Range;
    SplitNew(h0, h1, owner, b, m);
    SplitTiling(h0, h1, owner, b, m);
    CellOfBlock(h0, owner, b, b);
    forall x: nat
      ensures EntryAt(b2, x) == Expected(h1, owner', x)
    {
      assert EntryAt(b0, x) == Expected(h0, owner, x);
      CellOfBlock(h0, owner, b, x);
    }
  }

  lemma UseAgrees(b0: Index, b1: Index, b2: Index, h0: Hdrs, h1: Hdrs, owner: map<nat, nat>, b: nat)
    requires Agrees(b0, h0, owner) && Tiling(h0, owner) && FreeAt(h0, b) && b in h1 && h1 == h0[b := h1[b]]
    requires h1[b].Used? && Size(h1[b]) == Size(h0[b])
    requires forall x: nat :: EntryAt(b1, x) == if b < x < b + Size(h0[b]) then Jump(Capped(x - b)) else EntryAt(b0, x)
    requires Wrote(b1, b2, b, Head(h1[b]))
    ensures Agrees(b2, h1, owner) && Tiling(h1, owner)
  {
    hide Blocks, EntryAt, Tiling, Size, Capped;
    TilingSame(h0, h1, owner);
    PositiveSize(h0, owner, b);
    CellOfBlock(h0, owner, b, b);
    forall x: nat
      ensures EntryAt(b2, x) == Expected(h1, owner, x)
    {
      assert EntryAt(b0, x) == Expected(h0, owner, x);
      CellOfBlock(h0, owner, b, x);
    }
  }
}
