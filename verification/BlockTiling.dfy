/** How the blocks of the heap tile it, and what splitting, merging and adding blocks do to the tiling. */
module BlockTiling {
  import opened BlockLists

  /** `owner` gives, for each HBLKSIZE-sized cell of the heap, the block it belongs to. Every cell belongs to
      exactly one block, and every block owns exactly the cells it spans. */
  ghost predicate Tiling(hdrs: Hdrs, owner: map<nat, nat>) {
    && (forall b :: b in hdrs ==> b > 0 && Size(hdrs[b]) > 0 && Owns(hdrs, owner, b))
    && (forall x :: x in owner ==> OwnedOk(hdrs, owner, x))
  }

  ghost predicate Owns(hdrs: Hdrs, owner: map<nat, nat>, b: nat)
    requires b in hdrs
  {
    forall x :: b <= x < b + Size(hdrs[b]) ==> x in owner && owner[x] == b
  }

  ghost predicate OwnedOk(hdrs: Hdrs, owner: map<nat, nat>, x: nat)
    requires x in owner
  {
    owner[x] in hdrs && owner[x] <= x < owner[x] + Size(hdrs[owner[x]])
  }

  /** Two blocks never overlap. */
  lemma Disjoint(hdrs: Hdrs, owner: map<nat, nat>, a: nat, b: nat)
    requires Tiling(hdrs, owner) && a in hdrs && b in hdrs && a < b
    ensures a + Size(hdrs[a]) <= b
  {
    hide Size, Blocks;
    assert Owns(hdrs, owner, a) && Owns(hdrs, owner, b);
    assert b in owner && owner[b] == b;
  }

  function Range(lo: nat, hi: nat): (r: set<nat>)
    ensures forall x :: x in r <==> lo <= x < hi
    ensures lo <= hi ==> |r| == hi - lo
  {
    if hi <= lo then {} else Range(lo, hi - 1) + {hi - 1}
  }

  /** The cells of a set of blocks. */
  ghost function Cells(owner: map<nat, nat>, blocks: set<nat>): set<nat> {
    set x | x in owner && owner[x] in blocks
  }

  lemma CellOfBlock(hdrs: Hdrs, owner: map<nat, nat>, b: nat, x: nat)
    requires Tiling(hdrs, owner) && b in hdrs
    ensures b <= x < b + Size(hdrs[b]) <==> x in owner && owner[x] == b
  {
    hide Size, Blocks;
    assert Owns(hdrs, owner, b);
    assert x in owner ==> OwnedOk(hdrs, owner, x);
  }

  lemma CellsOfBlock(hdrs: Hdrs, owner: map<nat, nat>, blocks: set<nat>, others: set<nat>, b: nat)
    requires Tiling(hdrs, owner) && b in blocks && b in hdrs && others == blocks - {b}
    ensures |Cells(owner, blocks)| == |Cells(owner, others)| + Size(hdrs[b])
  {
    hide Size, Blocks, Tiling, Range;
    var r := Range(b, b + Size(hdrs[b]));
    forall x: nat
      ensures x in r <==> x in owner && owner[x] == b
    {
      CellOfBlock(hdrs, owner, b, x);
    }
    assert Cells(owner, blocks) == Cells(owner, others) + r;
    assert Cells(owner, others) !! r;
  }

  ghost function FreeBlocks(hdrs: Hdrs): set<nat> {
    set b | b in hdrs && hdrs[b].Free?
  }

  /** Same spans: the tiling does not see links, or whether a block is free. */
  ghost predicate SameSpans(hdrs: Hdrs, hdrs': Hdrs) {
    hdrs.Keys == hdrs'.Keys && forall b :: b in hdrs ==> Size(hdrs[b]) == Size(hdrs'[b])
  }

  lemma TilingSame(hdrs: Hdrs, hdrs': Hdrs, owner: map<nat, nat>)
    requires Tiling(hdrs, owner) && SameSpans(hdrs, hdrs')
    ensures Tiling(hdrs', owner)
  {
    hide Size, Blocks;
    forall b | b in hdrs'
      ensures b > 0 && Size(hdrs'[b]) > 0 && Owns(hdrs', owner, b)
    {
      assert Owns(hdrs, owner, b);
    }
    forall x | x in owner
      ensures OwnedOk(hdrs', owner, x)
    {
      assert OwnedOk(hdrs, owner, x);
    }
  }

  // ---------------------------------------------------------------- splitting and merging

  /** Cells lo up to hi go to block b. */
  ghost function Give(owner: map<nat, nat>, b: nat, lo: nat, hi: nat): (given: map<nat, nat>)
    ensures forall x :: x in given <==> x in owner || lo <= x < hi
    ensures forall x :: x in given ==> given[x] == if lo <= x < hi then b else owner[x]
  {
    map x | x in owner.Keys + Range(lo, hi) :: if lo <= x < hi then b else owner[x]
  }

  /** Block b becomes two: b of size m and b + m with the rest. */
  ghost predicate SplitAt(hdrs: Hdrs, hdrs': Hdrs, b: nat, m: nat) {
    && b in hdrs && 0 < m < Size(hdrs[b]) && hdrs'.Keys == hdrs.Keys + {b + m}
    && Size(hdrs'[b]) == m && Size(hdrs'[b + m]) == Size(hdrs[b]) - m
    && forall k :: k in hdrs && k != b && k != b + m ==> Size(hdrs'[k]) == Size(hdrs[k])
  }

  lemma TilingFrom(hdrs: Hdrs, owner: map<nat, nat>)
    requires forall b :: b in hdrs ==> b > 0 && Size(hdrs[b]) > 0 && Owns(hdrs, owner, b)
    requires forall x :: x in owner ==> OwnedOk(hdrs, owner, x)
    ensures Tiling(hdrs, owner)
  {
  }

  lemma SplitNew(hdrs: Hdrs, hdrs': Hdrs, owner: map<nat, nat>, b: nat, m: nat)
    requires Tiling(hdrs, owner) && SplitAt(hdrs, hdrs', b, m)
    ensures b + m !in hdrs && Give(owner, b + m, b + m, b + Size(hdrs[b])).Keys == owner.Keys
  {
    hide Size, Blocks, Give, Range;
    assert Owns(hdrs, owner, b);
    assert b + m in owner && owner[b + m] == b;
  }

  lemma SplitOwns(hdrs: Hdrs, hdrs': Hdrs, owner: map<nat, nat>, b: nat, m: nat, k: nat)
    requires Tiling(hdrs, owner) && SplitAt(hdrs, hdrs', b, m) && k in hdrs' && b + m !in hdrs
    ensures k > 0 && Size(hdrs'[k]) > 0 && Owns(hdrs', Give(owner, b + m, b + m, b + Size(hdrs[b])), k)
  {
    hide Size, Blocks, Give, Range;
    assert Owns(hdrs, owner, b);
    if k != b && k != b + m {
      assert Owns(hdrs, owner, k);
      SplitApart(hdrs, owner, b, k);
    }
  }

  lemma SplitOwned(hdrs: Hdrs, hdrs': Hdrs, owner: map<nat, nat>, b: nat, m: nat, x: nat)
    requires Tiling(hdrs, owner) && SplitAt(hdrs, hdrs', b, m) && x in owner && b + m !in hdrs
    ensures x in Give(owner, b + m, b + m, b + Size(hdrs[b]))
    ensures OwnedOk(hdrs', Give(owner, b + m, b + m, b + Size(hdrs[b])), x)
  {
    hide Size, Blocks, Give, Range;
    assert OwnedOk(hdrs, owner, x) && Owns(hdrs, owner, b);
  }

  lemma SplitTiling(hdrs: Hdrs, hdrs': Hdrs, owner: map<nat, nat>, b: nat, m: nat)
    requires Tiling(hdrs, owner) && SplitAt(hdrs, hdrs', b, m)
    ensures b + m !in hdrs
    ensures Tiling(hdrs', Give(owner, b + m, b + m, b + Size(hdrs[b])))
    ensures Give(owner, b + m, b + m, b + Size(hdrs[b])).Keys == owner.Keys
  {
    hide Size, Blocks, Give, Range, Tiling;
    var owner' := Give(owner, b + m, b + m, b + Size(hdrs[b]));
    SplitNew(hdrs, hdrs', owner, b, m);
    forall k | k in hdrs'
      ensures k > 0 && Size(hdrs'[k]) > 0 && Owns(hdrs', owner', k)
    {
      SplitOwns(hdrs, hdrs', owner, b, m, k);
    }
    forall x | x in owner'
      ensures OwnedOk(hdrs', owner', x)
    {
      SplitOwned(hdrs, hdrs', owner, b, m, x);
    }
    assert Tiling(hdrs', owner') by {
      TilingFrom(hdrs', owner');
    }
  }

  lemma SplitApart(hdrs: Hdrs, owner: map<nat, nat>, b: nat, k: nat)
    requires Tiling(hdrs, owner) && b in hdrs && k in hdrs && k != b
    ensures k + Size(hdrs[k]) <= b || b + Size(hdrs[b]) <= k
  {
    hide Size, Blocks;
    if k < b {
      Disjoint(hdrs, owner, k, b);
    } else {
      Disjoint(hdrs, owner, b, k);
    }
  }

  lemma SplitCells(hdrs: Hdrs, owner: map<nat, nat>, b: nat, m: nat, blocks: set<nat>)
    requires Tiling(hdrs, owner) && b in hdrs && 0 < m < Size(hdrs[b]) && b in blocks
    ensures Cells(Give(owner, b + m, b + m, b + Size(hdrs[b])), blocks + {b + m}) == Cells(owner, blocks)
  {
    hide Size, Blocks, Give, Range;
    var owner' := Give(owner, b + m, b + m, b + Size(hdrs[b]));
    assert Owns(hdrs, owner, b);
    assert b + m in owner && owner[b + m] == b;
    forall x | x in owner'
      ensures x in owner && (owner'[x] in blocks + {b + m} <==> owner[x] in blocks)
    {
      assert x in owner && OwnedOk(hdrs, owner, x);
    }
  }

  /** Block b absorbs the block a just behind it. */
  ghost predicate MergeAt(hdrs: Hdrs, hdrs': Hdrs, b: nat, a: nat) {
    && b in hdrs && a in hdrs && a == b + Size(hdrs[b]) && hdrs'.Keys == hdrs.Keys - {a} && b != a
    && Size(hdrs'[b]) == Size(hdrs[b]) + Size(hdrs[a])
    && forall k :: k in hdrs && k != b && k != a ==> Size(hdrs'[k]) == Size(hdrs[k])
  }

  lemma MergeKeys(hdrs: Hdrs, owner: map<nat, nat>, b: nat, a: nat)
    requires Tiling(hdrs, owner) && a in hdrs
    ensures Give(owner, b, a, a + Size(hdrs[a])).Keys == owner.Keys
  {
    hide Size, Blocks, Give, Range;
    assert Owns(hdrs, owner, a);
  }

  lemma MergeOwns(hdrs: Hdrs, hdrs': Hdrs, owner: map<nat, nat>, b: nat, a: nat, k: nat)
    requires Tiling(hdrs, owner) && MergeAt(hdrs, hdrs', b, a) && k in hdrs'
    ensures k > 0 && Size(hdrs'[k]) > 0 && Owns(hdrs', Give(owner, b, a, a + Size(hdrs[a])), k)
  {
    hide Size, Blocks, Give, Range;
    assert Owns(hdrs, owner, b) && Owns(hdrs, owner, a);
    if k != b {
      assert Owns(hdrs, owner, k);
      SplitApart(hdrs, owner, a, k);
    }
  }

  lemma MergeOwned(hdrs: Hdrs, hdrs': Hdrs, owner: map<nat, nat>, b: nat, a: nat, x: nat)
    requires Tiling(hdrs, owner) && MergeAt(hdrs, hdrs', b, a) && x in owner
    ensures x in Give(owner, b, a, a + Size(hdrs[a])) && OwnedOk(hdrs', Give(owner, b, a, a + Size(hdrs[a])), x)
  {
    hide Size, Blocks, Give, Range;
    assert OwnedOk(hdrs, owner, x) && Owns(hdrs, owner, a);
  }

  lemma MergeTiling(hdrs: Hdrs, hdrs': Hdrs, owner: map<nat, nat>, b: nat, a: nat)
    requires Tiling(hdrs, owner) && MergeAt(hdrs, hdrs', b, a)
    ensures Tiling(hdrs', Give(owner, b, a, a + Size(hdrs[a])))
    ensures Give(owner, b, a, a + Size(hdrs[a])).Keys == owner.Keys
  {
    hide Size, Blocks, Give, Range, Tiling;
    var owner' := Give(owner, b, a, a + Size(hdrs[a]));
    assert owner'.Keys == owner.Keys by {
      MergeKeys(hdrs, owner, b, a);
    }
    forall k | k in hdrs'
      ensures k > 0 && Size(hdrs'[k]) > 0 && Owns(hdrs', owner', k)
    {
      MergeOwns(hdrs, hdrs', owner, b, a, k);
    }
    forall x | x in owner'
      ensures OwnedOk(hdrs', owner', x)
    {
      MergeOwned(hdrs, hdrs', owner, b, a, x);
    }
    TilingFrom(hdrs', owner');
  }

  lemma MergeCells(hdrs: Hdrs, owner: map<nat, nat>, b: nat, a: nat, blocks: set<nat>)
    requires Tiling(hdrs, owner) && b in hdrs && a in hdrs && a == b + Size(hdrs[b]) && (b in blocks <==> a in blocks)
    ensures Cells(Give(owner, b, a, a + Size(hdrs[a])), blocks - {a}) == Cells(owner, blocks)
  {
    hide Size, Blocks, Give, Range;
    var owner' := Give(owner, b, a, a + Size(hdrs[a]));
    assert Owns(hdrs, owner, a) && Owns(hdrs, owner, b);
    forall x | x in owner'
      ensures x in owner && (owner'[x] in blocks - {a} <==> owner[x] in blocks)
    {
      assert x in owner && OwnedOk(hdrs, owner, x);
    }
  }

  lemma NewOwns(hdrs: Hdrs, owner: map<nat, nat>, b: nat, h: Hdr, hdrs': Hdrs, owner': map<nat, nat>, k: nat)
    requires Tiling(hdrs, owner) && b > 0 && Size(h) > 0 && b !in hdrs
    requires forall x :: x in owner ==> !(b <= x < b + Size(h))
    requires hdrs' == hdrs[b := h] && owner' == Give(owner, b, b, b + Size(h)) && k in hdrs'
    ensures k > 0 && Size(hdrs'[k]) > 0 && Owns(hdrs', owner', k)
  {
    hide Size, Blocks, Give, Range;
    if k != b {
      assert Owns(hdrs, owner, k);
      forall x: nat | k <= x < k + Size(hdrs'[k])
        ensures x in owner' && owner'[x] == k
      {
        assert x in owner;
      }
    }
  }

  lemma NewOwned(hdrs: Hdrs, owner: map<nat, nat>, b: nat, h: Hdr, hdrs': Hdrs, owner': map<nat, nat>, x: nat)
    requires Tiling(hdrs, owner) && Size(h) > 0 && b !in hdrs
    requires hdrs' == hdrs[b := h] && owner' == Give(owner, b, b, b + Size(h)) && x in owner'
    ensures OwnedOk(hdrs', owner', x)
  {
    hide Size, Blocks, Give, Range;
    if x in owner {
      assert OwnedOk(hdrs, owner, x);
    }
  }

  /** A new block on cells that were not part of the heap. */
  lemma NewTiling(hdrs: Hdrs, owner: map<nat, nat>, b: nat, h: Hdr, hdrs': Hdrs, owner': map<nat, nat>)
    requires Tiling(hdrs, owner) && b > 0 && Size(h) > 0
    requires forall x :: x in owner ==> !(b <= x < b + Size(h))
    requires hdrs' == hdrs[b := h] && owner' == Give(owner, b, b, b + Size(h))
    ensures b !in hdrs && Tiling(hdrs', owner')
    ensures owner'.Keys == owner.Keys + Range(b, b + Size(h)) && |owner'| == |owner| + Size(h)
  {
    hide Size, Blocks, Give, Range, Owns, OwnedOk;
    NotABlock(hdrs, owner, b);
    assert owner'.Keys == owner.Keys + Range(b, b + Size(h));
    assert owner.Keys !! Range(b, b + Size(h));
    assert |owner'| == |owner'.Keys| && |owner| == |owner.Keys|;
    forall k | k in hdrs'
      ensures k > 0 && Size(hdrs'[k]) > 0 && Owns(hdrs', owner', k)
    {
      NewOwns(hdrs, owner, b, h, hdrs', owner', k);
    }
    forall x | x in owner'
      ensures OwnedOk(hdrs', owner', x)
    {
      NewOwned(hdrs, owner, b, h, hdrs', owner', x);
    }
  }

  lemma NotABlock(hdrs: Hdrs, owner: map<nat, nat>, b: nat)
    requires Tiling(hdrs, owner) && b !in owner
    ensures b !in hdrs
  {
    hide Size, Blocks;
  }
}
