/** The black lists: hash tables of block addresses to which false pointers were seen. Addresses are block
    numbers (addresses divided by HBLKSIZE). */
module BlackList {

  import opened Sizes

  /** A page hash table as its bits; word w holds bits w * WORDSZ up to (w + 1) * WORDSZ. */
  type Table = t: seq<bool> | |t| == PHT_ENTRIES witness seq(PHT_ENTRIES, i => false)

  const EMPTY: Table := seq(PHT_ENTRIES, i => false)

  function Hash(h: nat): (index: nat)
    ensures index < PHT_ENTRIES
  {
    h % PHT_ENTRIES
  }

  predicate WordIsZero(t: Table, w: nat)
    requires w < PHT_SIZE
  {
    forall i :: w * WORDSZ <= i < (w + 1) * WORDSZ ==> !t[i]
  }

  datatype Lists = Lists(allInterior: bool, oldNormal: Table, incompleteNormal: Table, oldStack: Table,
    incompleteStack: Table)

  ghost predicate OnStackList(l: Lists, h: nat) {
    l.oldStack[Hash(h)] || l.incompleteStack[Hash(h)]
  }

  ghost predicate OnNormalList(l: Lists, h: nat) {
    !l.allInterior && (l.oldNormal[Hash(h)] || l.incompleteNormal[Hash(h)])
  }

  /** A block of n >= 1 heap blocks at h is listed: its start for a pointer to its beginning, or any part of it for
      an interior pointer. */
  ghost predicate Listed(l: Lists, h: nat, n: nat) {
    OnNormalList(l, h) || exists x: nat :: h <= x < h + n && OnStackList(l, x)
  }

  /** Consecutive blocks that share a word of the table differ only in the bit number. */
  lemma SameWord(h: nat, x: nat)
    requires h <= x < h + WORDSZ - Hash(h) % WORDSZ
    ensures Hash(x) == Hash(h) + (x - h) && Hash(x) < (Hash(h) / WORDSZ + 1) * WORDSZ
  {
    var q, w := h / PHT_ENTRIES, Hash(h) / WORDSZ;
    assert h == q * PHT_ENTRIES + Hash(h) && Hash(h) == w * WORDSZ + Hash(h) % WORDSZ;
    assert x == q * PHT_ENTRIES + (Hash(h) + (x - h)) && Hash(h) + (x - h) < (w + 1) * WORDSZ <= PHT_ENTRIES;
    ModUnique(q, Hash(h) + (x - h));
  }

  lemma ModUnique(q: nat, r: nat)
    requires r < PHT_ENTRIES
    ensures (q * PHT_ENTRIES + r) % PHT_ENTRIES == r
  {
  }

  lemma EasyCase(l: Lists, h: nat, x: nat)
    requires h <= x < h + WORDSZ - Hash(h) % WORDSZ
    requires WordIsZero(l.oldStack, Hash(h) / WORDSZ) && WordIsZero(l.incompleteStack, Hash(h) / WORDSZ)
    ensures !OnStackList(l, x)
  {
    SameWord(h, x);
  }

  /** GC_is_black_listed: skips a whole word of the tables when it is empty. The result is 0 exactly if the block is
      not listed; otherwise every start below the result is listed, and the result is within the block or just
      behind it. */
  method IsBlackListed(l: Lists, h: nat, nblocks: nat) returns (r: nat)
    requires nblocks > 0
    ensures r == 0 <==> !Listed(l, h, nblocks)
    ensures r != 0 ==> h < r <= h + nblocks && forall x: nat :: h <= x < r ==> Listed(l, x, nblocks)
    ensures r != 0 ==> if OnNormalList(l, h) then r == h + 1
                       else OnStackList(l, r - 1) && forall x: nat :: h <= x < r - 1 ==> !OnStackList(l, x)
  {
    var index := Hash(h);
    if !l.allInterior {
      if l.oldNormal[index] || l.incompleteNormal[index] {
        return h + 1;
      }
    }
    var i := 0;
    while true
      invariant 0 <= i < nblocks && index == Hash(h + i) && !OnNormalList(l, h)
      invariant forall x: nat :: h <= x < h + i ==> !OnStackList(l, x)
      decreases nblocks - i
    {
      if WordIsZero(l.oldStack, index / WORDSZ) && WordIsZero(l.incompleteStack, index / WORDSZ) {
        var skip := WORDSZ - index % WORDSZ;
        forall x: nat | h + i <= x < h + i + skip
          ensures !OnStackList(l, x)
        {
          EasyCase(l, h + i, x);
        }
        i := i + skip;
      } else {
        if l.oldStack[index] || l.incompleteStack[index] {
          assert OnStackList(l, h + i);
          return h + i + 1;
        }
        i := i + 1;
      }
      if i >= nblocks {
        break;
      }
      index := Hash(h + i);
    }
    return 0;
  }

  /** The search in GC_allochblk_nth for a start that is not black-listed, in a free block of `avail` blocks at
      `hbp`. It ends at the first such start, or behind the last possible one but never behind the block. */
  method FirstUnlisted(l: Lists, hbp: nat, avail: nat, needed: nat, effective: nat) returns (last: nat)
    requires 0 < effective <= needed <= avail
    ensures hbp <= last <= hbp + avail
    ensures forall x: nat :: hbp <= x < last ==> Listed(l, x, effective)
    ensures last <= hbp + avail - needed ==> !Listed(l, last, effective)
  {
    last := hbp;
    var searchEnd := hbp + avail - needed;
    while last <= searchEnd
      invariant hbp <= last <= hbp + avail
      invariant forall x: nat :: hbp <= x < last ==> Listed(l, x, effective)
      decreases hbp + avail - last
    {
      var r := IsBlackListed(l, last, effective);
      if r == 0 {
        break;
      }
      last := r;
    }
  }

  // ---------------------------------------------------------------- filling and promoting

  /** The four table pointers. */
  class Tables {
    var lists: Lists

    /** GC_add_to_black_list_stack, for a false pointer into block h that has or lacks a header. */
    method AddStack(h: nat, hasHeader: bool)
      modifies this
      ensures forall x: nat :: OnStackList(lists, x) <==>
                OnStackList(old(lists), x) || (Hash(x) == Hash(h) && !hasHeader)
      ensures forall x: nat :: lists.incompleteStack[Hash(x)] <==>
                old(lists).incompleteStack[Hash(x)] ||
                (Hash(x) == Hash(h) && (!hasHeader || old(lists).oldStack[Hash(x)]))
      ensures lists == old(lists).(incompleteStack := lists.incompleteStack)
    {
      var index := Hash(h);
      if !hasHeader || lists.oldStack[index] {
        lists := lists.(incompleteStack := lists.incompleteStack[index := true]);
      }
    }

    /** GC_add_to_black_list_normal, for a false pointer that could point to the start of an object in block h. */
    method AddNormal(h: nat, hasHeader: bool)
      modifies this
      ensures forall x: nat :: OnNormalList(lists, x) <==>
                OnNormalList(old(lists), x) || (!lists.allInterior && Hash(x) == Hash(h) && !hasHeader)
      ensures forall x: nat :: lists.incompleteNormal[Hash(x)] <==>
                old(lists).incompleteNormal[Hash(x)] ||
                (Hash(x) == Hash(h) && (!hasHeader || old(lists).oldNormal[Hash(x)]))
      ensures lists == old(lists).(incompleteNormal := lists.incompleteNormal)
    {
      var index := Hash(h);
      if !hasHeader || lists.oldNormal[index] {
        lists := lists.(incompleteNormal := lists.incompleteNormal[index := true]);
      }
    }

    /** GC_promote_black_lists: what this collection saw becomes the old list, and collecting starts afresh. */
    method Promote()
      modifies this
      ensures lists.allInterior == old(lists).allInterior
      ensures lists.oldStack == old(lists).incompleteStack && lists.oldNormal == old(lists).incompleteNormal
      ensures lists.incompleteStack == EMPTY
      ensures lists.incompleteNormal == if lists.allInterior then old(lists).oldNormal else EMPTY
      ensures forall x: nat :: OnStackList(lists, x) == old(lists).incompleteStack[Hash(x)]
      ensures forall x: nat :: OnNormalList(lists, x) == (!lists.allInterior && old(lists).incompleteNormal[Hash(x)])
    {
      var veryOldNormal := lists.oldNormal;
      lists := lists.(oldNormal := lists.incompleteNormal, oldStack := lists.incompleteStack);
      if !lists.allInterior {
        veryOldNormal := EMPTY;
      }
      lists := lists.(incompleteNormal := veryOldNormal, incompleteStack := EMPTY);
    }

    /** GC_unpromote_black_lists: what was promoted last is being collected again. */
    method Unpromote()
      modifies this
      ensures lists.oldStack == lists.incompleteStack == old(lists).oldStack && lists.oldNormal == old(lists).oldNormal
      ensures lists.allInterior == old(lists).allInterior
      ensures lists.incompleteNormal == if lists.allInterior then old(lists).incompleteNormal else lists.oldNormal
      ensures forall x: nat :: OnStackList(lists, x) == old(lists).oldStack[Hash(x)]
      ensures forall x: nat :: OnNormalList(lists, x) == (!lists.allInterior && old(lists).oldNormal[Hash(x)])
    {
      if !lists.allInterior {
        lists := lists.(incompleteNormal := lists.oldNormal);
      }
      lists := lists.(incompleteStack := lists.oldStack);
    }
  }
}
