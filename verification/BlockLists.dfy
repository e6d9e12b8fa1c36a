/** The free lists of the heap-block allocator: doubly linked through the block headers, one list per size
    class, each with its count of free bytes. Block addresses and sizes are in units of HBLKSIZE; address 0 is
    the null pointer. */
module BlockLists {
  import opened Sizes

  const UNIQUE_THRESHOLD := 32
  const HUGE_THRESHOLD := 256
  const FL_COMPRESSION := 8
  const N_HBLK_FLS := (HUGE_THRESHOLD - UNIQUE_THRESHOLD) / FL_COMPRESSION + UNIQUE_THRESHOLD

  /** A block header. hb_sz of a free block is its size, hb_sz of a used one the object size in words. */
  datatype Hdr =
    | Free(size: nat, prev: nat, next: nat)
    | Used(words: nat, kind: nat, ignoreOffPage: bool)

  type Hdrs = map<nat, Hdr>

  /** OBJ_SZ_TO_BLOCKS */
  function Blocks(words: nat): nat {
    (words + HBLK_WORDS - 1) / HBLK_WORDS
  }

  /** The least number of heap blocks that holds the words. */
  lemma BlocksHold(words: nat)
    requires words > 0
    ensures 0 < Blocks(words) && (Blocks(words) - 1) * HBLK_WORDS < words <= Blocks(words) * HBLK_WORDS
  {
  }

  function Size(h: Hdr): nat {
    if h.Free? then h.size else Blocks(h.words)
  }

  function FlFromBlocks(blocks: nat): (index: nat)
    ensures index <= N_HBLK_FLS
  {
    if blocks <= UNIQUE_THRESHOLD then blocks
    else if blocks >= HUGE_THRESHOLD then N_HBLK_FLS
    else (blocks - UNIQUE_THRESHOLD) / FL_COMPRESSION + UNIQUE_THRESHOLD
  }

  /** The least size of the blocks on list i: lists below UNIQUE_THRESHOLD hold one size each, those above a band of
      FL_COMPRESSION sizes, and the last one everything from HUGE_THRESHOLD on. */
  function LeastSize(i: nat): nat {
    if i < UNIQUE_THRESHOLD then i else UNIQUE_THRESHOLD + (i - UNIQUE_THRESHOLD) * FL_COMPRESSION
  }

  /** Exactly the sizes of its band go to list i. */
  lemma ListOfSize(i: nat, size: nat)
    requires i <= N_HBLK_FLS
    ensures FlFromBlocks(size) == i <==> LeastSize(i) <= size && (i < N_HBLK_FLS ==> size < LeastSize(i + 1))
  {
    if UNIQUE_THRESHOLD < size < HUGE_THRESHOLD {
      var q := (size - UNIQUE_THRESHOLD) / FL_COMPRESSION;
      assert q * FL_COMPRESSION <= size - UNIQUE_THRESHOLD < (q + 1) * FL_COMPRESSION;
    }
  }

  /** A block that is big enough is never on a list below the one for the size needed. */
  lemma BigEnoughIsNotBelow(needed: nat, size: nat)
    requires needed <= size
    ensures FlFromBlocks(needed) <= FlFromBlocks(size)
  {
    if UNIQUE_THRESHOLD < needed && size < HUGE_THRESHOLD {
      assert (needed - UNIQUE_THRESHOLD) / FL_COMPRESSION <= (size - UNIQUE_THRESHOLD) / FL_COMPRESSION;
    }
  }

  // ---------------------------------------------------------------- one list

  function At(c: seq<nat>, j: int): nat {
    if 0 <= j < |c| then c[j] else 0
  }

  /** The headers of a list: hb_prev and hb_next are inverse, and no block is on it twice. */
  ghost predicate ChainOk(hdrs: Hdrs, c: seq<nat>) {
    && (forall j :: 0 <= j < |c| ==> LinkOk(hdrs, c, j))
    && (forall i, j :: 0 <= i < j < |c| ==> c[i] != c[j])
  }

  ghost predicate LinkOk(hdrs: Hdrs, c: seq<nat>, j: nat)
    requires j < |c|
  {
    && c[j] > 0 && c[j] in hdrs && hdrs[c[j]].Free?
    && hdrs[c[j]].prev == At(c, j - 1) && hdrs[c[j]].next == At(c, j + 1)
  }

  function SizeSum(hdrs: Hdrs, c: seq<nat>): nat {
    if c == [] then 0 else (if c[0] in hdrs then Size(hdrs[c[0]]) else 0) + SizeSum(hdrs, c[1..])
  }

  function Cut(c: seq<nat>, j: nat): seq<nat>
    requires j < |c|
  {
    c[..j] + c[j + 1..]
  }

  /** Same blocks, same sizes; only links may differ. */
  ghost predicate SameBlocks(hdrs: Hdrs, hdrs': Hdrs) {
    && hdrs.Keys == hdrs'.Keys
    && forall b :: b in hdrs ==> SameBlock(hdrs[b], hdrs'[b])
  }

  ghost predicate SameBlock(h: Hdr, h': Hdr) {
    h == h' || (h.Free? && h'.Free? && h.size == h'.size)
  }

  ghost predicate SameOn(hdrs: Hdrs, hdrs': Hdrs, c: seq<nat>) {
    forall j :: 0 <= j < |c| ==> c[j] in hdrs && c[j] in hdrs' && hdrs[c[j]] == hdrs'[c[j]]
  }

  lemma {:induction false} SizeSumSame(hdrs: Hdrs, hdrs': Hdrs, c: seq<nat>)
    requires forall j :: 0 <= j < |c| ==> c[j] in hdrs && c[j] in hdrs' && Size(hdrs[c[j]]) == Size(hdrs'[c[j]])
    ensures SizeSum(hdrs, c) == SizeSum(hdrs', c)
  {
    if c != [] {
      assert forall j :: 0 <= j < |c[1..]| ==> c[1..][j] == c[j + 1];
      SizeSumSame(hdrs, hdrs', c[1..]);
    }
  }

  lemma {:induction false} SizeSumCut(hdrs: Hdrs, c: seq<nat>, j: nat)
    requires j < |c| && c[j] in hdrs
    ensures SizeSum(hdrs, c) == SizeSum(hdrs, Cut(c, j)) + Size(hdrs[c[j]])
  {
    if j == 0 {
      assert Cut(c, j) == c[1..];
    } else {
      SizeSumCut(hdrs, c[1..], j - 1);
      assert Cut(c, j)[1..] == Cut(c[1..], j - 1);
    }
  }

  lemma ChainSame(hdrs: Hdrs, hdrs': Hdrs, c: seq<nat>)
    requires ChainOk(hdrs, c) && SameOn(hdrs, hdrs', c)
    ensures ChainOk(hdrs', c) && SizeSum(hdrs', c) == SizeSum(hdrs, c)
  {
    forall j | 0 <= j < |c|
      ensures LinkOk(hdrs', c, j)
    {
      assert LinkOk(hdrs, c, j);
    }
    SizeSumSame(hdrs, hdrs', c);
  }

  // ---------------------------------------------------------------- unlinking and linking, on the headers

  function SetNext(hdrs: Hdrs, b: nat, next: nat): Hdrs
    requires b in hdrs && hdrs[b].Free?
  {
    hdrs[b := hdrs[b].(next := next)]
  }

  function SetPrev(hdrs: Hdrs, b: nat, prev: nat): Hdrs
    requires b in hdrs && hdrs[b].Free?
  {
    hdrs[b := hdrs[b].(prev := prev)]
  }

  lemma UnlinkChain(hdrs: Hdrs, c: seq<nat>, j: nat, h1: Hdrs, h2: Hdrs)
    requires ChainOk(hdrs, c) && j < |c|
    requires LinkOk(hdrs, c, j)
    requires j > 0 ==> LinkOk(hdrs, c, j - 1)
    requires h1 == if j > 0 then SetNext(hdrs, c[j - 1], At(c, j + 1)) else hdrs
    requires j + 1 < |c| ==> LinkOk(hdrs, c, j + 1)
    requires h2 == if j + 1 < |c| then SetPrev(h1, c[j + 1], At(c, j - 1)) else h1
    ensures ChainOk(h2, Cut(c, j)) && SameBlocks(hdrs, h2) && h2[c[j]] == hdrs[c[j]]
  {
    var d := Cut(c, j);
    forall k | 0 <= k < |d|
      ensures LinkOk(h2, d, k)
    {
      var k' := if k < j then k else k + 1;
      assert d[k] == c[k'] && LinkOk(hdrs, c, k');
    }
  }

  lemma PushChain(hdrs: Hdrs, c: seq<nat>, b: nat, h1: Hdrs, h2: Hdrs)
    requires ChainOk(hdrs, c) && b !in c && b > 0 && b in hdrs && hdrs[b].Free?
    requires h1 == hdrs[b := hdrs[b].(prev := 0, next := At(c, 0))]
    requires c != [] ==> LinkOk(hdrs, c, 0)
    requires h2 == if c != [] then SetPrev(h1, c[0], b) else h1
    ensures ChainOk(h2, [b] + c) && SameBlocks(hdrs, h2)
  {
    var d := [b] + c;
    forall k | 0 <= k < |d|
      ensures LinkOk(h2, d, k)
    {
      if k > 0 {
        assert d[k] == c[k - 1] && LinkOk(hdrs, c, k - 1);
      }
    }
  }

  // ---------------------------------------------------------------- all lists

  /** What the free-list globals hold, with the lists they denote: `chains[i]` is list i from head to tail, and
      `on[b]` the list block b is on. */
  datatype Lists = Lists(heads: seq<nat>, freeBytes: seq<nat>, chains: seq<seq<nat>>, on: map<nat, nat>)

  ghost predicate ListsOk(hdrs: Hdrs, l: Lists) {
    && |l.heads| == |l.chains| == |l.freeBytes| == N_HBLK_FLS + 1
    && (forall i :: 0 <= i <= N_HBLK_FLS ==> ListOk(hdrs, l, i))
    && (forall b :: b in l.on ==> l.on[b] <= N_HBLK_FLS && b in l.chains[l.on[b]])
  }

  ghost predicate ListOk(hdrs: Hdrs, l: Lists, i: nat)
    requires i < |l.heads| == |l.chains| == |l.freeBytes|
  {
    && l.heads[i] == At(l.chains[i], 0) && ChainOk(hdrs, l.chains[i]) && l.freeBytes[i] == SizeSum(hdrs, l.chains[i])
    && forall j :: 0 <= j < |l.chains[i]| ==> l.chains[i][j] in l.on && l.on[l.chains[i][j]] == i
  }

  ghost function Position(c: seq<nat>, b: nat): (j: nat)
    requires b in c
    ensures j < |c| && c[j] == b
  {
    var j :| 0 <= j < |c| && c[j] == b;
    j
  }

  /** The other lists do not see a change to headers that are not theirs. */
  lemma OtherLists(hdrs: Hdrs, l: Lists, hdrs': Hdrs, l': Lists, i: nat, k: nat)
    requires ListsOk(hdrs, l) && i <= N_HBLK_FLS && k <= N_HBLK_FLS && k != i
    requires |l'.heads| == |l'.chains| == |l'.freeBytes| == N_HBLK_FLS + 1
    requires l'.heads[k] == l.heads[k] && l'.chains[k] == l.chains[k] && l'.freeBytes[k] == l.freeBytes[k]
    requires forall b :: b in l.on && l.on[b] != i ==> b in l'.on && l'.on[b] == l.on[b]
    requires forall b :: b in l.on && l.on[b] != i && b in hdrs ==> b in hdrs' && hdrs'[b] == hdrs[b]
    ensures ListOk(hdrs', l', k)
  {
    assert ListOk(hdrs, l, k);
    var c := l.chains[k];
    forall j | 0 <= j < |c|
      ensures c[j] in hdrs && c[j] in hdrs' && hdrs[c[j]] == hdrs'[c[j]]
    {
      assert LinkOk(hdrs, c, j);
    }
    ChainSame(hdrs, hdrs', c);
  }

  ghost function Removed(l: Lists, b: nat, i: nat, size: nat): Lists
    requires |l.heads| == |l.chains| == |l.freeBytes| && i < |l.heads| && b in l.chains[i] && size <= l.freeBytes[i]
  {
    var c := Cut(l.chains[i], Position(l.chains[i], b));
    Lists(l.heads[i := At(c, 0)], l.freeBytes[i := l.freeBytes[i] - size], l.chains[i := c], l.on - {b})
  }

  lemma SameSizeAt(hdrs: Hdrs, hdrs': Hdrs, b: nat)
    requires SameBlocks(hdrs, hdrs') && b in hdrs'
    ensures b in hdrs && Size(hdrs[b]) == Size(hdrs'[b])
  {
    assert SameBlock(hdrs[b], hdrs'[b]);
  }

  lemma RemoveKeeps(hdrs: Hdrs, l: Lists, b: nat, hdrs': Hdrs)
    requires ListsOk(hdrs, l) && b in l.on && b in hdrs
    requires ChainOk(hdrs', Cut(l.chains[l.on[b]], Position(l.chains[l.on[b]], b))) && SameBlocks(hdrs, hdrs')
    requires forall k :: k in hdrs && k in l.on && l.on[k] != l.on[b] ==> hdrs'[k] == hdrs[k]
    ensures ListOk(hdrs, l, l.on[b]) && Size(hdrs[b]) <= l.freeBytes[l.on[b]]
    ensures ListsOk(hdrs', Removed(l, b, l.on[b], Size(hdrs[b])))
  {
    hide SizeSum, Size;
    var i := l.on[b];
    var c := l.chains[i];
    var j := Position(c, b);
    var d := Cut(c, j);
    assert ListOk(hdrs, l, i);
    SizeSumCut(hdrs, c, j);
    var l' := Removed(l, b, i, Size(hdrs[b]));
    assert forall k :: 0 <= k < |d| ==> d[k] == c[if k < j then k else k + 1];
    forall k | 0 <= k < |d|
      ensures d[k] in hdrs && d[k] in hdrs' && Size(hdrs[d[k]]) == Size(hdrs'[d[k]])
    {
      assert LinkOk(hdrs', d, k);
      SameSizeAt(hdrs, hdrs', d[k]);
    }
    SizeSumSame(hdrs, hdrs', d);
    assert ListOk(hdrs', l', i);
    forall k | 0 <= k <= N_HBLK_FLS
      ensures ListOk(hdrs', l', k)
    {
      if k != i {
        OtherLists(hdrs, l, hdrs', l', i, k);
      }
    }
    forall x | x in l'.on
      ensures l'.on[x] <= N_HBLK_FLS && x in l'.chains[l'.on[x]]
    {
      if l.on[x] == i {
        var m := Position(c, x);
        assert d[if m < j then m else m - 1] == x;
      }
    }
  }

  ghost function Added(l: Lists, b: nat, i: nat, size: nat): Lists
    requires |l.heads| == |l.chains| == |l.freeBytes| && i < |l.heads|
  {
    Lists(l.heads[i := b], l.freeBytes[i := l.freeBytes[i] + size], l.chains[i := [b] + l.chains[i]], l.on[b := i])
  }

  lemma AddKeeps(hdrs: Hdrs, l: Lists, b: nat, i: nat, hdrs': Hdrs)
    requires ListsOk(hdrs, l) && b !in l.on && b in hdrs && i <= N_HBLK_FLS
    requires ChainOk(hdrs', [b] + l.chains[i]) && SameBlocks(hdrs, hdrs')
    requires forall k :: k in hdrs && k in l.on && l.on[k] != i ==> hdrs'[k] == hdrs[k]
    ensures ListsOk(hdrs', Added(l, b, i, Size(hdrs[b])))
  {
    var c := l.chains[i];
    var d := [b] + c;
    assert ListOk(hdrs, l, i);
    var l' := Added(l, b, i, Size(hdrs[b]));
    forall k | 0 <= k < |c|
      ensures c[k] in hdrs && c[k] in hdrs' && Size(hdrs[c[k]]) == Size(hdrs'[c[k]])
    {
      assert LinkOk(hdrs, c, k);
    }
    SizeSumSame(hdrs, hdrs', c);
    assert d[1..] == c;
    assert ListOk(hdrs', l', i);
    forall k | 0 <= k <= N_HBLK_FLS
      ensures ListOk(hdrs', l', k)
    {
      if k != i {
        OtherLists(hdrs, l, hdrs', l', i, k);
      }
    }
    forall x | x in l'.on
      ensures l'.on[x] <= N_HBLK_FLS && x in l'.chains[l'.on[x]]
    {
      if x != b && l.on[x] == i {
        var m := Position(c, x);
        assert d[m + 1] == x;
      }
    }
  }

  ghost function Replaced(l: Lists, h: nat, n: nat, i: nat, hSize: nat): Lists
    requires |l.heads| == |l.chains| == |l.freeBytes| && i < |l.heads| && h in l.chains[i] && hSize <= l.freeBytes[i]
  {
    var c: seq<nat> := l.chains[i][Position(l.chains[i], h) := n];
    Lists(l.heads[i := At(c, 0)], l.freeBytes[i := l.freeBytes[i] - hSize], l.chains[i := c], (l.on - {h})[n := i])
  }

  lemma ReplaceDistinct(hdrs: Hdrs, c: seq<nat>, j: nat, n: nat, d: seq<nat>)
    requires ChainOk(hdrs, c) && j < |c| && n !in hdrs && d == c[j := n]
    ensures forall k, m :: 0 <= k < m < |d| ==> d[k] != d[m]
    ensures forall k :: 0 <= k < |c| ==> c[k] != n && c[k] in hdrs
    ensures (j > 0 ==> c[j - 1] != c[j]) && (j + 1 < |c| ==> c[j + 1] != c[j])
  {
    forall k | 0 <= k < |c|
      ensures c[k] != n && c[k] in hdrs
    {
      assert LinkOk(hdrs, c, k);
    }
  }

  lemma ChainFrom(hdrs: Hdrs, c: seq<nat>)
    requires forall j :: 0 <= j < |c| ==> LinkOk(hdrs, c, j)
    requires forall i, j :: 0 <= i < j < |c| ==> c[i] != c[j]
    ensures ChainOk(hdrs, c)
  {
  }

  lemma ReplaceLink(hdrs: Hdrs, c: seq<nat>, j: nat, n: nat, size: nat, h1: Hdrs, h2: Hdrs, h3: Hdrs, k: nat)
    requires ChainOk(hdrs, c) && j < |c| && n > 0 && n !in hdrs && k < |c|
    requires LinkOk(hdrs, c, j)
    requires h1 == hdrs[n := Free(size, hdrs[c[j]].prev, hdrs[c[j]].next)]
    requires j > 0 ==> LinkOk(hdrs, c, j - 1)
    requires h2 == if j > 0 then SetNext(h1, c[j - 1], n) else h1
    requires j + 1 < |c| ==> LinkOk(hdrs, c, j + 1)
    requires h3 == if j + 1 < |c| then SetPrev(h2, c[j + 1], n) else h2
    ensures LinkOk(h3, c[j := n], k)
  {
    assert LinkOk(hdrs, c, k);
  }

  /** N takes h's place on a list. */
  lemma ReplaceChain(hdrs: Hdrs, c: seq<nat>, j: nat, n: nat, size: nat, h1: Hdrs, h2: Hdrs, h3: Hdrs)
    requires ChainOk(hdrs, c) && j < |c| && n > 0 && n !in hdrs
    requires LinkOk(hdrs, c, j)
    requires h1 == hdrs[n := Free(size, hdrs[c[j]].prev, hdrs[c[j]].next)]
    requires j > 0 ==> LinkOk(hdrs, c, j - 1)
    requires h2 == if j > 0 then SetNext(h1, c[j - 1], n) else h1
    requires j + 1 < |c| ==> LinkOk(hdrs, c, j + 1)
    requires h3 == if j + 1 < |c| then SetPrev(h2, c[j + 1], n) else h2
    ensures ChainOk(h3, c[j := n]) && SameBlocks(h1, h3) && h3[c[j]] == hdrs[c[j]]
  {
    hide ChainOk;
    var d := c[j := n];
    forall k | 0 <= k < |d|
      ensures LinkOk(h3, d, k)
    {
      ReplaceLink(hdrs, c, j, n, size, h1, h2, h3, k);
    }
    ReplaceDistinct(hdrs, c, j, n, d);
    ChainFrom(h3, d);
  }

  lemma {:induction false} SizeSumReplace(hdrs: Hdrs, hdrs': Hdrs, c: seq<nat>, j: nat, n: nat)
    requires j < |c| && c[j] in hdrs && n in hdrs'
    requires forall k :: 0 <= k < |c| && k != j ==>
               c[k] in hdrs && c[k] in hdrs' && Size(hdrs[c[k]]) == Size(hdrs'[c[k]])
    ensures SizeSum(hdrs', c[j := n]) == SizeSum(hdrs, c) - Size(hdrs[c[j]]) + Size(hdrs'[n])
  {
    if j == 0 {
      assert c[j := n][1..] == c[1..];
      SizeSumSame(hdrs, hdrs', c[1..]);
    } else {
      assert c[j := n][1..] == c[1..][j - 1 := n];
      SizeSumReplace(hdrs, hdrs', c[1..], j - 1, n);
    }
  }

  lemma ReplaceKeeps(hdrs: Hdrs, l: Lists, h: nat, n: nat, hSize: nat, h1: Hdrs, hdrs': Hdrs)
    requires ListsOk(hdrs, l) && h in l.on && h in hdrs && n !in hdrs && n !in l.on && hSize < Size(hdrs[h])
    requires h1.Keys == hdrs.Keys + {n} && Size(h1[n]) == Size(hdrs[h]) - hSize && forall k :: k in hdrs ==>
             h1[k] == hdrs[k]
    requires ChainOk(hdrs', l.chains[l.on[h]][Position(l.chains[l.on[h]], h) := n]) && SameBlocks(h1, hdrs')
    requires forall k :: k in hdrs && k in l.on && l.on[k] != l.on[h] ==> hdrs'[k] == hdrs[k]
    ensures ListOk(hdrs, l, l.on[h]) && hSize <= l.freeBytes[l.on[h]]
    ensures ListsOk(hdrs', Replaced(l, h, n, l.on[h], hSize))
  {
    var i := l.on[h];
    var c := l.chains[i];
    var j := Position(c, h);
    var d := c[j := n];
    assert ListOk(hdrs, l, i);
    forall k | 0 <= k < |c|
      ensures c[k] in hdrs && c[k] in hdrs' && (k != j ==> Size(hdrs[c[k]]) == Size(hdrs'[c[k]]))
    {
      assert LinkOk(hdrs, c, k);
      assert LinkOk(hdrs', d, k);
    }
    assert Size(hdrs'[n]) == Size(h1[n]) by {
      assert SameBlock(h1[n], hdrs'[n]);
    }
    SizeSumReplace(hdrs, hdrs', c, j, n);
    var l' := Replaced(l, h, n, i, hSize);
    assert forall k :: 0 <= k < |d| && k != j ==> d[k] == c[k];
    assert ListOk(hdrs', l', i);
    forall k | 0 <= k <= N_HBLK_FLS
      ensures ListOk(hdrs', l', k)
    {
      if k != i {
        OtherLists(hdrs, l, hdrs', l', i, k);
      }
    }
    forall x | x in l'.on
      ensures l'.on[x] <= N_HBLK_FLS && x in l'.chains[l'.on[x]]
    {
      if x == n {
        assert d[j] == n;
      } else if l.on[x] == i {
        var m := Position(c, x);
        assert d[m] == x;
      }
    }
  }
}
