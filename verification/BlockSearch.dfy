/** Which free block GC_allochblk_nth may allocate from, and what a search that drops or allocates leaves. */
module BlockSearch {
  import opened Sizes
  import opened BlockLists
  import opened BlockTiling
  import opened HblkAlloc
  import BL = BlackList

  const MAX_BLACK_LIST_BLOCKS := 2
  const UNCOLLECTABLE := 2

  /** The globals that steer the search. Byte counts of large objects are in units of HBLKSIZE, like the lists. */
  datatype Config = Config(
    useEntireHeap: bool, dontGc: bool, incremental: bool, shouldCollect: bool, requestedBytes: nat,
    largeAllocd: nat, maxLargeAllocd: nat, finalizerWordsFreed: nat, blLimit: nat, findLeak: bool, black: BL.Lists)

  datatype Request = Request(words: nat, kind: nat, ignoreOffPage: bool)

  function Needed(req: Request): nat {
    Blocks(req.words)
  }

  /** How much of the object an interior pointer can point into. */
  function Effective(req: Request): nat {
    if req.ignoreOffPage then 1 else Needed(req)
  }

  function Header(req: Request): Hdr {
    Used(req.words, req.kind, req.ignoreOffPage)
  }

  /** The black list does not matter to uncollectable objects and to small pointer-free ones. */
  predicate Exempt(req: Request) {
    req.kind / 2 == UNCOLLECTABLE / 2 || (req.kind == PTRFREE && Needed(req) <= MAX_BLACK_LIST_BLOCKS)
  }

  /** Splitting a block of list n is put off, to collect instead. */
  predicate GateClosed(cfg: Config, heapSize: nat, largeFree: nat, freeBytes: seq<nat>, n: nat)
    requires n <= |freeBytes|
  {
    && !cfg.useEntireHeap && !cfg.dontGc && (heapSize - largeFree) * HBLKSIZE >= cfg.requestedBytes
    && !cfg.incremental && cfg.shouldCollect
    && (cfg.largeAllocd + Sum(freeBytes[n..]) <= cfg.maxLargeAllocd ||
      cfg.finalizerWordsFreed * 4 > heapSize * HBLKSIZE / 16)
  }

  /** A very large block in a much larger one is allocated whatever the black list says. */
  predicate Punt(cfg: Config, needed: nat, size: nat) {
    needed * HBLKSIZE > cfg.blLimit && (size - needed) * HBLKSIZE > cfg.blLimit
  }

  ghost predicate HasStart(cfg: Config, req: Request, b: nat, size: nat) {
    exists t: nat :: b <= t && t + Needed(req) <= b + size && !BL.Listed(cfg.black, t, Effective(req))
  }

  /** Whether a free block of list n can serve the request, stated without reference to the other blocks. */
  ghost predicate Suitable(cfg: Config, req: Request, s: State, n: nat, b: nat) {
    && FreeAt(s.hdrs, b) && n <= |s.lists.freeBytes|
    && Needed(req) <= Size(s.hdrs[b])
    && (Needed(req) == Size(s.hdrs[b]) || !GateClosed(cfg, s.heapSize, s.largeFree, s.lists.freeBytes, n))
    && (Exempt(req) || Punt(cfg, Needed(req), Size(s.hdrs[b])) || HasStart(cfg, req, b, Size(s.hdrs[b])))
  }

  ghost predicate NoneSuitable(cfg: Config, req: Request, s: State, n: nat) {
    forall b :: b in s.lists.on && s.lists.on[b] == n ==> !Suitable(cfg, req, s, n, b)
  }

  /** A block of list n of exactly the size needed that can serve the request. */
  ghost predicate Fits(cfg: Config, req: Request, s: State, n: nat, b: nat) {
    && b in s.lists.on && s.lists.on[b] == n && FreeAt(s.hdrs, b) && Size(s.hdrs[b]) == Needed(req)
    && (Exempt(req) || HasStart(cfg, req, b, Size(s.hdrs[b])))
  }

  ghost predicate KeepsFits(cfg: Config, req: Request, s: State, s': State, n: nat) {
    forall b :: Fits(cfg, req, s, n, b) ==> Fits(cfg, req, s', n, b)
  }

  /** No gate is in its way. */
  lemma FitsIsSuitable(cfg: Config, req: Request, s: State, n: nat, b: nat)
    requires Fits(cfg, req, s, n, b) && n <= |s.lists.freeBytes|
    ensures Suitable(cfg, req, s, n, b)
  {
    hide HasStart, Exempt, GateClosed;
  }

  lemma NoneFits(cfg: Config, req: Request, s: State, s': State, n: nat)
    requires KeepsFits(cfg, req, s, s', n) && NoneSuitable(cfg, req, s', n) && n <= |s'.lists.freeBytes|
    ensures forall b :: !Fits(cfg, req, s, n, b)
  {
    hide Suitable, Fits;
    forall b | Fits(cfg, req, s, n, b)
      ensures false
    {
      FitsIsSuitable(cfg, req, s', n, b);
      FitsOn(cfg, req, s', n, b);
    }
  }

  lemma FitsOn(cfg: Config, req: Request, s: State, n: nat, b: nat)
    requires Fits(cfg, req, s, n, b)
    ensures b in s.lists.on && s.lists.on[b] == n
  {
  }

  // ---------------------------------------------------------------- dropping blocks

  /** Free blocks may have been dropped; the others are as they were. */
  ghost predicate Shrunk(s: State, s': State) {
    && s'.heapSize == s.heapSize && s'.owner.Keys == s.owner.Keys && s'.largeFree <= s.largeFree
    && |s'.lists.freeBytes| == |s.lists.freeBytes|
    && (forall i :: 0 <= i < |s.lists.freeBytes| ==> s'.lists.freeBytes[i] <= s.lists.freeBytes[i])
    && (forall k: nat :: FreeAt(s'.hdrs, k) ==> FreeAt(s.hdrs, k) && Size(s'.hdrs[k]) == Size(s.hdrs[k]))
    && (forall k :: k in s'.lists.on ==> k in s.lists.on && s'.lists.on[k] == s.lists.on[k])
  }

  lemma ShrunkTrans(s: State, s1: State, s2: State)
    requires Shrunk(s, s1) && Shrunk(s1, s2)
    ensures Shrunk(s, s2)
  {
    hide Size;
  }

  lemma {:induction false} SumLess(a: seq<nat>, b: seq<nat>)
    requires |a| == |b| && forall i :: 0 <= i < |a| ==> a[i] <= b[i]
    ensures Sum(a) <= Sum(b)
  {
    if a != [] {
      SumLess(a[1..], b[1..]);
    }
  }

  /** A gate that is closed stays closed when blocks are dropped. */
  lemma GateStaysClosed(cfg: Config, s: State, s': State, n: nat)
    requires Shrunk(s, s') && n <= |s.lists.freeBytes| && s.largeFree <= s.heapSize
    requires GateClosed(cfg, s.heapSize, s.largeFree, s.lists.freeBytes, n)
    ensures GateClosed(cfg, s'.heapSize, s'.largeFree, s'.lists.freeBytes, n)
  {
    SumLess(s'.lists.freeBytes[n..], s.lists.freeBytes[n..]);
  }

  lemma StaysUnsuitable(cfg: Config, req: Request, s: State, s': State, n: nat, b: nat)
    requires Shrunk(s, s') && s.largeFree <= s.heapSize && n <= |s.lists.freeBytes|
    requires Suitable(cfg, req, s', n, b)
    ensures Suitable(cfg, req, s, n, b)
  {
    hide GateClosed, HasStart, Punt, Size, Blocks, Exempt;
    if GateClosed(cfg, s.heapSize, s.largeFree, s.lists.freeBytes, n) {
      GateStaysClosed(cfg, s, s', n);
    }
  }

  lemma NoneSuitableStays(cfg: Config, req: Request, s: State, s': State, n: nat)
    requires Shrunk(s, s') && s.largeFree <= s.heapSize && n <= |s.lists.freeBytes| && NoneSuitable(cfg, req, s, n)
    ensures NoneSuitable(cfg, req, s', n)
  {
    hide Suitable, Shrunk;
    forall b | b in s'.lists.on && s'.lists.on[b] == n
      ensures !Suitable(cfg, req, s', n, b)
    {
      ShrunkOn(s, s', b);
      if Suitable(cfg, req, s', n, b) {
        StaysUnsuitable(cfg, req, s, s', n, b);
      }
    }
  }

  lemma ShrunkOn(s: State, s': State, b: nat)
    requires Shrunk(s, s') && b in s'.lists.on
    ensures b in s.lists.on && s'.lists.on[b] == s.lists.on[b]
  {
  }

  // ---------------------------------------------------------------- the "obviously better" block

  /** If the next block of the list is smaller but large enough, and not black-listed, it can serve the request. */
  lemma BetterIsSuitable(cfg: Config, req: Request, s: State, n: nat, b: nat, next: nat)
    requires FreeAt(s.hdrs, b) && FreeAt(s.hdrs, next) && n <= |s.lists.freeBytes| && 0 < Needed(req)
    requires Needed(req) <= Size(s.hdrs[next]) < Size(s.hdrs[b])
    requires !GateClosed(cfg, s.heapSize, s.largeFree, s.lists.freeBytes, n)
    requires !BL.Listed(cfg.black, next, Needed(req))
    ensures Suitable(cfg, req, s, n, next)
  {
    hide GateClosed, Punt, Size, Blocks, Exempt;
    ShorterUnlisted(cfg.black, next, Needed(req), Effective(req));
    assert HasStart(cfg, req, next, Size(s.hdrs[next]));
  }

  lemma ShorterUnlisted(l: BL.Lists, h: nat, n: nat, m: nat)
    requires !BL.Listed(l, h, n) && m <= n
    ensures !BL.Listed(l, h, m)
  {
  }

  // ---------------------------------------------------------------- what an allocation did

  ghost function DroppedMap(dropped: set<nat>): map<nat, Hdr> {
    map d | d in dropped :: DROPPED
  }

  ghost function WithResult(used: map<nat, Hdr>, r: nat, h: Hdr): map<nat, Hdr> {
    if r == 0 then used else used[r := h]
  }

  /** From s the search has dropped the cells in `dropped`, and allocated the block r unless r is 0. Both were free;
      every block in use stays as it was; only black-listed cells are dropped; and a block is not allocated at a
      black-listed start, unless the black list does not matter to the request or the request is very large and there
      is much more room. */
  ghost predicate Allocated(cfg: Config, req: Request, s: State, s': State, r: nat, dropped: set<nat>) {
    && s'.owner.Keys == s.owner.Keys && s'.heapSize == s.heapSize
    && UsedOf(s'.hdrs) == WithResult(UsedOf(s.hdrs) + DroppedMap(dropped), r, Header(req))
    && (forall d :: d in dropped ==> FreeCell(s, d) && BL.Listed(cfg.black, d, 1))
    && (dropped != {} ==> Needed(req) == 1 && !Exempt(req) && !cfg.findLeak)
    && (r != 0 ==> forall x: nat :: r <= x < r + Needed(req) ==> FreeCell(s, x) && x !in dropped)
    && (r != 0 && !Exempt(req) && BL.Listed(cfg.black, r, Effective(req)) ==> Roomy(cfg, req, s, r))
  }

  /** The request is very large, and there is much more room behind it. */
  ghost predicate Roomy(cfg: Config, req: Request, s: State, r: nat) {
    && Needed(req) * HBLKSIZE > cfg.blLimit
    && forall x: nat :: r <= x && (x - r - Needed(req)) * HBLKSIZE <= cfg.blLimit ==> FreeCell(s, x)
  }

  lemma NothingDone(cfg: Config, req: Request, s: State)
    ensures Allocated(cfg, req, s, s, 0, {}) && Shrunk(s, s)
  {
    assert UsedOf(s.hdrs) + DroppedMap({}) == UsedOf(s.hdrs);
  }

  /** The black list matters: the request is not for uncollectable objects, nor for pointer-free ones in one or two
      heap blocks. */
  ghost predicate Picky(req: Request) {
    req.kind !in {2, 3} && !(req.kind == 0 && Blocks(req.words) <= 2)
  }

  /** What allocation avoids: where the black list matters and the request is not very large, no false pointer was
      seen to the start of the block and, from a stack, to any part of it, but for the parts behind its first heap
      block if the client keeps a pointer to that. */
  lemma AvoidsBlackList(cfg: Config, req: Request, s: State, s': State, r: nat, dropped: set<nat>, x: nat)
    requires Allocated(cfg, req, s, s', r, dropped) && r != 0 && Picky(req)
    requires 0 < Blocks(req.words) * HBLKSIZE <= cfg.blLimit
    requires x == r || (r < x < r + Blocks(req.words) && !req.ignoreOffPage)
    ensures !BL.OnNormalList(cfg.black, r) && !BL.OnStackList(cfg.black, x)
  {
  }

  /** When a list fails: no block on it that is large enough may be split now unless the black list matters, the
      request is not for a very large part of a much larger block, and every start in the block is listed. */
  lemma RefusedOnlyIf(cfg: Config, req: Request, s: State, n: nat, b: nat, t: nat)
    requires NoneSuitable(cfg, req, s, n) && n <= |s.lists.freeBytes| && b in s.lists.on && s.lists.on[b] == n
    requires FreeAt(s.hdrs, b) && b <= t && t + Blocks(req.words) <= b + Size(s.hdrs[b])
    requires Blocks(req.words) == Size(s.hdrs[b]) || !GateClosed(cfg, s.heapSize, s.largeFree, s.lists.freeBytes, n)
    ensures Picky(req)
    ensures Blocks(req.words) * HBLKSIZE <= cfg.blLimit ||
            (Size(s.hdrs[b]) - Blocks(req.words)) * HBLKSIZE <= cfg.blLimit
    ensures BL.Listed(cfg.black, t, if req.ignoreOffPage then 1 else Blocks(req.words))
  {
    assert !Suitable(cfg, req, s, n, b);
    if !BL.Listed(cfg.black, t, Effective(req)) {
      assert HasStart(cfg, req, b, Size(s.hdrs[b]));
    }
  }

  /** A block in use stays the owner of its cells. */
  lemma UsedStays(s: State, s': State, x: nat)
    requires Valid(s) && Valid(s') && s'.owner.Keys == s.owner.Keys
    requires forall b :: b in UsedOf(s.hdrs) ==> b in UsedOf(s'.hdrs) && UsedOf(s'.hdrs)[b] == UsedOf(s.hdrs)[b]
    ensures FreeCell(s', x) ==> FreeCell(s, x)
  {
    hide Size, Blocks, ListsOk, CountsOk, OnOk, Sized, Coalesced;
    if x in s.owner {
      assert OwnedOk(s.hdrs, s.owner, x);
      var q := s.owner[x];
      if s.hdrs[q].Used? {
        assert q in UsedOf(s.hdrs) && q in UsedOf(s'.hdrs);
        assert Owns(s'.hdrs, s'.owner, q);
        assert x in s'.owner && s'.owner[x] == q;
      }
    }
  }

  lemma DroppedIsUsed(s: State, d: nat)
    requires Valid(s) && d in UsedOf(s.hdrs)
    ensures !FreeCell(s, d)
  {
    hide Size, Blocks, ListsOk, CountsOk, OnOk, Sized, Coalesced;
    assert Owns(s.hdrs, s.owner, d);
    NextBlock(s.hdrs, s.owner, d);
    assert d in s.owner && s.owner[d] == d;
  }

  lemma UsedInTurn(used: map<nat, Hdr>, u1: map<nat, Hdr>, u2: map<nat, Hdr>, d1: set<nat>, d2: set<nat>, r: nat,
                   h: Hdr)
    requires u1 == used + DroppedMap(d1) && u2 == WithResult(u1 + DroppedMap(d2), r, h)
    ensures u2 == WithResult(used + DroppedMap(d1 + d2), r, h)
  {
    hide WithResult;
    assert used + DroppedMap(d1) + DroppedMap(d2) == used + DroppedMap(d1 + d2);
  }

  lemma AllocatedUsed(cfg: Config, req: Request, s: State, s1: State, s2: State, d1: set<nat>, r: nat, d2: set<nat>)
    requires Allocated(cfg, req, s, s1, 0, d1) && Allocated(cfg, req, s1, s2, r, d2)
    ensures UsedOf(s2.hdrs) == WithResult(UsedOf(s.hdrs) + DroppedMap(d1 + d2), r, Header(req))
  {
    hide UsedOf, FreeCell, Exempt, Header, DroppedMap;
    UsedInTurn(UsedOf(s.hdrs), UsedOf(s1.hdrs), UsedOf(s2.hdrs), d1, d2, r, Header(req));
  }

  lemma AllocatedTrans(cfg: Config, req: Request, s: State, s1: State, s2: State, d1: set<nat>, r: nat, d2: set<nat>)
    requires Valid(s) && Valid(s1) && Allocated(cfg, req, s, s1, 0, d1) && Allocated(cfg, req, s1, s2, r, d2)
    ensures Allocated(cfg, req, s, s2, r, d1 + d2)
  {
    hide Valid, UsedOf, FreeCell, Exempt, Header, Blocks;
    AllocatedUsed(cfg, req, s, s1, s2, d1, r, d2);
    forall d | d in d1
      ensures d !in UsedOf(s.hdrs)
    {
      if d in UsedOf(s.hdrs) {
        DroppedIsUsed(s, d);
      }
    }
    forall x: nat | FreeCell(s1, x)
      ensures FreeCell(s, x) && x !in d1
    {
      if x in d1 {
        DroppedIsUsed(s1, x);
      }
      UsedStays(s, s1, x);
    }
  }
}
