/** Object maps, which give for each byte offset in a block the displacement from the start of the object there,
    and GC_base, which recovers the object a pointer points into. Addresses are in bytes, words have four. */
module ObjMap {
  import opened Sizes
  import opened BlockLists
  import opened BlockTiling
  import opened HblkAlloc
  import opened HeaderIndex
  import opened Arithmetic

  const MAXOBJSZ := 512
  const OFFSET_TOO_BIG := 0xfe
  const OBJ_INVALID := 0xff
  const MAX_OFFSET := 0xfd
  const VALID_OFFSET_SZ := 2049

  /** The map entry for an object displacement in bytes. */
  function MapEntry(displ: nat): nat {
    if displ / 4 > MAX_OFFSET then OFFSET_TOO_BIG else displ / 4
  }

  /** The displacement, in words, of byte offset j from the start of its object; size 0 stands for large objects. */
  function Displacement(sz: nat, j: nat): nat {
    if sz == 0 then j / 4 else (j / 4) % sz
  }

  /** Every entry that is a displacement is the right one. Which entries are displacements depends on the offsets
      registered, and on when. */
  ghost predicate MapOk(sz: nat, m: seq<nat>) {
    |m| == HBLKSIZE && forall j :: 0 <= j < HBLKSIZE ==> m[j] <= MAX_OFFSET ==> m[j] == Displacement(sz, j)
  }

  /** The displacement of an offset is that of its remainder by the object size. */
  lemma ObjectOffset(sz: nat, j: nat)
    requires sz > 0
    ensures j % (4 * sz) < 4 * sz && Displacement(sz, j) == (j % (4 * sz)) / 4
  {
    var q, d := j / (4 * sz), j % (4 * sz);
    assert j == q * (4 * sz) + d;
    assert q * (4 * sz) == 4 * (q * sz);
    assert (4 * (q * sz) + d) / 4 == q * sz + d / 4;
    Remainder(q, sz, d / 4);
  }

  // ---------------------------------------------------------------- building the maps

  /** The entry GC_add_map_entry makes at offset j, given which displacements are valid. */
  function BuiltEntry(valid: seq<bool>, all: bool, sz: nat, j: nat): nat {
    if sz == 0 then (if OffsetValid(valid, all, j) then MapEntry(j) else OBJ_INVALID)
    else if j < HBLKSIZE / (4 * sz) * (4 * sz) && OffsetValid(valid, all, j % (4 * sz)) then MapEntry(j % (4 * sz))
    else OBJ_INVALID
  }

  /** OFFSET_VALID */
  predicate OffsetValid(valid: seq<bool>, all: bool, displ: nat) {
    all || (displ < |valid| && valid[displ])
  }

  ghost predicate Built(valid: seq<bool>, all: bool, sz: nat, m: seq<nat>) {
    |m| == HBLKSIZE && forall j :: 0 <= j < HBLKSIZE ==> m[j] == BuiltEntry(valid, all, sz, j)
  }

  lemma BuiltIsOk(valid: seq<bool>, all: bool, sz: nat, m: seq<nat>)
    requires Built(valid, all, sz, m)
    ensures MapOk(sz, m)
  {
    forall j | 0 <= j < HBLKSIZE && m[j] <= MAX_OFFSET
      ensures m[j] == Displacement(sz, j)
    {
      if sz > 0 {
        ObjectOffset(sz, j);
      }
    }
  }

  /** What the entries say: in an object that fits the block the entry is the displacement in words if the offset is
      registered, or a mark that it is too big to tell; everywhere else there is no object to point to. */
  lemma BuiltMeans(valid: seq<bool>, all: bool, sz: nat, m: seq<nat>, k: nat, d: nat)
    requires Built(valid, all, sz, m) && sz > 0 && d < 4 * sz
    requires k * (4 * sz) + d < HBLKSIZE
    ensures m[k * (4 * sz) + d] ==
              if k * (4 * sz) + 4 * sz > HBLKSIZE || !(all || (d < |valid| && valid[d])) then 0xff
              else if d < 1016 then d / 4 else 0xfe
  {
    var lb := 4 * sz;
    Remainder(k, lb, d);
    if k * lb + lb <= HBLKSIZE {
      EntryInObject(valid, all, sz, k, d);
    } else {
      assert (k + 1) * lb == k * lb + lb;
      Quotient(HBLKSIZE, lb, k);
    }
  }

  /** ... and for a large object. */
  lemma BuiltLarge(valid: seq<bool>, all: bool, m: seq<nat>, d: nat)
    requires Built(valid, all, 0, m) && d < HBLKSIZE
    ensures m[d] == if !(all || (d < |valid| && valid[d])) then 0xff else if d < 1016 then d / 4 else 0xfe
  {
  }

  /** The loop for large objects goes one step too far: it writes behind the map, at offset HBLKSIZE, exactly if that
      offset counts as valid. `valid` is the memory from GC_valid_offsets on. */
  method LargeMap(valid: seq<bool>, all: bool) returns (m: seq<nat>, stray: bool)
    ensures Built(valid, all, 0, m)
    ensures stray <==> OffsetValid(valid, all, HBLKSIZE)
  {
    m, stray := seq(HBLKSIZE, j => OBJ_INVALID), false;
    var displ := 0;
    while displ <= HBLKSIZE
      invariant displ <= HBLKSIZE + 1 && |m| == HBLKSIZE
      invariant forall j :: 0 <= j < HBLKSIZE ==> m[j] == if j < displ then BuiltEntry(valid, all, 0, j)
                else OBJ_INVALID
      invariant stray <==> displ > HBLKSIZE && OffsetValid(valid, all, HBLKSIZE)
    {
      if OffsetValid(valid, all, displ) {
        if displ < HBLKSIZE {
          m := m[displ := MapEntry(displ)];
        } else {
          stray := true;
        }
      }
      displ := displ + 1;
    }
  }

  method SmallMap(valid: seq<bool>, all: bool, sz: nat) returns (m: seq<nat>)
    requires sz > 0
    ensures Built(valid, all, sz, m)
  {
    hide MapEntry, OffsetValid;
    m := seq(HBLKSIZE, j => OBJ_INVALID);
    var lb := 4 * sz;
    var start := 0;
    ghost var q := 0;
    while start + lb <= HBLKSIZE
      invariant start == q * lb <= HBLKSIZE && |m| == HBLKSIZE
      invariant forall j :: 0 <= j < start ==> m[j] == BuiltEntry(valid, all, sz, j)
      invariant forall j :: start <= j < HBLKSIZE ==> m[j] == OBJ_INVALID
    {
      var displ := 0;
      while displ < lb
        invariant displ <= lb && |m| == HBLKSIZE
        invariant forall j :: 0 <= j < start + displ ==> m[j] == BuiltEntry(valid, all, sz, j)
        invariant forall j :: start + displ <= j < HBLKSIZE ==> m[j] == OBJ_INVALID
      {
        EntryInObject(valid, all, sz, q, displ);
        if OffsetValid(valid, all, displ) {
          m := m[start + displ := MapEntry(displ)];
        }
        displ := displ + 1;
      }
      start := start + lb;
      q := q + 1;
    }
    forall j: nat | start <= j < HBLKSIZE
      ensures BuiltEntry(valid, all, sz, j) == OBJ_INVALID
    {
      Quotient(HBLKSIZE, lb, q);
    }
  }

  lemma EntryInObject(valid: seq<bool>, all: bool, sz: nat, q: nat, displ: nat)
    requires sz > 0 && displ < 4 * sz && q * (4 * sz) + 4 * sz <= HBLKSIZE
    ensures BuiltEntry(valid, all, sz, q * (4 * sz) + displ) == if OffsetValid(valid, all, displ) then MapEntry(displ)
            else OBJ_INVALID
  {
    hide MapEntry, OffsetValid;
    var lb := 4 * sz;
    Remainder(q, lb, displ);
    assert (q + 1) * lb == q * lb + lb;
    MultiplesFit(HBLKSIZE, lb, q + 1);
  }

  // ---------------------------------------------------------------- registering displacements

  /** What GC_register_displacement_inner puts at offset j of an existing map. */
  function RegisteredEntry(sz: nat, offset: nat, j: nat, was: nat): nat {
    if (sz == 0 && j == offset) || (sz > 0 && offset < 4 * sz && j % (4 * sz) == offset) then MapEntry(offset) else was
  }

  ghost predicate Registered(sz: nat, offset: nat, m: seq<nat>, m': seq<nat>) {
    |m'| == |m| == HBLKSIZE && forall j :: 0 <= j < HBLKSIZE ==> m'[j] == RegisteredEntry(sz, offset, j, m[j])
  }

  lemma RegisteredIsOk(sz: nat, offset: nat, m: seq<nat>, m': seq<nat>)
    requires MapOk(sz, m) && Registered(sz, offset, m, m')
    ensures MapOk(sz, m')
  {
    forall j | 0 <= j < HBLKSIZE && m'[j] <= MAX_OFFSET
      ensures m'[j] == Displacement(sz, j)
    {
      if sz > 0 {
        ObjectOffset(sz, j);
      }
    }
  }

  method RegisterIn(sz: nat, offset: nat, m: seq<nat>) returns (m': seq<nat>)
    requires |m| == HBLKSIZE && offset < VALID_OFFSET_SZ
    ensures Registered(sz, offset, m, m')
  {
    hide MapEntry, RegisteredEntry;
    m' := m;
    LargeEntry(offset, m);
    UnchangedEntries(sz, offset, m);
    if sz == 0 {
      m' := m'[offset := MapEntry(offset)];
    } else {
      var lb := 4 * sz;
      if offset < lb {
        var j := offset;
        ghost var q := 0;
        while j < HBLKSIZE
          invariant j == q * lb + offset && |m'| == HBLKSIZE
          invariant forall i :: 0 <= i < HBLKSIZE ==> m'[i] == if i < j then RegisteredEntry(sz, offset, i, m[i])
                    else m[i]
          decreases HBLKSIZE - j
        {
          Remainder(q, lb, offset);
          m' := m'[j := MapEntry(offset)];
          forall i: nat | j <= i < j + lb && i < HBLKSIZE
            ensures m'[i] == RegisteredEntry(sz, offset, i, m[i])
          {
            RegisteredBetween(sz, offset, q, i, m[i]);
          }
          j := j + lb;
          q := q + 1;
        }
      }
    }
  }

  lemma LargeEntry(offset: nat, m: seq<nat>)
    ensures forall j :: 0 <= j < |m| ==> RegisteredEntry(0, offset, j, m[j]) == if j == offset then MapEntry(offset)
            else m[j]
  {
  }

  lemma UnchangedEntries(sz: nat, offset: nat, m: seq<nat>)
    ensures sz > 0 && offset < 4 * sz ==> forall j :: 0 <= j < |m| && j < offset ==>
            RegisteredEntry(sz, offset, j, m[j]) == m[j]
    ensures sz > 0 && offset >= 4 * sz ==> forall j :: 0 <= j < |m| ==> RegisteredEntry(sz, offset, j, m[j]) == m[j]
  {
    if sz > 0 && offset < 4 * sz {
      forall j: nat | j < offset
        ensures j % (4 * sz) == j
      {
        Remainder(0, 4 * sz, j);
      }
    }
  }

  lemma RegisteredBetween(sz: nat, offset: nat, q: nat, i: nat, was: nat)
    requires sz > 0 && offset < 4 * sz && q * (4 * sz) + offset <= i < q * (4 * sz) + offset + 4 * sz
    ensures RegisteredEntry(sz, offset, i, was) == if i == q * (4 * sz) + offset then MapEntry(offset) else was
  {
    Remainder(q, 4 * sz, offset);
    if i > q * (4 * sz) + offset {
      Between(q, 4 * sz, offset, i);
    }
  }

  lemma Between(q: nat, n: nat, r: nat, i: nat)
    requires r < n && q * n + r < i < q * n + r + n
    ensures i % n != r
  {
    if i < q * n + n {
      assert (q + 1) * n == q * n + n;
      Quotient(i, n, q);
    } else {
      assert (q + 2) * n == (q + 1) * n + n && (q + 1) * n == q * n + n;
      Quotient(i, n, q + 1);
    }
  }

  /** The tables GC_obj_map and GC_valid_offsets. */
  class Maps {
    const allInterior: bool
    var validOffsets: seq<bool>
    var maps: map<nat, seq<nat>>

    constructor (all: bool)
      ensures Valid() && maps == map[] && allInterior == all
    {
      allInterior := all;
      validOffsets := seq(VALID_OFFSET_SZ, i => false);
      maps := map[];
    }

    ghost predicate Valid()
      reads this
    {
      |validOffsets| == VALID_OFFSET_SZ && forall sz :: sz in maps ==> sz <= MAXOBJSZ && MapOk(sz, maps[sz])
    }

    /** GC_add_map_entry: a new map holds the displacement at every valid offset in an object that fits the block,
        and nothing in the fragment behind the last object. `behind` is what lies behind GC_valid_offsets, which is
        read for large objects; a byte behind the map is written exactly if all interior pointers are recognized,
        or the byte read for offset HBLKSIZE happens not to be zero. */
    method AddMapEntry(words: nat, behind: seq<bool>) returns (stray: bool)
      requires Valid()
      modifies this`maps
      ensures Valid() && MapIndex(words) in maps
      ensures maps == old(maps)[MapIndex(words) := maps[MapIndex(words)]]
      ensures MapIndex(words) in old(maps) ==> maps == old(maps)
      ensures MapIndex(words) !in old(maps) ==>
                Built(validOffsets + behind, allInterior, MapIndex(words), maps[MapIndex(words)])
      ensures stray <==>
                MapIndex(words) == 0 && 0 !in old(maps) && OffsetValid(validOffsets + behind, allInterior, HBLKSIZE)
    {
      var sz := MapIndex(words);
      stray := false;
      if sz in maps {
        return;
      }
      var valid := validOffsets + behind;
      var m;
      if sz == 0 {
        m, stray := LargeMap(valid, allInterior);
      } else {
        m := SmallMap(valid, allInterior, sz);
      }
      BuiltIsOk(valid, allInterior, sz, m);
      maps := maps[sz := m];
    }

    /** GC_register_displacement_inner. An offset beyond the table is the "bad argument" abort. */
    method RegisterDisplacement(offset: nat) returns (ok: bool)
      requires Valid()
      modifies this
      ensures Valid() && ok == (offset < VALID_OFFSET_SZ)
      ensures !ok ==> validOffsets == old(validOffsets) && maps == old(maps)
      ensures ok ==> validOffsets == old(validOffsets)[offset := true] && maps.Keys == old(maps).Keys
      ensures ok && !old(validOffsets)[offset] && !allInterior ==>
                forall sz :: sz in maps ==> Registered(sz, offset, old(maps)[sz], maps[sz])
      ensures ok && (old(validOffsets)[offset] || allInterior) ==> maps == old(maps)
    {
      if offset >= VALID_OFFSET_SZ {
        return false;
      }
      ok := true;
      if validOffsets[offset] {
        assert validOffsets == validOffsets[offset := true];
        return;
      }
      validOffsets := validOffsets[offset := true];
      if !allInterior {
        var i := 0;
        while i <= MAXOBJSZ
          invariant i <= MAXOBJSZ + 1 && Valid() && maps.Keys == old(maps).Keys
          invariant validOffsets == old(validOffsets)[offset := true]
          invariant forall sz :: sz in maps && sz < i ==> Registered(sz, offset, old(maps)[sz], maps[sz])
          invariant forall sz :: sz in maps && sz >= i ==> maps[sz] == old(maps)[sz]
        {
          if i in maps {
            var m := RegisterIn(i, offset, maps[i]);
            RegisteredIsOk(i, offset, maps[i], m);
            maps := maps[i := m];
          }
          i := i + 1;
        }
      }
    }
  }

  function MapIndex(words: nat): nat {
    if words > MAXOBJSZ then 0 else words
  }

  // ---------------------------------------------------------------- does the order of registering matter?

  /** Where the fragment behind the last object of n bytes starts. */
  function Tail(n: nat): nat
    requires n > 0
  {
    HBLKSIZE / n * n
  }

  /** Behind the last object there is no place for a pointer with this displacement. */
  predicate OrderIsFree(sz: nat, offset: nat) {
    sz == 0 || offset >= 4 * sz || Tail(4 * sz) + offset >= HBLKSIZE
  }

  lemma LastMultiple(n: nat, r: nat)
    requires n > 0 && r < n
    ensures (Tail(n) + r) % n == r
    ensures forall j: nat :: Tail(n) <= j < HBLKSIZE && j % n == r ==> j == Tail(n) + r
  {
    var q := HBLKSIZE / n;
    Remainder(q, n, r);
    forall j: nat | q * n <= j < HBLKSIZE && j % n == r
      ensures j == q * n + r
    {
      assert HBLKSIZE == q * n + HBLKSIZE % n;
      assert (q + 1) * n == q * n + n;
      Quotient(j, n, q);
    }
  }

  /** Offset j is behind the last object and has the displacement. */
  ghost predicate InFragment(sz: nat, offset: nat, j: nat) {
    sz > 0 && offset < 4 * sz && j >= Tail(4 * sz) && j % (4 * sz) == offset
  }

  lemma OrderAt(valid: seq<bool>, sz: nat, offset: nat, j: nat)
    requires offset < |valid| && !valid[offset] && j < HBLKSIZE
    ensures BuiltEntry(valid[offset := true], false, sz, j) == RegisteredEntry(sz, offset, j,
            BuiltEntry(valid, false, sz, j))
            <==> !InFragment(sz, offset, j)
  {
  }

  lemma FragmentIff(sz: nat, offset: nat) returns (j: nat)
    ensures OrderIsFree(sz, offset) ==> forall i: nat :: i < HBLKSIZE ==> !InFragment(sz, offset, i)
    ensures !OrderIsFree(sz, offset) ==> j < HBLKSIZE && InFragment(sz, offset, j)
  {
    j := 0;
    hide Tail;
    if sz > 0 && offset < 4 * sz {
      LastMultiple(4 * sz, offset);
      j := Tail(4 * sz) + offset;
    }
  }

  /** A map built before a displacement is registered and one built after it are the same exactly if no offset behind
      the last object has that displacement. */
  lemma RegisteringOrder(valid: seq<bool>, sz: nat, offset: nat, after: seq<nat>, before: seq<nat>,
                         registered: seq<nat>)
    requires offset < |valid| && !valid[offset] && Built(valid[offset := true], false, sz, after)
    requires Built(valid, false, sz, before) && Registered(sz, offset, before, registered)
    ensures after == registered <==> OrderIsFree(sz, offset)
  {
    hide BuiltEntry, RegisteredEntry, InFragment, OrderIsFree;
    forall j: nat | j < HBLKSIZE
      ensures after[j] == registered[j] <==> !InFragment(sz, offset, j)
    {
      OrderAt(valid, sz, offset, j);
    }
    var j := FragmentIff(sz, offset);
    if !OrderIsFree(sz, offset) {
      assert after[j] != registered[j];
    }
  }

  /** Objects of three words leave a fragment of one word, where displacement 0 shows the difference. */
  lemma RegisteringOrderMatters()
    ensures !OrderIsFree(3, 0) && OrderIsFree(3, 4) && OrderIsFree(4, 0)
  {
  }

  // ---------------------------------------------------------------- GC_base

  /** The offset of object k in a block of objects of sz words. */
  function Nth(k: nat, sz: nat): nat {
    k * (4 * sz)
  }

  /** Object k is the only object of a large block, or it fits a block of small ones. */
  predicate Fits(k: nat, sz: nat) {
    k == 0 || Nth(k, sz) + 4 * sz <= HBLKSIZE
  }

  lemma NthOf(w: nat, sz: nat)
    requires sz > 0
    ensures Nth(w / sz, sz) == 4 * (w - w % sz) && w % sz < sz
  {
    assert w == (w / sz) * sz + w % sz;
    assert (w / sz) * (4 * sz) == 4 * ((w / sz) * sz);
  }

  lemma NthUnique(d: int, sz: nat, k: nat, i: nat)
    requires Nth(k, sz) <= d < Nth(k, sz) + 4 * sz && Nth(i, sz) <= d < Nth(i, sz) + 4 * sz
    ensures i == k
  {
    assert (k - i) * (4 * sz) == Nth(k, sz) - Nth(i, sz);
    SmallMultiple(k - i, 4 * sz, Nth(k, sz) - Nth(i, sz));
  }

  lemma LargeIsAlone(k: nat, sz: nat)
    requires Fits(k, sz) && sz > MAXOBJSZ
    ensures k == 0
  {
    assert k >= 1 ==> Nth(k, sz) >= 4 * sz;
  }

  lemma NthZero(sz: nat)
    ensures Nth(0, sz) == 0
  {
  }

  /** Object k of used block b starts at o. */
  ghost predicate ObjectIn(hdrs: Hdrs, b: nat, k: nat, o: nat) {
    UsedAt(hdrs, b) && o == b * HBLKSIZE + Nth(k, hdrs[b].words) && Fits(k, hdrs[b].words)
  }

  ghost predicate Contains(hdrs: Hdrs, b: nat, k: nat, o: nat, p: nat) {
    ObjectIn(hdrs, b, k, o) && o <= p < o + 4 * hdrs[b].words
  }

  /** An object lies in the cells of its block. */
  lemma ObjectCell(hdrs: Hdrs, owner: map<nat, nat>, b: nat, k: nat, o: nat, p: nat)
    requires Tiling(hdrs, owner) && Contains(hdrs, b, k, o, p)
    ensures p / HBLKSIZE in owner && owner[p / HBLKSIZE] == b && b <= p / HBLKSIZE
  {
    hide Tiling, Nth;
    var sz := hdrs[b].words;
    NthZero(sz);
    assert sz <= Blocks(sz) * 1024;
    assert p < b * HBLKSIZE + Blocks(sz) * HBLKSIZE by {
      PositiveSize(hdrs, owner, b);
    }
    CellOfBlock(hdrs, owner, b, p / HBLKSIZE);
  }

  /** At most one object contains a given address. */
  lemma ObjectIsUnique(hdrs: Hdrs, owner: map<nat, nat>, b: nat, k: nat, o: nat, b': nat, k': nat, o': nat, p: nat)
    requires Tiling(hdrs, owner) && Contains(hdrs, b, k, o, p) && Contains(hdrs, b', k', o', p)
    ensures b == b' && o == o'
  {
    hide Tiling, Nth;
    ObjectCell(hdrs, owner, b, k, o, p);
    ObjectCell(hdrs, owner, b', k', o', p);
    NthUnique(p - b * HBLKSIZE, hdrs[b].words, k, k');
  }

  /** The maps GC_base needs are there. */
  ghost predicate HasMaps(hdrs: Hdrs, maps: map<nat, seq<nat>>) {
    forall b :: UsedAt(hdrs, b) ==> hdrs[b].words > 0 && MapIndex(hdrs[b].words) in maps
  }

  ghost predicate SameBlockAs(hdrs: Hdrs, owner: map<nat, nat>, x: nat, h: nat) {
    x in owner && h in owner && owner[h] == owner[x] && UsedAt(hdrs, owner[h])
  }

  lemma JumpOn(bis: Index, hdrs: Hdrs, owner: map<nat, nat>, x: nat, h: nat)
    requires Agrees(bis, hdrs, owner) && Tiling(hdrs, owner) && EntryAt(bis, h).Jump?
    requires (h == x || SameBlockAs(hdrs, owner, x, h))
    ensures 0 < EntryAt(bis, h).count <= h && SameBlockAs(hdrs, owner, x, h - EntryAt(bis, h).count)
    ensures !EntryAt(bis, h - EntryAt(bis, h).count).Nil?
  {
    hide Size, Tiling, EntryAt;
    JumpInside(bis, hdrs, owner, h);
    var h' := h - EntryAt(bis, h).count;
    SameOwner(hdrs, owner, h, h');
    assert EntryAt(bis, h') == Expected(hdrs, owner, h');
  }

  /** Where the jumps end is the block the address is in. */
  lemma HeadOwner(hdrs: Hdrs, owner: map<nat, nat>, x: nat, h: nat)
    requires Tiling(hdrs, owner) && h in hdrs && (h == x || SameBlockAs(hdrs, owner, x, h))
    ensures x in owner && owner[x] == h && x < h + Size(hdrs[h])
  {
    hide Size;
    assert Owns(hdrs, owner, h);
    assert h in owner && owner[h] == h;
    assert OwnedOk(hdrs, owner, x);
  }

  lemma NoObjectHere(bis: Index, hdrs: Hdrs, owner: map<nat, nat>, p: nat)
    requires Agrees(bis, hdrs, owner) && Tiling(hdrs, owner) && EntryAt(bis, p / HBLKSIZE).Nil?
    ensures forall b, k, o :: !Contains(hdrs, b, k, o, p)
  {
    hide Tiling, EntryAt;
    var x := p / HBLKSIZE;
    assert EntryAt(bis, x) == Expected(hdrs, owner, x);
    assert !(x in owner && owner[x] <= x && UsedAt(hdrs, owner[x]));
    forall b, k, o
      ensures !Contains(hdrs, b, k, o, p)
    {
      if Contains(hdrs, b, k, o, p) {
        ObjectCell(hdrs, owner, b, k, o, p);
      }
    }
  }

  lemma FreeHasNone(hdrs: Hdrs, owner: map<nat, nat>, p: nat, h: nat)
    requires Tiling(hdrs, owner) && FreeAt(hdrs, h) && p / HBLKSIZE in owner && owner[p / HBLKSIZE] == h
    ensures forall b, k, o :: !Contains(hdrs, b, k, o, p)
  {
    hide Tiling;
    forall b, k, o
      ensures !Contains(hdrs, b, k, o, p)
    {
      if Contains(hdrs, b, k, o, p) {
        ObjectCell(hdrs, owner, b, k, o, p);
      }
    }
  }

  lemma OnlyInBlock(hdrs: Hdrs, owner: map<nat, nat>, p: nat, h: nat)
    requires Tiling(hdrs, owner) && UsedAt(hdrs, h) && p / HBLKSIZE in owner && owner[p / HBLKSIZE] == h
    requires forall k: nat, o: nat :: !Contains(hdrs, h, k, o, p)
    ensures forall b, k, o :: !Contains(hdrs, b, k, o, p)
  {
    hide Tiling, Nth, Contains;
    forall b: nat, k: nat, o: nat
      ensures !Contains(hdrs, b, k, o, p)
    {
      if Contains(hdrs, b, k, o, p) {
        ObjectCell(hdrs, owner, b, k, o, p);
      }
    }
  }

  /** In a block of small objects, or in the first block of a large one: object number w / sz is the only candidate. */
  lemma InFirstBlock(hdrs: Hdrs, owner: map<nat, nat>, p: nat, h: nat, sz: nat, w: nat, k: nat, base: nat)
    requires Tiling(hdrs, owner) && UsedAt(hdrs, h) && hdrs[h].words == sz > 0 && p / HBLKSIZE == h && h in owner
    requires owner[h] == h
    requires w == (p - h * HBLKSIZE) / 4 && k == w / sz && base == h * HBLKSIZE + Nth(k, sz)
    ensures base <= p < base + 4 * sz
    ensures base + 4 * sz > (h + 1) * HBLKSIZE && sz <= 1024 ==> forall b, i, o :: !Contains(hdrs, b, i, o, p)
    ensures !(base + 4 * sz > (h + 1) * HBLKSIZE && sz <= 1024) ==> Contains(hdrs, h, k, base, p)
  {
    hide Tiling, Nth;
    NthOf(w, sz);
    NthZero(sz);
    if base + 4 * sz > (h + 1) * HBLKSIZE && sz <= 1024 {
      forall i: nat, o: nat
        ensures !Contains(hdrs, h, i, o, p)
      {
        if Contains(hdrs, h, i, o, p) {
          NthUnique(p - h * HBLKSIZE, sz, k, i);
        }
      }
      OnlyInBlock(hdrs, owner, p, h);
    }
  }

  /** A large object is the only one of its block. */
  lemma LargeObject(hdrs: Hdrs, owner: map<nat, nat>, p: nat, h: nat, sz: nat)
    requires Tiling(hdrs, owner) && UsedAt(hdrs, h) && hdrs[h].words == sz > MAXOBJSZ && p / HBLKSIZE in owner
    requires owner[p / HBLKSIZE] == h
    requires h <= p / HBLKSIZE
    ensures p >= h * HBLKSIZE + 4 * sz ==> forall b, i, o :: !Contains(hdrs, b, i, o, p)
    ensures p < h * HBLKSIZE + 4 * sz ==> Contains(hdrs, h, 0, h * HBLKSIZE, p)
  {
    hide Tiling, Nth;
    NthZero(sz);
    if p >= h * HBLKSIZE + 4 * sz {
      forall i: nat, o: nat
        ensures !Contains(hdrs, h, i, o, p)
      {
        if Contains(hdrs, h, i, o, p) {
          LargeIsAlone(i, sz);
        }
      }
      OnlyInBlock(hdrs, owner, p, h);
    }
  }

  /** GC_base: the start of the object that contains p, and 0 if there is none. */
  method Base(ix: Headers, tables: Maps, initialized: bool, p: nat) returns (r: nat)
    requires ix.Valid() && tables.Valid() && HasMaps(ix.hdrs, tables.maps)
    ensures !initialized ==> r == 0
    ensures initialized && r != 0 ==> exists b, k :: Contains(ix.hdrs, b, k, r, p)
    ensures initialized && r == 0 ==> forall b, k, o :: !Contains(ix.hdrs, b, k, o, p)
  {
    hide LinksOk, Tiling, Agrees, EntryAt, Contains, MapOk, Size, SameBlockAs;
    if !initialized {
      return 0;
    }
    var x := p / HBLKSIZE;
    var h := x;
    r := p;
    if EntryAt(ix.bis, h).Nil? {
      NoObjectHere(ix.bis, ix.hdrs, ix.owner, p);
      return 0;
    }
    while EntryAt(ix.bis, h).Jump?
      invariant h <= x && (if h == x then r == p else r == h * HBLKSIZE)
      invariant !EntryAt(ix.bis, h).Nil? && (h == x || SameBlockAs(ix.hdrs, ix.owner, x, h))
      decreases h
    {
      JumpOn(ix.bis, ix.hdrs, ix.owner, x, h);
      h := h - EntryAt(ix.bis, h).count;
      r := h * HBLKSIZE;
    }
    HeadIff(ix.bis, ix.hdrs, ix.owner, h);
    HeadOwner(ix.hdrs, ix.owner, x, h);
    if EntryAt(ix.bis, h).h.Free? {
      FreeHasNone(ix.hdrs, ix.owner, p, h);
      return 0;
    }
    var sz := EntryAt(ix.bis, h).h.words;
    assert UsedAt(ix.hdrs, h);
    r := BaseInBlock(ix.hdrs, ix.owner, tables.maps[MapIndex(sz)], p, h, sz, if h == x then p else h * HBLKSIZE);
  }

  /** The last part of GC_base, in a used block of objects of sz words at h with map m; q is p, or the start of the
      block if p is not in its first cell. */
  method BaseInBlock(ghost hdrs: Hdrs, ghost owner: map<nat, nat>, m: seq<nat>, p: nat, h: nat, sz: nat,
                     q: nat) returns (r: nat)
    requires Tiling(hdrs, owner) && MapOk(MapIndex(sz), m) && UsedAt(hdrs, h) && hdrs[h].words == sz > 0
    requires p / HBLKSIZE in owner && owner[p / HBLKSIZE] == h <= p / HBLKSIZE < h + Size(hdrs[h])
    requires q == if h == p / HBLKSIZE then p else h * HBLKSIZE
    ensures r != 0 ==> exists k :: Contains(hdrs, h, k, r, p)
    ensures r == 0 ==> forall b, k, o :: !Contains(hdrs, b, k, o, p)
  {
    hide Tiling, Contains, Size, Displacement, InObject, MapOk;
    r := q - q % 4;
    Aligned(h, q);
    var offset := r % HBLKSIZE;
    MapLength(m, sz);
    var e := m[offset];
    EntryValue(m, sz, offset);
    if e > MAX_OFFSET {
      e := InObject(offset, sz);
    }
    ghost var base := BaseIsRight(hdrs, owner, p, h, sz, r, offset, e);
    r := r - 4 * e;
    var limit := r + 4 * sz;
    if limit > (h + 1) * HBLKSIZE && sz <= 1024 {
      return 0;
    }
    if p >= limit {
      return 0;
    }
  }

  /** The displacement, in words, GC_base computes when the map does not tell it. */
  function InObject(offset: nat, sz: nat): nat
    requires sz > 0
  {
    (offset / 4) % sz
  }

  lemma EntryValue(m: seq<nat>, sz: nat, offset: nat)
    requires MapOk(MapIndex(sz), m) && sz > 0 && offset < |m|
    ensures m[offset] <= MAX_OFFSET ==> m[offset] == InObject(offset, sz) || (sz > MAXOBJSZ && m[offset] == offset / 4)
  {
  }

  lemma MapLength(m: seq<nat>, sz: nat)
    requires MapOk(MapIndex(sz), m)
    ensures |m| == HBLKSIZE
  {
  }

  lemma Aligned(h: nat, q: nat)
    ensures q == h * HBLKSIZE ==> q % 4 == 0
  {
  }

  lemma BaseIsRight(hdrs: Hdrs, owner: map<nat, nat>, p: nat, h: nat, sz: nat, r: nat, offset: nat,
                    e: nat) returns (base: nat)
    requires Tiling(hdrs, owner) && UsedAt(hdrs, h) && hdrs[h].words == sz > 0
    requires p / HBLKSIZE in owner && owner[p / HBLKSIZE] == h <= p / HBLKSIZE < h + Size(hdrs[h])
    requires r == (if h == p / HBLKSIZE then p - p % 4 else h * HBLKSIZE) && offset == r % HBLKSIZE
    requires e == InObject(offset, sz) || (sz > MAXOBJSZ && e == offset / 4)
    ensures 4 * e <= r && base == r - 4 * e > 0
    ensures (base + 4 * sz > (h + 1) * HBLKSIZE && sz <= 1024) || p >= base + 4 * sz ==>
            forall b, k, o :: !Contains(hdrs, b, k, o, p)
    ensures !(base + 4 * sz > (h + 1) * HBLKSIZE && sz <= 1024) && p < base + 4 * sz ==>
            exists k :: Contains(hdrs, h, k, base, p)
  {
    hide Tiling, Contains, Nth, Size;
    var w := offset / 4;
    InWords(p, h, r, offset);
    if e == w && sz > MAXOBJSZ {
      base := h * HBLKSIZE;
      PositiveSize(hdrs, owner, h);
      LargeObject(hdrs, owner, p, h, sz);
    } else {
      OneBlock(hdrs, h, p / HBLKSIZE, w, sz, e);
      base := BaseInFirst(hdrs, owner, p, h, sz, w, e);
    }
  }

  lemma BaseInFirst(hdrs: Hdrs, owner: map<nat, nat>, p: nat, h: nat, sz: nat, w: nat, e: nat) returns (base: nat)
    requires Tiling(hdrs, owner) && UsedAt(hdrs, h) && hdrs[h].words == sz > 0
    requires p / HBLKSIZE == h && h in owner && owner[h] == h && w == (p - h * HBLKSIZE) / 4 && e == w % sz
    ensures e <= w && base == h * HBLKSIZE + 4 * w - 4 * e > 0 && p < base + 4 * sz
    ensures base + 4 * sz > (h + 1) * HBLKSIZE && sz <= 1024 ==> forall b, k, o :: !Contains(hdrs, b, k, o, p)
    ensures !(base + 4 * sz > (h + 1) * HBLKSIZE && sz <= 1024) ==> exists k :: Contains(hdrs, h, k, base, p)
  {
    hide Tiling, Contains, Nth, Size;
    var k := w / sz;
    base := h * HBLKSIZE + Nth(k, sz);
    NthOf(w, sz);
    PositiveSize(hdrs, owner, h);
    InFirstBlock(hdrs, owner, p, h, sz, w, k, base);
  }

  lemma InWords(p: nat, h: nat, r: nat, offset: nat)
    requires r == (if h == p / HBLKSIZE then p - p % 4 else h * HBLKSIZE) && offset == r % HBLKSIZE
    ensures r == h * HBLKSIZE + offset && offset == 4 * (offset / 4)
    ensures h == p / HBLKSIZE ==> offset / 4 == (p - h * HBLKSIZE) / 4
    ensures h != p / HBLKSIZE ==> offset == 0
  {
    if h == p / HBLKSIZE {
      var m := p % HBLKSIZE;
      assert p == h * HBLKSIZE + m && p % 4 == m % 4;
      Remainder(h, HBLKSIZE, m - m % 4);
    } else {
      Remainder(h, HBLKSIZE, 0);
    }
  }

  /** An address in a later block is in a large object, and then its displacement is that of the block's start. */
  lemma OneBlock(hdrs: Hdrs, h: nat, x: nat, w: nat, sz: nat, e: nat)
    requires UsedAt(hdrs, h) && hdrs[h].words == sz > 0 && h <= x < h + Size(hdrs[h]) && (h != x ==> w == 0)
    requires e == w % sz && !(e == w && sz > MAXOBJSZ)
    ensures h == x
  {
  }
}
