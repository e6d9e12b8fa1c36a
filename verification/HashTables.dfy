/** The chained hash tables of the disappearing links and of the finalizable objects. A chain is the sequence of its
    entries from the head on. */
module HashTables {
  import opened Options
  import opened Arithmetic

  datatype Item<V> = Item(key: nat, val: V)

  datatype Outcome = Aborted | Replaced | Added | NoMemory

  /** What unregistering comes to; NoTable stands for the use of a table that was never set up. */
  datatype Removal = Removed | NotFound | NoTable

  const ALIGNMENT := 4

  function Pow2(n: nat): (r: nat)
    ensures r > 0
  {
    if n == 0 then 1 else 2 * Pow2(n - 1)
  }

  /** Exclusive or, bit by bit. */
  function Xor(a: nat, b: nat): nat {
    if a == 0 && b == 0 then 0 else (if a % 2 == b % 2 then 0 else 1) + 2 * Xor(a / 2, b / 2)
  }

  /** Masking with size - 1 is the remainder by size. */
  function Masked(x: nat, size: nat): (r: nat)
    requires size > 0
    ensures r < size
  {
    x % size
  }

  function ShiftRight(x: nat, n: nat): nat {
    if n == 0 then x else ShiftRight(x / 2, n - 1)
  }

  /** HASH2 */
  function Hash(key: nat, log: nat): (r: nat)
    ensures r < Pow2(log)
  {
    Masked(Xor(ShiftRight(key, 3), ShiftRight(key, 3 + log)), Pow2(log))
  }

  /** The low bits of an exclusive or with the same number determine the low bits. */
  lemma {:induction false} XorCancels(a: nat, b: nat, c: nat, n: nat)
    requires Xor(a, c) % Pow2(n) == Xor(b, c) % Pow2(n)
    ensures a % Pow2(n) == b % Pow2(n)
  {
    if n > 0 {
      var p := Pow2(n - 1);
      LowBits(Xor(a, c), p);
      LowBits(Xor(b, c), p);
      LowBits(a, p);
      LowBits(b, p);
      XorBits(a, c);
      XorBits(b, c);
      XorCancels(a / 2, b / 2, c / 2, n - 1);
    }
  }

  lemma XorBits(a: nat, b: nat)
    ensures Xor(a, b) % 2 == (if a % 2 == b % 2 then 0 else 1) && Xor(a, b) / 2 == Xor(a / 2, b / 2)
  {
  }

  lemma LowBits(x: nat, p: nat)
    requires p > 0
    ensures x % (2 * p) == 2 * ((x / 2) % p) + x % 2
  {
    var q, r := (x / 2) / p, (x / 2) % p;
    assert x / 2 == q * p + r;
    assert x == q * (2 * p) + (2 * r + x % 2);
    Remainder(q, 2 * p, 2 * r + x % 2);
  }

  lemma {:induction false} ShiftIsDivision(x: nat, n: nat)
    ensures ShiftRight(x, n) == x / Pow2(n)
  {
    if n > 0 {
      ShiftIsDivision(x / 2, n - 1);
      HalfThen(x, Pow2(n - 1));
    }
  }

  lemma HalfThen(x: nat, p: nat)
    requires p > 0
    ensures (x / 2) / p == x / (2 * p)
  {
    var q, r := (x / 2) / p, (x / 2) % p;
    assert x / 2 == q * p + r;
    assert x == q * (2 * p) + (2 * r + x % 2);
    assert (q + 1) * (2 * p) == q * (2 * p) + 2 * p;
    Quotient(x, 2 * p, q);
  }

  lemma {:induction false} ShiftTwice(x: nat, m: nat, n: nat)
    ensures ShiftRight(x, m + n) == ShiftRight(ShiftRight(x, m), n)
  {
    if m > 0 {
      ShiftTwice(x / 2, m - 1, n);
    }
  }

  /** HASH2 in terms of division. */
  lemma HashIs(key: nat, log: nat)
    ensures Hash(key, log) == Xor(key / 8, Quot(key / 8, Pow2(log))) % Pow2(log)
  {
    hide Xor, Pow2;
    ShiftThree(key);
    ShiftTwice(key, 3, log);
    ShiftIsDivision(key / 8, log);
  }

  function Quot(x: nat, p: nat): nat
    requires p > 0
  {
    x / p
  }

  lemma ShiftThree(x: nat)
    ensures ShiftRight(x, 3) == x / 8
  {
    ShiftTwice(x, 1, 2);
    ShiftTwice(x / 2, 1, 1);
  }

  /** Keys eight bytes or more apart, in the same aligned stretch of eight bytes for each chain, never share a chain. */
  lemma HashSpreads(a: nat, b: nat, log: nat)
    requires Quot(a / 8, Pow2(log)) == Quot(b / 8, Pow2(log)) && Hash(a, log) == Hash(b, log)
    ensures a / 8 == b / 8
  {
    hide Xor, Pow2, Hash;
    HashIs(a, log);
    HashIs(b, log);
    XorCancels(a / 8, b / 8, Quot(a / 8, Pow2(log)), log);
    SameParts(a / 8, b / 8, Pow2(log));
  }

  lemma SameParts(x: nat, y: nat, p: nat)
    requires p > 0 && x / p == y / p && x % p == y % p
    ensures x == y
  {
    assert x == x / p * p + x % p;
    assert y == y / p * p + y % p;
  }

  // ---------------------------------------------------------------- one chain

  ghost predicate HasKey<V>(chain: seq<Item<V>>, key: nat) {
    exists i :: 0 <= i < |chain| && chain[i].key == key
  }

  ghost predicate KeysDiffer<V>(chain: seq<Item<V>>) {
    forall i, j :: 0 <= i < j < |chain| ==> chain[i].key != chain[j].key
  }

  /** The search loop of the registration functions. */
  method Find<V>(chain: seq<Item<V>>, key: nat) returns (i: nat)
    ensures i <= |chain| && (i < |chain| ==> chain[i].key == key) && (i == |chain| ==> !HasKey(chain, key))
  {
    i := 0;
    while i < |chain|
      invariant i <= |chain| && forall j :: 0 <= j < i ==> chain[j].key != key
    {
      if chain[i].key == key {
        return;
      }
      i := i + 1;
    }
  }

  // ---------------------------------------------------------------- tables and the maps they stand for

  /** Every entry is in the chain for its key and holds the map's value for it. */
  ghost predicate ChainOk<V>(chain: seq<Item<V>>, b: nat, log: nat, contents: map<nat, V>) {
    && (forall i :: 0 <= i < |chain| ==>
          Hash(chain[i].key, log) == b && chain[i].key in contents && contents[chain[i].key] == chain[i].val)
    && KeysDiffer(chain)
  }

  /** The table holds exactly the map, each key once. */
  ghost predicate TableOk<V>(table: seq<seq<Item<V>>>, log: nat, contents: map<nat, V>) {
    && |table| == Pow2(log)
    && (forall b :: 0 <= b < |table| ==> ChainOk(table[b], b, log, contents))
    && (forall k :: k in contents ==> HasKey(table[Hash(k, log)], k))
  }

  lemma PrependOk<V>(table: seq<seq<Item<V>>>, log: nat, contents: map<nat, V>, key: nat, val: V)
    requires TableOk(table, log, contents) && key !in contents
    ensures TableOk(table[Hash(key, log) := [Item(key, val)] + table[Hash(key, log)]], log, contents[key := val])
  {
    var h := Hash(key, log);
    var c := [Item(key, val)] + table[h];
    var t, m := table[h := c], contents[key := val];
    forall b | 0 <= b < |t|
      ensures ChainOk(t[b], b, log, m)
    {
      assert ChainOk(table[b], b, log, contents);
      if b == h {
        assert forall i :: 0 < i < |c| ==> c[i] == table[h][i - 1];
      }
    }
    forall k | k in m
      ensures HasKey(t[Hash(k, log)], k)
    {
      if k == key {
        assert c[0].key == key;
      } else {
        assert HasKey(table[Hash(k, log)], k);
        var i :| 0 <= i < |table[Hash(k, log)]| && table[Hash(k, log)][i].key == k;
        if Hash(k, log) == h {
          assert c[i + 1].key == k;
        }
      }
    }
  }

  lemma ReplaceOk<V>(table: seq<seq<Item<V>>>, log: nat, contents: map<nat, V>, key: nat, i: nat, val: V)
    requires TableOk(table, log, contents) && i < |table[Hash(key, log)]| && table[Hash(key, log)][i].key == key
    ensures key in contents && contents[key] == table[Hash(key, log)][i].val
    ensures var h := Hash(key, log); TableOk(table[h := table[h][i := Item(key, val)]], log, contents[key := val])
  {
    var h := Hash(key, log);
    var c := table[h][i := Item(key, val)];
    var t, m := table[h := c], contents[key := val];
    assert ChainOk(table[h], h, log, contents);
    forall b | 0 <= b < |t|
      ensures ChainOk(t[b], b, log, m)
    {
      assert ChainOk(table[b], b, log, contents);
    }
    forall k | k in m
      ensures HasKey(t[Hash(k, log)], k)
    {
      assert HasKey(table[Hash(k, log)], k);
      var j :| 0 <= j < |table[Hash(k, log)]| && table[Hash(k, log)][j].key == k;
      assert t[Hash(k, log)][j].key == k;
    }
  }

  lemma DeleteOk<V>(table: seq<seq<Item<V>>>, log: nat, contents: map<nat, V>, key: nat, i: nat)
    requires TableOk(table, log, contents) && i < |table[Hash(key, log)]| && table[Hash(key, log)][i].key == key
    ensures key in contents && contents[key] == table[Hash(key, log)][i].val
    ensures var h := Hash(key, log); TableOk(table[h := table[h][..i] + table[h][i + 1..]], log, contents - {key})
  {
    hide Hash, Pow2;
    assert Hash(key, log) < |table|;
    var h := Hash(key, log);
    var c := table[h][..i] + table[h][i + 1..];
    var t, m := table[h := c], contents - {key};
    assert ChainOk(table[h], h, log, contents);
    assert forall j :: 0 <= j < |c| ==> c[j] == table[h][if j < i then j else j + 1];
    forall b | 0 <= b < |t|
      ensures ChainOk(t[b], b, log, m)
    {
      assert ChainOk(table[b], b, log, contents);
    }
    forall k | k in m
      ensures HasKey(t[Hash(k, log)], k)
    {
      assert HasKey(table[Hash(k, log)], k);
      var j :| 0 <= j < |table[Hash(k, log)]| && table[Hash(k, log)][j].key == k;
      if Hash(k, log) == h {
        assert c[if j < i then j else j - 1].key == k;
      }
    }
  }

  /** The entries whose key is not in `drop`. */
  function Survivors<V>(chain: seq<Item<V>>, drop: set<nat>): (r: seq<Item<V>>)
    ensures |r| <= |chain|
  {
    if chain == [] then []
    else
      var r := Survivors(chain[..|chain| - 1], drop);
      if chain[|chain| - 1].key in drop then r else r + [chain[|chain| - 1]]
  }

  lemma {:induction false} SurvivorsConcat<V>(a: seq<Item<V>>, b: seq<Item<V>>, drop: set<nat>)
    ensures Survivors(a + b, drop) == Survivors(a, drop) + Survivors(b, drop)
  {
    if b == [] {
      assert a + b == a;
    } else {
      var n := |b| - 1;
      assert (a + b)[..|a + b| - 1] == a + b[..n];
      SurvivorsConcat(a, b[..n], drop);
    }
  }

  /** All entries, chain after chain. */
  function Flat<V>(table: seq<seq<Item<V>>>): seq<Item<V>> {
    if table == [] then [] else Flat(table[..|table| - 1]) + table[|table| - 1]
  }

  lemma {:induction false} FlatSurvivors<V>(table: seq<seq<Item<V>>>, left: seq<seq<Item<V>>>, drop: set<nat>)
    requires |left| == |table| && forall b :: 0 <= b < |table| ==> left[b] == Survivors(table[b], drop)
    ensures Flat(left) == Survivors(Flat(table), drop)
  {
    if table != [] {
      var n := |table| - 1;
      FlatSurvivors(table[..n], left[..n], drop);
      SurvivorsConcat(Flat(table[..n]), table[n], drop);
    }
  }

  ghost function Dropped<V>(chain: seq<Item<V>>, drop: set<nat>): set<nat> {
    set j | 0 <= j < |chain| && chain[j].key in drop :: chain[j].key
  }

  /** The walk along a chain, with the first p entries of it done. */
  lemma WalkStep<V>(c: seq<Item<V>>, p: nat, drop: set<nat>)
    requires p < |c|
    ensures var pre, chain := Survivors(c[..p], drop), Survivors(c[..p], drop) + c[p..];
            && chain[|pre|] == c[p]
            && if c[p].key in drop then
                 && Survivors(c[..p + 1], drop) == pre &&
                   Dropped(c[..p + 1], drop) == Dropped(c[..p], drop) + {c[p].key}
                 && chain[..|pre|] + chain[|pre| + 1..] == pre + c[p + 1..]
               else
                 && Survivors(c[..p + 1], drop) == pre + [c[p]] && Dropped(c[..p + 1], drop) == Dropped(c[..p], drop)
                 && chain == pre + [c[p]] + c[p + 1..]
  {
    assert c[..p + 1] == c[..p] + [c[p]] && c[..p + 1][..p] == c[..p];
  }

  lemma WalkStart<V>(c: seq<Item<V>>, drop: set<nat>)
    ensures Survivors(c[..0], drop) == [] && Dropped(c[..0], drop) == {} && [] + c[0..] == c
  {
  }

  lemma InChain<V>(table: seq<seq<Item<V>>>, log: int, contents: map<nat, V>, i: nat, j: nat)
    requires log >= 0 && TableOk(table, log, contents) && i < |table| && j < |table[i]|
    ensures Hash(table[i][j].key, log) == i
  {
    assert ChainOk(table[i], i, log, contents);
  }

  lemma DroppedHere<V>(table: seq<seq<Item<V>>>, log: int, contents: map<nat, V>, i: nat, drop: set<nat>)
    requires log >= 0 && TableOk(table, log, contents) && i < |table|
    ensures forall k :: k in contents && k in drop && Hash(k, log) == i ==> k in Dropped(table[i], drop)
  {
    forall k | k in contents && k in drop && Hash(k, log) == i
      ensures k in Dropped(table[i], drop)
    {
      assert HasKey(table[i], k);
    }
  }

  lemma AllDropped<V>(table: seq<seq<Item<V>>>, log: int, contents: map<nat, V>, left: map<nat, V>, drop: set<nat>,
                      gone: set<nat>)
    requires log >= -1 && (log == -1 ==> contents == map[]) && (log >= 0 ==> TableOk(table, log, contents))
    requires gone <= drop && left == contents - gone
    requires log >= 0 ==> forall k :: k in contents && k in drop && Hash(k, log) < |table| ==> k in gone
    ensures left == contents - drop
  {
  }

  lemma AbsentOk<V>(table: seq<seq<Item<V>>>, log: nat, contents: map<nat, V>, key: nat)
    requires TableOk(table, log, contents) && !HasKey(table[Hash(key, log)], key)
    ensures key !in contents
  {
  }

  // ---------------------------------------------------------------- growing

  /** The part of a map whose keys are in the chains below i, or among the first j entries of chain i. */
  ghost predicate Moved<V>(table: seq<seq<Item<V>>>, log: nat, contents: map<nat, V>, done: map<nat, V>, i: nat, j: nat)
    requires i < |table| ==> j <= |table[i]|
  {
    && (forall k :: k in done ==> k in contents && done[k] == contents[k])
    && (forall k :: k in contents ==>
      (k in done <==> Hash(k, log) < i || (i < |table| && Hash(k, log) == i && HasKey(table[i][..j], k))))
  }

  lemma MoveOne<V>(table: seq<seq<Item<V>>>, log: nat, contents: map<nat, V>, done: map<nat, V>, i: nat, j: nat)
    requires TableOk(table, log, contents) && i < |table| && j < |table[i]| && Moved(table, log, contents, done, i, j)
    ensures table[i][j].key !in done && Moved(table, log, contents, done[table[i][j].key := table[i][j].val], i, j + 1)
  {
    var it := table[i][j];
    assert ChainOk(table[i], i, log, contents);
    assert table[i][..j + 1][j] == it;
    forall k | k in contents && Hash(k, log) == i
      ensures HasKey(table[i][..j + 1], k) <==> HasKey(table[i][..j], k) || k == it.key
    {
      if HasKey(table[i][..j], k) {
        var m :| 0 <= m < j && table[i][m].key == k;
        assert table[i][..j + 1][m].key == k;
      }
      if HasKey(table[i][..j + 1], k) && k != it.key {
        var m :| 0 <= m < |table[i][..j + 1]| && table[i][..j + 1][m].key == k;
        assert table[i][..j][m].key == k;
      }
    }
  }

  lemma NextChain<V>(table: seq<seq<Item<V>>>, log: nat, contents: map<nat, V>, done: map<nat, V>, i: nat)
    requires TableOk(table, log, contents) && i < |table| && Moved(table, log, contents, done, i, |table[i]|)
    ensures Moved(table, log, contents, done, i + 1, 0)
  {
    assert table[i][..|table[i]|] == table[i];
  }

  lemma AllMoved<V>(table: seq<seq<Item<V>>>, log: nat, contents: map<nat, V>, done: map<nat, V>)
    requires TableOk(table, log, contents) && Moved(table, log, contents, done, |table|, 0)
    ensures done == contents
  {
    forall k | k in contents
      ensures k in done
    {
      assert Hash(k, log) < |table|;
    }
  }

  lemma EmptyTable<V>(table: seq<seq<Item<V>>>, log: nat)
    requires |table| == Pow2(log) && forall b :: 0 <= b < |table| ==> table[b] == []
    ensures TableOk(table, log, map[])
  {
  }

  /** A hash table; `log` is -1 as long as it has no chains. */
  class Table<V> {
    var log: int
    var table: seq<seq<Item<V>>>
    var entries: nat
    ghost var contents: map<nat, V>

    ghost predicate Valid()
      reads this
    {
      && entries == |contents| && log >= -1
      && (log == -1 ==> contents == map[] && table == [])
      && (log >= 0 ==> TableOk(table, log, contents))
    }

    ghost function Size(): nat
      reads this
    {
      if log < 0 then 0 else Pow2(log)
    }

    constructor ()
      ensures Valid() && contents == map[] && log == -1
    {
      log, table, entries, contents := -1, [], 0, map[];
    }

    /** GC_grow_table: doubles the number of chains, and does nothing if there is no memory for them. */
    method Grow(enough: bool)
      requires Valid()
      modifies this`log, this`table
      ensures Valid() && contents == old(contents)
      ensures log == old(log) + if enough then 1 else 0
    {
      if !enough {
        return;
      }
      hide Hash, Pow2;
      var newLog: nat := log + 1;
      var newTable: seq<seq<Item<V>>> := seq(Pow2(newLog), b => []);
      EmptyTable(newTable, newLog);
      if log >= 0 {
        newTable := Rehash(newLog, newTable);
      }
      log, table := newLog, newTable;
    }

    /** The loops of GC_grow_table, over the old chains. */
    method Rehash(newLog: nat, empty: seq<seq<Item<V>>>) returns (newTable: seq<seq<Item<V>>>)
      requires Valid() && log >= 0 && TableOk(empty, newLog, map[])
      ensures TableOk(newTable, newLog, contents)
    {
      hide Hash, Pow2, TableOk;
      newTable := empty;
      ghost var done: map<nat, V> := map[];
      NothingMoved(table, log, contents);
      var i := 0;
      while i < |table|
        invariant i <= |table| && Moved(table, log, contents, done, i, 0) && TableOk(newTable, newLog, done)
      {
        var j := 0;
        while j < |table[i]|
          invariant j <= |table[i]| && Moved(table, log, contents, done, i, j) && TableOk(newTable, newLog, done)
        {
          var it := table[i][j];
          MoveOne(table, log, contents, done, i, j);
          PrependOk(newTable, newLog, done, it.key, it.val);
          ChainsOf(newTable, newLog, done, it.key);
          newTable := newTable[Hash(it.key, newLog) := [it] + newTable[Hash(it.key, newLog)]];
          done := done[it.key := it.val];
          j := j + 1;
        }
        NextChain(table, log, contents, done, i);
        i := i + 1;
      }
      AllMoved(table, log, contents, done);
    }

    /** The test for growing that starts every registration. */
    method GrowIfFull(enough: bool)
      requires Valid() && (log == -1 ==> enough)
      modifies this`log, this`table
      ensures Valid() && log >= 0 && contents == old(contents)
      ensures log == old(log) + if enough && old(entries > Size() || log == -1) then 1 else 0
    {
      if log == -1 || entries > Pow2(log) {
        Grow(enough);
      }
    }

    /** The entry for a key, found at position i of its chain, gets a new value. */
    method SetAt(key: nat, i: nat, val: V)
      requires Valid() && log >= 0 && i < |table[Hash(key, log)]| && table[Hash(key, log)][i].key == key
      modifies this`table, this`contents
      ensures Valid() && key in old(contents) && old(contents)[key] == old(table)[Hash(key, log)][i].val
      ensures contents == old(contents)[key := val]
    {
      hide TableOk, Hash;
      ChainsOf(table, log, contents, key);
      ReplaceOk(table, log, contents, key, i, val);
      var index := Hash(key, log);
      table := table[index := table[index][i := Item(key, val)]];
      contents := contents[key := val];
    }

    /** The entry for a key, found at position i of its chain, is unlinked. */
    method DeleteAt(key: nat, i: nat)
      requires Valid() && log >= 0 && i < |table[Hash(key, log)]| && table[Hash(key, log)][i].key == key
      modifies this`table, this`contents, this`entries
      ensures Valid() && key in old(contents) && old(contents)[key] == old(table)[Hash(key, log)][i].val
      ensures contents == old(contents) - {key} && entries == old(entries) - 1
      ensures var h := Hash(key, log); table == old(table)[h := old(table)[h][..i] + old(table)[h][i + 1..]]
    {
      hide TableOk, Hash;
      ChainsOf(table, log, contents, key);
      DeleteOk(table, log, contents, key, i);
      var index := Hash(key, log);
      table := table[index := table[index][..i] + table[index][i + 1..]];
      contents := contents - {key};
      entries := entries - 1;
    }

    /** A new entry goes to the head of its chain. */
    method Prepend(key: nat, val: V)
      requires Valid() && log >= 0 && key !in contents
      modifies this`table, this`contents, this`entries
      ensures Valid() && contents == old(contents)[key := val] && entries == old(entries) + 1
    {
      hide TableOk, Hash;
      ChainsOf(table, log, contents, key);
      PrependOk(table, log, contents, key, val);
      var index := Hash(key, log);
      table := table[index := [Item(key, val)] + table[index]];
      contents := contents[key := val];
      entries := entries + 1;
    }

    /** GC_general_register_disappearing_link: the map gets the new target. */
    method RegisterLink(link: nat, obj: V, enough: bool, room: bool) returns (r: Outcome)
      requires Valid() && (log == -1 ==> enough)
      modifies this
      ensures Valid() && (r.Aborted? <==> link % ALIGNMENT != 0)
      ensures !r.Aborted? ==>
                (r.Replaced? <==> link in old(contents)) && (r.NoMemory? <==> link !in old(contents) && !room)
      ensures contents == if r.Replaced? || r.Added? then old(contents)[link := obj] else old(contents)
      ensures enough && old(LoadOk()) ==> LoadOk()
    {
      hide TableOk, Hash, HasKey, Pow2;
      if link % ALIGNMENT != 0 {
        return Aborted;
      }
      GrowIfFull(enough);
      LoadAfterGrowing(old(log), log, entries, enough);
      ChainsOf(table, log, contents, link);
      var index := Hash(link, log);
      var i := Find(table[index], link);
      if i < |table[index]| {
        SetAt(link, i, obj);
        return Replaced;
      }
      AbsentOk(table, log, contents, link);
      if !room {
        return NoMemory;
      }
      Prepend(link, obj);
      return Added;
    }

    /** GC_unregister_disappearing_link. Before any link was registered there is no table, and an aligned address is
        looked up in it all the same. */
    method UnregisterLink(link: nat) returns (r: Removal)
      requires Valid()
      modifies this`table, this`entries, this`contents
      ensures r.NoTable? <==> log == -1 && link % ALIGNMENT == 0
      ensures r.Removed? <==> link % ALIGNMENT == 0 && link in old(contents)
      ensures Valid() && contents == if r.Removed? then old(contents) - {link} else old(contents)
    {
      hide TableOk, Hash, HasKey;
      if link % ALIGNMENT != 0 {
        return NotFound;
      }
      if log == -1 {
        return NoTable;
      }
      ChainsOf(table, log, contents, link);
      var index := Hash(link, log);
      var i := Find(table[index], link);
      if i == |table[index]| {
        AbsentOk(table, log, contents, link);
        return NotFound;
      }
      DeleteAt(link, i);
      return Removed;
    }

    /** The loops of GC_finalize that unlink entries, where `drop` holds the keys whose objects are unmarked: every
        chain keeps its other entries in their order, and the count goes down with each entry unlinked. */
    method Unlink(drop: set<nat>)
      requires Valid()
      modifies this`table, this`entries, this`contents
      ensures Valid() && contents == old(contents) - drop && entries == |old(contents) - drop|
      ensures |table| == |old(table)| && forall b :: 0 <= b < |table| ==> table[b] == Survivors(old(table)[b], drop)
      ensures Flat(table) == Survivors(Flat(old(table)), drop)
    {
      hide TableOk, Hash, HasKey, Survivors;
      ghost var gone: set<nat> := {};
      var i := 0;
      while i < |table|
        invariant i <= |table| == |old(table)| && Valid() && log == old(log)
        invariant forall b :: 0 <= b < |table| ==> table[b] == if b < i then Survivors(old(table)[b], drop)
                  else old(table)[b]
        invariant gone <= drop && contents == old(contents) - gone
        invariant log >= 0 ==> forall k :: k in old(contents) && k in drop && Hash(k, log) < i ==> k in gone
      {
        ghost var m0, c0 := contents, table[i];
        UnlinkIn(i, drop);
        ghost var more := Dropped(c0, drop);
        assert old(contents) - gone - more == old(contents) - (gone + more);
        gone := gone + more;
        DroppedHere(old(table), log, old(contents), i, drop);
        i := i + 1;
      }
      FlatSurvivors(old(table), table, drop);
      AllDropped(old(table), log, old(contents), contents, drop, gone);
    }

    /** One chain of it. */
    method UnlinkIn(i: nat, drop: set<nat>)
      requires Valid() && i < |table|
      modifies this`table, this`entries, this`contents
      ensures Valid() && table == old(table)[i := Survivors(old(table)[i], drop)]
      ensures contents == old(contents) - Dropped(old(table)[i], drop)
    {
      hide TableOk, Hash, HasKey, Survivors, Dropped;
      ghost var c := table[i];
      ghost var p := 0;
      var j := 0;
      WalkStart(c, drop);
      assert contents - {} == contents;
      while j < |table[i]|
        invariant p <= |c| && Valid() && |table| == |old(table)| && j == |Survivors(c[..p], drop)|
        invariant table == old(table)[i := Survivors(c[..p], drop) + c[p..]]
        invariant contents == old(contents) - Dropped(c[..p], drop)
        decreases |c| - p
      {
        WalkStep(c, p, drop);
        var key := table[i][j].key;
        if key in drop {
          InChain(table, log, contents, i, j);
          DeleteAt(key, j);
        } else {
          j := j + 1;
        }
        p := p + 1;
      }
      assert c[..p] == c && c[p..] == [] && Survivors(c, drop) + [] == Survivors(c, drop);
    }

    /** GC_register_finalizer_inner: a finalizer is set, replaced or, without a new one, removed; what was registered
        before is returned. An object without a header is never registered. */
    method RegisterFinalizer(obj: nat, fn: Option<V>, hasHeader: bool, enough: bool,
                             room: bool) returns (old': Option<V>)
      requires Valid() && (log == -1 ==> enough)
      modifies this
      ensures Valid() && old' == if obj in old(contents) then Some(old(contents)[obj]) else None
      ensures fn.None? ==> contents == old(contents) - {obj}
      ensures fn.Some? && (obj in old(contents) || (hasHeader && room)) ==> contents == old(contents)[obj := fn.value]
      ensures fn.Some? && obj !in old(contents) && !(hasHeader && room) ==> contents == old(contents)
      ensures enough && old(LoadOk()) ==> LoadOk()
    {
      hide TableOk, Hash, HasKey, Pow2;
      GrowIfFull(enough);
      LoadAfterGrowing(old(log), log, entries, enough);
      ChainsOf(table, log, contents, obj);
      var index := Hash(obj, log);
      var i := Find(table[index], obj);
      if i < |table[index]| {
        old' := Some(table[index][i].val);
        if fn.None? {
          DeleteAt(obj, i);
        } else {
          SetAt(obj, i, fn.value);
        }
        return;
      }
      AbsentOk(table, log, contents, obj);
      old' := None;
      if fn.None? || !hasHeader || !room {
        assert contents - {obj} == contents;
        return;
      }
      Prepend(obj, fn.value);
    }

    /** The table is never loaded with more than one entry above its number of chains. */
    ghost predicate LoadOk()
      reads this
    {
      log < 0 || entries <= Size() + 1
    }
  }

  lemma NothingMoved<V>(table: seq<seq<Item<V>>>, log: nat, contents: map<nat, V>)
    ensures Moved(table, log, contents, map[], 0, 0)
  {
  }

  lemma ChainsOf<V>(table: seq<seq<Item<V>>>, log: nat, contents: map<nat, V>, key: nat)
    requires TableOk(table, log, contents)
    ensures Hash(key, log) < |table|
  {
  }

  lemma LoadAfterGrowing(log: int, log': nat, entries: nat, enough: bool)
    requires log >= -1 && (log < 0 ==> entries == 0)
    requires log' == log + if enough && (log == -1 || entries > Pow2(log)) then 1 else 0
    ensures enough && (log < 0 || entries <= Pow2(log) + 1) ==> entries <= Pow2(log')
  {
  }
}
