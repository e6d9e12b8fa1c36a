/** The table of address ranges excluded from the static roots. */
module Exclusions {

  const MAX_EXCLUSIONS := 256

  /** Addresses from start up to but not including finish. */
  datatype Range = Range(start: nat, finish: nat)

  /** The ranges are in address order and do not overlap. */
  ghost predicate Sorted(t: seq<Range>) {
    && (forall i :: 0 <= i < |t| ==> t[i].start <= t[i].finish)
    && (forall i, j :: 0 <= i < j < |t| ==> t[i].finish <= t[j].start)
  }

  ghost predicate In(r: Range, a: nat) {
    r.start <= a < r.finish
  }

  ghost predicate Covers(t: seq<Range>, a: nat) {
    exists i :: 0 <= i < |t| && In(t[i], a)
  }

  /** i is the position of the first range that ends after a, or the length if there is none. */
  ghost predicate IsNext(t: seq<Range>, a: nat, i: nat) {
    && i <= |t| && (i < |t| ==> t[i].finish > a)
    && forall j :: 0 <= j < i ==> t[j].finish <= a
  }

  ghost predicate AddsExactly(t: seq<Range>, r: Range, t': seq<Range>) {
    forall a: nat :: Covers(t', a) <==> Covers(t, a) || In(r, a)
  }

  function Insert(t: seq<Range>, i: nat, r: Range): seq<Range>
    requires i <= |t|
  {
    t[..i] + [r] + t[i..]
  }

  // ---------------------------------------------------------------- when an insertion is right

  lemma CoversAt(t: seq<Range>, i: nat, a: nat)
    requires i < |t| && In(t[i], a)
    ensures Covers(t, a)
  {
  }

  lemma InsertCovers(t: seq<Range>, i: nat, r: Range)
    requires i <= |t|
    ensures AddsExactly(t, r, Insert(t, i, r))
  {
    var t' := Insert(t, i, r);
    assert forall j :: 0 <= j < |t'| ==> t'[j] == if j < i then t[j] else if j == i then r else t[j - 1];
    forall a: nat
      ensures Covers(t', a) <==> Covers(t, a) || In(r, a)
    {
      if Covers(t, a) {
        var j :| 0 <= j < |t| && In(t[j], a);
        CoversAt(t', if j < i then j else j + 1, a);
      }
      if In(r, a) {
        CoversAt(t', i, a);
      }
    }
  }

  /** Inserting in front of the next range keeps the table sorted exactly if the new range is not inverted. */
  lemma InsertSorted(t: seq<Range>, i: nat, r: Range)
    requires Sorted(t) && IsNext(t, r.start, i) && (i < |t| ==> t[i].start >= r.finish)
    ensures Sorted(Insert(t, i, r)) <==> r.start <= r.finish
  {
    var t' := Insert(t, i, r);
    assert forall j :: 0 <= j < |t'| ==> t'[j] == if j < i then t[j] else if j == i then r else t[j - 1];
    assert t'[i] == r;
  }

  /** An inverted range is accepted, and the table is no longer sorted. */
  lemma InvertedRangeIsAccepted()
    ensures Sorted([Range(0, 1)]) && IsNext([Range(0, 1)], 4, 1) && !Sorted(Insert([Range(0, 1)], 1, Range(4, 2)))
  {
    assert Insert([Range(0, 1)], 1, Range(4, 2))[1] == Range(4, 2);
  }

  /** Extending the next range backwards adds exactly the new range if and only if that is not inverted. */
  lemma ExtendRight(t: seq<Range>, i: nat, r: Range)
    requires Sorted(t) && i < |t| && IsNext(t, r.start, i) && t[i].start == r.finish
    ensures Sorted(t[i := Range(r.start, t[i].finish)])
    ensures AddsExactly(t, r, t[i := Range(r.start, t[i].finish)]) <==> r.start <= r.finish
  {
    var t' := t[i := Range(r.start, t[i].finish)];
    if r.start <= r.finish {
      forall a: nat
        ensures Covers(t', a) <==> Covers(t, a) || In(r, a)
      {
        if Covers(t, a) {
          var j :| 0 <= j < |t| && In(t[j], a);
          CoversAt(t', j, a);
        }
        if In(r, a) {
          CoversAt(t', i, a);
        }
        if Covers(t', a) {
          var j :| 0 <= j < |t'| && In(t'[j], a);
          if j != i || a >= t[i].start {
            CoversAt(t, j, a);
          }
        }
      }
    } else {
      // the first address of the old range is no longer covered
      var a := r.finish;
      CoversAt(t, i, a);
      assert !In(t'[i], a);
      assert forall j :: 0 <= j < |t'| ==> !In(t'[j], a);
    }
  }

  // ---------------------------------------------------------------- the table

  class Table {
    const ranges: array<Range>
    var entries: nat

    ghost predicate Valid()
      reads this, ranges
    {
      ranges.Length == MAX_EXCLUSIONS && entries <= MAX_EXCLUSIONS
    }

    ghost function Contents(): seq<Range>
      requires Valid()
      reads this, ranges
    {
      ranges[..entries]
    }

    constructor ()
      ensures Valid() && Contents() == [] && fresh(ranges)
    {
      ranges := new Range[MAX_EXCLUSIONS](i => Range(0, 0));
      entries := 0;
    }

    /** GC_next_exclusion, by binary search. The table must not be empty. */
    method NextExclusion(a: nat) returns (low: nat)
      requires Valid() && entries > 0 && Sorted(Contents())
      ensures IsNext(Contents(), a, low)
    {
      low := 0;
      var high := entries - 1;
      while high > low
        invariant 0 <= low <= high < entries
        invariant forall j :: 0 <= j < low ==> ranges[j].finish <= a
        invariant high < entries - 1 ==> ranges[high].finish > a
        decreases high - low
      {
        var mid := (low + high) / 2;
        if ranges[mid].finish <= a {
          FinishesInOrder(Contents(), mid, a);
          low := mid + 1;
        } else {
          high := mid;
        }
      }
      if ranges[low].finish <= a {
        FinishesInOrder(Contents(), low, a);
        low := entries;
      }
    }

    /** Moves the entries from `index` on up by one. */
    method ShiftUp(index: nat)
      requires Valid() && index <= entries < MAX_EXCLUSIONS
      modifies ranges
      ensures forall j :: 0 <= j < MAX_EXCLUSIONS && !(index < j <= entries) ==> ranges[j] == old(ranges[j])
      ensures forall j :: index < j <= entries ==> ranges[j] == old(ranges[j - 1])
    {
      var i := entries;
      while i > index
        invariant index <= i <= entries
        invariant forall j :: 0 <= j < MAX_EXCLUSIONS && !(i < j <= entries) ==> ranges[j] == old(ranges[j])
        invariant forall j :: i < j <= entries ==> ranges[j] == old(ranges[j - 1])
      {
        ranges[i] := ranges[i - 1];
        i := i - 1;
      }
    }

    method InsertAt(next: nat, r: Range)
      requires Valid() && next <= entries < MAX_EXCLUSIONS
      modifies this`entries, ranges
      ensures Valid() && Contents() == Insert(old(Contents()), next, r)
    {
      ghost var t := Contents();
      ShiftUp(next);
      ranges[next] := r;
      entries := entries + 1;
      assert Contents() == Insert(t, next, r);
    }

    /** GC_exclude_static_roots. It aborts exactly if the next range starts before the new one finishes, or if the table
        is full and no range can be extended backwards. Otherwise the table stays sorted and covers the new range
        besides what it covered, exactly if the new range is not inverted. */
    method ExcludeStaticRoots(start: nat, finish: nat) returns (ok: bool)
      requires Valid() && Sorted(Contents())
      modifies this`entries, ranges
      ensures Valid()
      ensures !ok <==> var t, r := old(Contents()), Range(start, finish);
                       Blocked(t, r) || (old(entries) == MAX_EXCLUSIONS && !Extendable(t, r))
      ensures !ok ==> Contents() == old(Contents())
      ensures ok ==> (Sorted(Contents()) && AddsExactly(old(Contents()), Range(start, finish), Contents()) <==>
              start <= finish)
    {
      hide Sorted, Covers, AddsExactly, Blocked, Extendable, Insert, In;
      ghost var t := Contents();
      var r := Range(start, finish);
      var next := 0;
      if entries > 0 {
        next := NextExclusion(start);
      }
      NextIsUnique(t, start, next);
      NextExtends(t, start, next);
      if next < entries {
        if ranges[next].start < finish {
          return false;
        }
        if ranges[next].start == finish {
          ExtendRight(t, next, r);
          ranges[next] := Range(start, ranges[next].finish);
          assert Contents() == t[next := Range(start, t[next].finish)];
          return true;
        }
      }
      if entries == MAX_EXCLUSIONS {
        return false;
      }
      InsertAt(next, r);
      InsertCovers(t, next, r);
      InsertSorted(t, next, r);
      return true;
    }

    /** GC_push_conditional_with_exclusions: the ranges pushed, in order. They are not empty and do not overlap, and
        together they are [bottom, top) without the excluded addresses. */
    method PushWithExclusions(bottom: nat, top: nat) returns (pushed: seq<Range>)
      requires Valid() && entries > 0 && Sorted(Contents())
      ensures Sorted(pushed) && forall i :: 0 <= i < |pushed| ==> pushed[i].start < pushed[i].finish
      ensures forall a: nat :: Covers(pushed, a) <==> bottom <= a < top && !Covers(Contents(), a)
    {
      var b := bottom;
      pushed := [];
      while b < top
        invariant PushedTo(pushed, Contents(), bottom, b, top)
        decreases top - b
      {
        var next := NextExclusion(b);
        if next == entries || ranges[next].start >= top {
          LastPush(pushed, Contents(), bottom, b, top, next);
          pushed := pushed + [Range(b, top)];
          return;
        }
        PushGap(pushed, Contents(), bottom, b, top, next);
        if ranges[next].start > b {
          pushed := pushed + [Range(b, ranges[next].start)];
        }
        b := ranges[next].finish;
      }
    }
  }

  lemma FinishesInOrder(t: seq<Range>, m: nat, a: nat)
    requires Sorted(t) && m < |t| && t[m].finish <= a
    ensures forall j :: 0 <= j <= m ==> t[j].finish <= a
  {
    forall j | 0 <= j < m
      ensures t[j].finish <= a
    {
      assert t[j].finish <= t[m].start <= t[m].finish;
    }
  }

  /** Some range that ends after the new one starts itself starts before the new one finishes. */
  ghost predicate Blocked(t: seq<Range>, r: Range) {
    exists i :: 0 <= i < |t| && t[i].finish > r.start && t[i].start < r.finish
  }

  /** Looking at the next range is enough to find a range in the way. */
  lemma NextIsUnique(t: seq<Range>, start: nat, next: nat)
    requires Sorted(t) && IsNext(t, start, next)
    ensures forall finish: nat :: Blocked(t, Range(start, finish)) <==> next < |t| && t[next].start < finish
  {
    forall finish: nat
      ensures Blocked(t, Range(start, finish)) <==> next < |t| && t[next].start < finish
    {
      if Blocked(t, Range(start, finish)) {
        var i :| 0 <= i < |t| && t[i].finish > start && t[i].start < finish;
        assert next <= i;
        assert t[next].start <= t[i].start;
      }
    }
  }

  /** A range ends after the new one starts, and starts where the new one finishes; no range is in the way. */
  ghost predicate Extendable(t: seq<Range>, r: Range) {
    !Blocked(t, r) && exists i :: 0 <= i < |t| && t[i].finish > r.start && t[i].start == r.finish
  }

  /** ... and to find one that can be extended. */
  lemma NextExtends(t: seq<Range>, start: nat, next: nat)
    requires Sorted(t) && IsNext(t, start, next)
    ensures forall finish: nat :: Extendable(t, Range(start, finish)) <==> next < |t| && t[next].start == finish
  {
    NextIsUnique(t, start, next);
    forall finish: nat
      ensures Extendable(t, Range(start, finish)) <==> next < |t| && t[next].start == finish
    {
      if Extendable(t, Range(start, finish)) {
        var i :| 0 <= i < |t| && t[i].finish > start && t[i].start == finish;
        assert next <= i;
        assert t[next].start <= t[i].start;
      }
    }
  }

  // ---------------------------------------------------------------- pushing around the exclusions

  /** What is pushed is [bottom, b) without the exclusions. */
  ghost predicate PushedTo(pushed: seq<Range>, t: seq<Range>, bottom: nat, b: nat, top: nat) {
    && bottom <= b
    && (forall i :: 0 <= i < |pushed| ==> pushed[i].start < pushed[i].finish <= b && pushed[i].finish <= top)
    && (forall i, j :: 0 <= i < j < |pushed| ==> pushed[i].finish <= pushed[j].start)
    && (forall a: nat :: Covers(pushed, a) <==> bottom <= a < b && a < top && !Covers(t, a))
  }

  lemma AppendCovers(pushed: seq<Range>, r: Range, a: nat)
    ensures Covers(pushed + [r], a) <==> Covers(pushed, a) || In(r, a)
  {
    if Covers(pushed, a) {
      var i :| 0 <= i < |pushed| && In(pushed[i], a);
      CoversAt(pushed + [r], i, a);
    }
    if In(r, a) {
      CoversAt(pushed + [r], |pushed|, a);
    }
  }

  /** From b up to the next exclusion nothing is excluded. */
  lemma NotCovered(t: seq<Range>, b: nat, next: nat, a: nat)
    requires Sorted(t) && IsNext(t, b, next) && b <= a && (next < |t| ==> a < t[next].start)
    ensures !Covers(t, a)
  {
    forall i | 0 <= i < |t|
      ensures !In(t[i], a)
    {
      if i > next {
        assert t[next].start <= t[next].finish <= t[i].start;
      }
    }
  }

  lemma LastPush(pushed: seq<Range>, t: seq<Range>, bottom: nat, b: nat, top: nat, next: nat)
    requires Sorted(t) && PushedTo(pushed, t, bottom, b, top) && b < top && IsNext(t, b, next)
    requires (next < |t| ==> t[next].start >= top)
    ensures PushedTo(pushed + [Range(b, top)], t, bottom, top, top)
  {
    forall a: nat
      ensures Covers(pushed + [Range(b, top)], a) <==> bottom <= a < top && !Covers(t, a)
    {
      AppendCovers(pushed, Range(b, top), a);
      if b <= a < top {
        NotCovered(t, b, next, a);
      }
    }
  }

  lemma PushGap(pushed: seq<Range>, t: seq<Range>, bottom: nat, b: nat, top: nat, next: nat)
    requires Sorted(t) && PushedTo(pushed, t, bottom, b, top) && b < top && IsNext(t, b, next) && next < |t|
    requires t[next].start < top
    ensures b < t[next].finish
    ensures PushedTo(if t[next].start > b then pushed + [Range(b, t[next].start)]
            else pushed, t, bottom, t[next].finish, top)
  {
    var p := if t[next].start > b then pushed + [Range(b, t[next].start)] else pushed;
    forall a: nat
      ensures Covers(p, a) <==> bottom <= a < t[next].finish && a < top && !Covers(t, a)
    {
      AppendCovers(pushed, Range(b, t[next].start), a);
      if b <= a < t[next].start {
        NotCovered(t, b, next, a);
      } else if b <= a < t[next].finish {
        CoversAt(t, next, a);
      }
    }
  }
}
