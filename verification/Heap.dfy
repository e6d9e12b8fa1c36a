/** The object graph the collector works on: heap blocks, the objects laid out in them,
    the root words, and reachability.

    Addresses are kept at two levels. A block is named by the number of its first heap block
    (address divided by HBLKSIZE; block 0 is the nil address and is never used), and an object by
    its block and its word offset in it. */
module Heap {
  import opened Sizes

  datatype Kind = PtrFree | Normal | Uncollectable | AtomicUncollectable {

    /** Objects of this kind have a nonzero mark descriptor. */
    predicate Scanned() {
      Normal? || Uncollectable?
    }

    /** IS_UNCOLLECTABLE: marks of such blocks are never cleared by a full collection. */
    predicate Permanent() {
      Uncollectable? || AtomicUncollectable?
    }
  }

  /** A used block: its kind and its length in heap blocks. */
  datatype Block = Block(kind: Kind, len: nat)

  datatype Obj = Obj(block: nat, off: nat)

  /** What a word holds. The marker cannot tell a pointer from an integer that looks like one
      (Noise); the client program only ever follows Ptr. */
  datatype Word = NonPtr | Ptr(o: Obj) | Noise(o: Obj)

  /** The object a word would be taken to denote by the marker. */
  predicate Denotes(w: Word, o: Obj) {
    w == Ptr(o) || w == Noise(o)
  }

  datatype Loc = RootLoc(i: nat) | Field(o: Obj, i: nat)

  datatype Graph = Graph(
    heap: map<Obj, seq<Word>>,   // every object of a used block, live or not
    blocks: map<nat, Block>,     // the used blocks
    roots: seq<Word>,            // static data, stacks and registers
    live: set<Obj>,              // handed to the client and not reclaimed since
    fin: set<Obj>                // objects with a registered finalizer
  )

  /** The page (heap block) a field lies in. */
  function PageOf(o: Obj, i: nat): nat {
    o.block + (o.off + i) / HBLK_WORDS
  }

  /** PHT_HASH on block numbers. */
  function PageHash(page: nat): (index: nat)
    ensures index < PHT_ENTRIES
  {
    page % PHT_ENTRIES
  }

  predicate Scannable(g: Graph, o: Obj) {
    o in g.heap && o.block in g.blocks && g.blocks[o.block].kind.Scanned()
  }

  predicate IsPermanent(g: Graph, o: Obj) {
    o.block in g.blocks && g.blocks[o.block].kind.Permanent()
  }

  predicate HasWord(g: Graph, o: Obj, i: nat) {
    Scannable(g, o) && i < |g.heap[o]|
  }

  /** Every word the marker examines when it scans o. */
  function Fields(g: Graph, o: Obj): (ls: set<Loc>)
    ensures forall l :: l in ls <==> l.Field? && l.o == o && HasWord(g, o, l.i)
  {
    if Scannable(g, o) then set i: nat | i < |g.heap[o]| :: Field(o, i) else {}
  }

  /** Objects lie inside their block and start in its first HBLK_WORDS words, and blocks do not overlap. */
  ghost predicate LayoutOk(g: Graph) {
    && (forall b :: b in g.blocks ==> 1 <= b && 1 <= g.blocks[b].len)
    && (forall b, c :: b in g.blocks && c in g.blocks && b < c ==> b + g.blocks[b].len <= c)
    && (forall o :: o in g.heap ==> o.block in g.blocks)
    && (forall o :: o in g.heap ==> o.off + |g.heap[o]| <= g.blocks[o.block].len * HBLK_WORDS)
    && (forall o :: o in g.heap ==> o.off < HBLK_WORDS)
  }

  /** Word i of an object lies in the page said. */
  lemma PageHolds(o: Obj, i: nat)
    ensures PageOf(o, i) * HBLK_WORDS <= o.block * HBLK_WORDS + o.off + i < (PageOf(o, i) + 1) * HBLK_WORDS
  {
  }

  /** The marker examines all words of objects that may hold pointers, and none of the others. */
  lemma FieldsByKind(g: Graph, o: Obj)
    requires o in g.heap && o.block in g.blocks
    ensures g.blocks[o.block].kind in {Normal, Uncollectable} ==>
              forall i :: 0 <= i < |g.heap[o]| ==> Field(o, i) in Fields(g, o)
    ensures g.blocks[o.block].kind in {PtrFree, AtomicUncollectable} ==> Fields(g, o) == {}
  {
  }

  /** A field of an object lies in a page of the object's block. */
  lemma PageInBlock(g: Graph, o: Obj, i: nat)
    requires LayoutOk(g) && o in g.heap && i < |g.heap[o]|
    ensures o.block <= PageOf(o, i) < o.block + g.blocks[o.block].len
  {
  }

  // ---------------------------------------------------------------- reachability

  ghost predicate Edge(g: Graph, o: Obj, t: Obj) {
    Scannable(g, o) && Ptr(t) in g.heap[o]
  }

  /** Objects held directly: by a root word, because they are uncollectable, or by the finalizer table. */
  ghost predicate Base(g: Graph, t: Obj) {
    Ptr(t) in g.roots || (t in g.live && IsPermanent(g, t)) || t in g.fin
  }

  ghost predicate Closed(g: Graph, S: iset<Obj>) {
    && (forall t :: Base(g, t) ==> t in S)
    && (forall o, t :: o in S && Edge(g, o, t) ==> t in S)
  }

  /** t is reachable: it belongs to every set that holds the directly held objects and is closed
      under pointers. PathToReachable and ReachableHasPath tie this to pointer paths. */
  ghost predicate Reachable(g: Graph, t: Obj) {
    forall S: iset<Obj> :: Closed(g, S) ==> t in S
  }

  /** What the client program can reach: the finalizer table does not count as a root. */
  ghost predicate ClientReachable(g: Graph, t: Obj) {
    Reachable(g.(fin := {}), t)
  }

  /** A path starts at a directly held object and follows pointers. */
  ghost predicate IsPath(g: Graph, p: seq<Obj>) {
    && |p| > 0
    && Base(g, p[0])
    && forall k :: 0 < k < |p| ==> Edge(g, p[k - 1], p[k])
  }

  lemma {:induction false} PathToReachable(g: Graph, p: seq<Obj>)
    requires IsPath(g, p)
    ensures Reachable(g, p[|p| - 1])
  {
    if |p| > 1 {
      var q := p[..|p| - 1];
      PathToReachable(g, q);
      assert Edge(g, p[|p| - 2], p[|p| - 1]);
      assert q[|q| - 1] == p[|p| - 2];
    }
  }

  ghost predicate HasPath(g: Graph, t: Obj) {
    exists p :: IsPath(g, p) && p[|p| - 1] == t
  }

  lemma BaseHasPath(g: Graph, t: Obj)
    requires Base(g, t)
    ensures HasPath(g, t)
  {
    var p := [t];
    assert IsPath(g, p) && p[|p| - 1] == t;
  }

  lemma EdgeExtendsPath(g: Graph, o: Obj, t: Obj)
    requires HasPath(g, o) && Edge(g, o, t)
    ensures HasPath(g, t)
  {
    var p :| IsPath(g, p) && p[|p| - 1] == o;
    var q := p + [t];
    forall k | 0 < k < |q|
      ensures Edge(g, q[k - 1], q[k])
    {
      if k < |p| {
        assert Edge(g, p[k - 1], p[k]);
      }
    }
    assert q[|q| - 1] == t;
  }

  lemma ReachableHasPath(g: Graph, t: Obj)
    requires Reachable(g, t)
    ensures HasPath(g, t)
  {
    var S := iset u | HasPath(g, u);
    forall u | Base(g, u)
      ensures u in S
    {
      BaseHasPath(g, u);
    }
    forall o, u | o in S && Edge(g, o, u)
      ensures u in S
    {
      EdgeExtendsPath(g, o, u);
    }
    assert Closed(g, S);
  }

  lemma BaseIsReachable(g: Graph, t: Obj)
    requires Base(g, t)
    ensures Reachable(g, t)
  {
  }

  lemma EdgeIsReachable(g: Graph, o: Obj, t: Obj)
    requires Reachable(g, o) && Edge(g, o, t)
    ensures Reachable(g, t)
  {
    forall S: iset<Obj> | Closed(g, S)
      ensures t in S
    {
      assert o in S;
    }
  }

  lemma ClientReachableIsReachable(g: Graph, t: Obj)
    requires ClientReachable(g, t)
    ensures Reachable(g, t)
  {
    var h := g.(fin := {});
    forall S: iset<Obj> | Closed(g, S)
      ensures t in S
    {
      assert forall u :: Base(h, u) ==> Base(g, u);
      assert forall o, u :: Edge(h, o, u) ==> Edge(g, o, u);
      assert Closed(h, S);
    }
  }

  /** If the objects held directly in h, and the pointers of h out of objects reachable in g, only
      lead to objects reachable in g (or to new ones), then h reaches nothing else. */
  lemma ReachStep(g: Graph, h: Graph, added: iset<Obj>)
    requires forall t :: Base(h, t) ==> Reachable(g, t) || t in added
    requires forall o, t :: (Reachable(g, o) || o in added) && Edge(h, o, t) ==> Reachable(g, t) || t in added
    ensures forall t :: Reachable(h, t) ==> Reachable(g, t) || t in added
  {
    var S := iset t | Reachable(g, t) || t in added;
    assert Closed(h, S);
  }
}
