/**
 The storage allocator of user/umalloc.c: a circular list of free blocks in
 address order, searched first-fit and coalesced on every release.

 Addresses count in units of one Header.  The list is kept as the source keeps
 it, in the ptr and size fields of headers in memory; the ghost sequence of
 blocks is what those fields mean.
 */
module Umalloc {

  const HEADER_BYTES: nat := 16
  const MAX_REQUEST: nat := 0x7fff_ffe0
  const MIN_GROW: nat := 4096

  /** A block of n units whose header is at address a. */
  datatype Block = Block(a: int, n: int) {
    predicate Has(u: int) {
      a <= u < a + n
    }

    function End(): int {
      a + n
    }

    ghost function Units(): set<int> {
      set u | a <= u < a + n && Has(u)
    }
  }

  /** The free blocks in address order: the empty base first, no two touching. */
  predicate Ordered(bs: seq<Block>) {
    && 0 < |bs|
    && bs[0].n == 0
    && (forall i :: 0 < i < |bs| ==> 0 < bs[i].n)
    && forall i, j :: 0 <= i < j < |bs| ==> bs[i].End() < bs[j].a
  }

  /** Unit u is free. */
  ghost predicate Free(bs: seq<Block>, u: int) {
    exists i :: 0 <= i < |bs| && bs[i].Has(u)
  }

  /** A block that overlaps no free block and lies above the base. */
  predicate Apart(bs: seq<Block>, b: Block) {
    && 0 < |bs| && 0 < b.n && bs[0].a < b.a
    && forall i :: 0 <= i < |bs| ==> b.End() <= bs[i].a || bs[i].End() <= b.a
  }

  /** b belongs right after the i-th free block. */
  predicate Follows(bs: seq<Block>, i: int, b: Block) {
    0 <= i < |bs| && bs[i].a < b.a && (i + 1 < |bs| ==> b.a < bs[i + 1].a)
  }

  /** b as a separate element after the i-th. */
  function Placed(bs: seq<Block>, i: nat, b: Block): (r: seq<Block>)
    requires i < |bs|
    ensures |r| == |bs| + 1 && r[i + 1] == b
    ensures forall j :: 0 <= j <= i ==> r[j] == bs[j]
    ensures forall j :: i + 1 < j < |r| ==> r[j] == bs[j - 1]
  {
    bs[..i + 1] + [b] + bs[i + 1..]
  }

  predicate Touches(bs: seq<Block>, k: int) {
    0 <= k && k + 1 < |bs| && bs[k].End() == bs[k + 1].a
  }

  /** The k-th element takes in its successor. */
  function Joined(bs: seq<Block>, k: nat): (r: seq<Block>)
    requires k + 1 < |bs|
    ensures |r| == |bs| - 1 && r[k] == Block(bs[k].a, bs[k].n + bs[k + 1].n)
    ensures forall j :: 0 <= j < k ==> r[j] == bs[j]
    ensures forall j :: k < j < |r| ==> r[j] == bs[j + 1]
  {
    bs[..k] + [Block(bs[k].a, bs[k].n + bs[k + 1].n)] + bs[k + 2..]
  }

  function Merged(bs: seq<Block>, k: nat): seq<Block> {
    if Touches(bs, k) then Joined(bs, k) else bs
  }

  /** The list once b is put after its i-th element and merged with the neighbours it touches, the right one first. */
  function Inserted(bs: seq<Block>, i: nat, b: Block): seq<Block>
    requires i < |bs|
  {
    Merged(Merged(Placed(bs, i, b), i + 1), i)
  }

  /** In address order, where blocks may touch. */
  predicate Weak(bs: seq<Block>) {
    && 0 < |bs|
    && bs[0].n == 0
    && (forall i :: 0 < i < |bs| ==> 0 < bs[i].n && bs[0].a < bs[i].a)
    && forall i, j :: 0 <= i < j < |bs| ==> bs[i].End() <= bs[j].a
  }

  lemma {:induction false} WeakToOrdered(bs: seq<Block>)
    requires Weak(bs) && forall k :: 0 <= k < |bs| ==> !Touches(bs, k)
    ensures Ordered(bs)
  {
    forall i, j | 0 <= i < j < |bs| ensures bs[i].End() < bs[j].a {
      assert !Touches(bs, i);
      if i + 1 < j {
        assert bs[i + 1].End() <= bs[j].a;
      }
    }
  }

  lemma {:induction false} PlacedWeak(bs: seq<Block>, b: Block, i: nat)
    requires Ordered(bs) && Apart(bs, b) && Follows(bs, i, b)
    ensures Weak(Placed(bs, i, b))
    ensures forall k :: 0 <= k <= |bs| && k != i && k != i + 1 ==> !Touches(Placed(bs, i, b), k)
  {
    var r := Placed(bs, i, b);
    ApartPlace(bs, b, i);
    forall j, k | 0 <= j < k < |r| ensures r[j].End() <= r[k].a {
      if j == i + 1 {
        assert r[k] == bs[k - 1];
      } else if k == i + 1 {
        assert r[j] == bs[j];
      }
    }
  }

  lemma {:induction false} ApartPlace(bs: seq<Block>, b: Block, i: nat)
    requires Ordered(bs) && Apart(bs, b) && Follows(bs, i, b)
    ensures forall j :: i < j < |bs| ==> b.End() <= bs[j].a
    ensures forall j :: 0 <= j <= i ==> bs[j].End() <= b.a
  {
    forall j | 0 <= j < |bs| ensures if i < j then b.End() <= bs[j].a else bs[j].End() <= b.a {
      assert i + 1 < j ==> bs[i + 1].End() < bs[j].a;
      assert j < i ==> bs[j].End() < bs[i].a;
    }
  }

  lemma {:induction false} MergedWeak(bs: seq<Block>, k: nat)
    requires Weak(bs)
    ensures Weak(Merged(bs, k)) && Merged(bs, k)[0] == bs[0]
    ensures !Touches(bs, k + 1) ==> !Touches(Merged(bs, k), k)
    ensures forall j :: 0 <= j < k ==> (Touches(Merged(bs, k), j) <==> Touches(bs, j))
    ensures forall j :: k < j && !Touches(bs, j) && !Touches(bs, j + 1) ==> !Touches(Merged(bs, k), j)
  {
    hide Weak, Joined, Touches;
    if Touches(bs, k) {
      JoinedWeak(bs, k);
      forall j ensures Touches(Joined(bs, k), j) <==> 0 <= j && Touches(bs, if j < k then j else j + 1) {
        JoinedTouches(bs, k, j);
      }
    }
  }

  lemma {:induction false} JoinedWeak(bs: seq<Block>, k: nat)
    requires Weak(bs) && Touches(bs, k)
    ensures k + 1 < |bs| && Weak(Joined(bs, k)) && Joined(bs, k)[0] == bs[0]
  {
    var r := Joined(bs, k);
    forall i, j | 0 <= i < j < |r| ensures r[i].End() <= r[j].a {
      var i', j' := if i < k then i else i + 1, if j <= k then j else j + 1;
      assert bs[i'].End() == r[i].End() && bs[j'].a == r[j].a && i' < j';
    }
  }

  lemma {:induction false} JoinedTouches(bs: seq<Block>, k: nat, j: int)
    requires Touches(bs, k)
    ensures Touches(Joined(bs, k), j) <==> 0 <= j && Touches(bs, if j < k then j else j + 1)
  {
  }

  lemma {:induction false} MergedUnits(bs: seq<Block>, k: nat, u: int)
    requires Weak(bs)
    ensures Free(Merged(bs, k), u) <==> Free(bs, u)
  {
    if Touches(bs, k) {
      var r := Joined(bs, k);
      if Free(bs, u) {
        var i :| 0 <= i < |bs| && bs[i].Has(u);
        assert r[if i <= k then i else i - 1].Has(u);
      }
      if Free(r, u) {
        var i :| 0 <= i < |r| && r[i].Has(u);
        assert bs[if i < k then i else if i > k then i + 1 else if bs[k].Has(u) then k else k + 1].Has(u);
      }
    }
  }

  /** Inserting keeps the order and leaves no two blocks touching. */
  lemma {:induction false} InsertedOrdered(bs: seq<Block>, b: Block, i: nat)
    requires Ordered(bs) && Apart(bs, b) && Follows(bs, i, b)
    ensures Ordered(Inserted(bs, i, b)) && Inserted(bs, i, b)[0] == bs[0]
  {
    hide Weak, Ordered, Touches, Merged, Apart;
    PlacedWeak(bs, b, i);
    var r1 := Placed(bs, i, b);
    var r2 := Merged(r1, i + 1);
    PastEnd(r1);
    MergedWeak(r1, i + 1);
    forall k: nat | k != i ensures !Touches(r2, k) {
      assert !Touches(r1, i + 2);
      assert k > i + 1 ==> !Touches(r1, k) && !Touches(r1, k + 1);
      assert k < i ==> !Touches(r1, k);
    }
    MergedWeak(r2, i);
    forall k: nat ensures !Touches(Merged(r2, i), k) {
      assert !Touches(r2, i + 1);
      assert k > i ==> !Touches(r2, k) && !Touches(r2, k + 1);
    }
    WeakToOrdered(Merged(r2, i));
  }

  lemma {:induction false} PastEnd(bs: seq<Block>)
    ensures forall k :: k >= |bs| - 1 ==> !Touches(bs, k)
  {
  }

  /** Inserting frees exactly the units of b. */
  lemma {:induction false} InsertedUnits(bs: seq<Block>, b: Block, i: nat, u: int)
    requires Ordered(bs) && Apart(bs, b) && Follows(bs, i, b)
    ensures Free(Inserted(bs, i, b), u) <==> Free(bs, u) || b.Has(u)
  {
    hide Weak, Ordered, Touches, Merged, Apart, Free;
    var r1 := Placed(bs, i, b);
    PlacedWeak(bs, b, i);
    MergedWeak(r1, i + 1);
    MergedUnits(r1, i + 1, u);
    MergedUnits(Merged(r1, i + 1), i, u);
    PlacedUnits(bs, b, i, u);
  }

  lemma {:induction false} PlacedUnits(bs: seq<Block>, b: Block, i: nat, u: int)
    requires i < |bs|
    ensures Free(Placed(bs, i, b), u) <==> Free(bs, u) || b.Has(u)
  {
    var r := Placed(bs, i, b);
    if k :| 0 <= k < |bs| && bs[k].Has(u) {
      assert r[if k <= i then k else k + 1].Has(u);
    }
    if b.Has(u) {
      assert r[i + 1].Has(u);
    }
    if k :| 0 <= k < |r| && r[k].Has(u) {
      assert if k == i + 1 then b.Has(u) else bs[if k <= i then k else k - 1].Has(u);
    }
  }

  // ------------------------------------------------------------------
  // Taking a block off the list

  /** The list once n units are cut from the end of its k-th block, or the whole block is taken. */
  function Taken(bs: seq<Block>, k: nat, n: int): (r: seq<Block>)
    requires k < |bs|
  {
    if bs[k].n == n then bs[..k] + bs[k + 1..] else bs[k := Block(bs[k].a, bs[k].n - n)]
  }

  function TakenAt(bs: seq<Block>, k: nat, n: int): Block
    requires k < |bs|
  {
    Block(bs[k].End() - n, n)
  }

  lemma {:induction false} TakenOrdered(bs: seq<Block>, k: nat, n: int)
    requires Ordered(bs) && 0 < k < |bs| && 0 < n <= bs[k].n
    ensures Ordered(Taken(bs, k, n)) && Taken(bs, k, n)[0] == bs[0]
  {
  }

  lemma {:induction false} TakenUnits(bs: seq<Block>, k: nat, n: int, u: int)
    requires Ordered(bs) && 0 < k < |bs| && 0 < n <= bs[k].n
    ensures Free(Taken(bs, k, n), u) <==> Free(bs, u) && !TakenAt(bs, k, n).Has(u)
    ensures TakenAt(bs, k, n).Has(u) ==> Free(bs, u)
  {
    hide Ordered;
    if TakenAt(bs, k, n).Has(u) {
      assert bs[k].Has(u);
    }
    forall i | 0 <= i < |bs| && i != k && bs[i].Has(u) ensures !bs[k].Has(u) {
      OnlyOne(bs, i, k, u);
    }
    if bs[k].n == n {
      var r := bs[..k] + bs[k + 1..];
      if i :| 0 <= i < |bs| && bs[i].Has(u) && i != k {
        assert r[if i > k then i - 1 else i] == bs[i];
      }
      if i :| 0 <= i < |r| && r[i].Has(u) {
        assert r[i] == bs[if i >= k then i + 1 else i];
      }
    } else {
      var r := bs[k := Block(bs[k].a, bs[k].n - n)];
      if i :| 0 <= i < |bs| && bs[i].Has(u) && !TakenAt(bs, k, n).Has(u) {
        assert r[i].Has(u);
      }
      if i :| 0 <= i < |r| && r[i].Has(u) {
        assert bs[i].Has(u);
      }
    }
  }

  lemma {:induction false} OnlyOne(bs: seq<Block>, i: nat, k: nat, u: int)
    requires Ordered(bs) && i < |bs| && k < |bs| && i != k && bs[i].Has(u)
    ensures !bs[k].Has(u)
  {
  }

  // ------------------------------------------------------------------
  // The heap: free units and units of allocated blocks

  ghost predicate Live(live: map<int, int>, u: int) {
    exists a :: a in live && Block(a, live[a]).Has(u)
  }

  /** Every unit obtained from sbrk is free or in exactly one allocated block, never both. */
  ghost predicate Partition(bs: seq<Block>, live: map<int, int>, heap: set<int>) {
    && (forall u :: u in heap <==> Free(bs, u) || Live(live, u))
    && (forall u :: !(Free(bs, u) && Live(live, u)))
    && (forall a, c, u :: a in live && c in live && Block(a, live[a]).Has(u) && Block(c, live[c]).Has(u) ==> a == c)
  }

  ghost predicate HeapInv(bs: seq<Block>, live: map<int, int>, heap: set<int>, brk: int) {
    && Ordered(bs)
    && (forall a :: a in live ==> 0 < live[a])
    && Partition(bs, live, heap)
    && (forall u :: u in heap ==> bs[0].a < u < brk)
    && bs[0].a < brk
  }

  /** A block none of whose units is free may be inserted. */
  lemma {:induction false} ApartByUnits(bs: seq<Block>, b: Block)
    requires Ordered(bs) && 0 < b.n && bs[0].a < b.a
    requires forall u :: b.Has(u) ==> !Free(bs, u)
    ensures Apart(bs, b)
  {
    forall i | 0 <= i < |bs| ensures b.End() <= bs[i].a || bs[i].End() <= b.a {
      if !(b.End() <= bs[i].a || bs[i].End() <= b.a) {
        var u := if b.a < bs[i].a then bs[i].a else b.a;
        assert b.Has(u) && (i > 0 ==> bs[i].Has(u));
        assert false;
      }
    }
  }

  /** Releasing an allocated block keeps every unit accounted for. */
  lemma {:induction false} ReleaseKeeps(bs: seq<Block>, live: map<int, int>, heap: set<int>, brk: int, a: int, i: nat)
    requires HeapInv(bs, live, heap, brk) && a in live && Follows(bs, i, Block(a, live[a]))
    ensures Apart(bs, Block(a, live[a]))
    ensures HeapInv(Inserted(bs, i, Block(a, live[a])), live - {a}, heap, brk)
  {
    var b := Block(a, live[a]);
    LiveApart(bs, live, heap, brk, a);
    InsertedOrdered(bs, b, i);
    ReleasePartition(bs, live, heap, a, i);
  }

  lemma {:induction false} ReleasePartition(bs: seq<Block>, live: map<int, int>, heap: set<int>, a: int, i: nat)
    requires Ordered(bs) && Partition(bs, live, heap) && a in live
    requires Apart(bs, Block(a, live[a])) && Follows(bs, i, Block(a, live[a]))
    ensures Partition(Inserted(bs, i, Block(a, live[a])), live - {a}, heap)
  {
    hide Inserted, Ordered, Apart, Free;
    var b, bs', live' := Block(a, live[a]), Inserted(bs, i, Block(a, live[a])), live - {a};
    forall u ensures Free(bs', u) <==> Free(bs, u) || b.Has(u) {
      InsertedUnits(bs, b, i, u);
    }
    forall u ensures Live(live, u) <==> Live(live', u) || b.Has(u) {
      if c :| c in live && Block(c, live[c]).Has(u) && c != a {
        assert c in live' && Block(c, live'[c]).Has(u);
      }
      if c :| c in live' && Block(c, live'[c]).Has(u) {
        assert c in live && Block(c, live[c]).Has(u);
      }
    }
    forall u ensures !(Live(live', u) && b.Has(u)) {
      if c :| c in live' && Block(c, live'[c]).Has(u) {
        assert c in live && Block(c, live[c]).Has(u);
      }
    }
  }

  /** Allocating from the k-th block keeps every unit accounted for. */
  lemma {:induction false} TakeKeeps(bs: seq<Block>, live: map<int, int>, heap: set<int>, brk: int, k: nat, n: int)
    requires HeapInv(bs, live, heap, brk) && 0 < k < |bs| && 0 < n <= bs[k].n
    ensures var b := TakenAt(bs, k, n);
            && b.a !in live && (forall u :: b.Has(u) ==> Free(bs, u))
            && HeapInv(Taken(bs, k, n), live[b.a := n], heap, brk)
  {
    var b := TakenAt(bs, k, n);
    TakenOrdered(bs, k, n);
    forall u ensures (Free(Taken(bs, k, n), u) <==> Free(bs, u) && !b.Has(u)) && (b.Has(u) ==> Free(bs, u)) {
      TakenUnits(bs, k, n, u);
    }
    assert b.a !in live by {
      if b.a in live {
        assert b.Has(b.a) && Block(b.a, live[b.a]).Has(b.a);
        assert Free(bs, b.a) && Live(live, b.a);
        assert false;
      }
    }
    TakePartition(bs, live, heap, Taken(bs, k, n), b);
  }

  lemma {:induction false} TakePartition(bs: seq<Block>, live: map<int, int>, heap: set<int>, bs': seq<Block>, b: Block)
    requires Partition(bs, live, heap) && b.a !in live
    requires forall u :: Free(bs', u) <==> Free(bs, u) && !b.Has(u)
    requires forall u :: b.Has(u) ==> Free(bs, u)
    ensures Partition(bs', live[b.a := b.n], heap)
  {
    hide Free;
    var live' := live[b.a := b.n];
    forall u ensures Live(live', u) <==> Live(live, u) || b.Has(u) {
      if c :| c in live && Block(c, live[c]).Has(u) {
        assert c in live' && Block(c, live'[c]).Has(u);
      }
      if b.Has(u) {
        assert b.a in live' && Block(b.a, live'[b.a]).Has(u);
      }
      if c :| c in live' && Block(c, live'[c]).Has(u) && c != b.a {
        assert c in live && Block(c, live[c]).Has(u);
      }
    }
    forall a, c, u | a in live' && c in live' && Block(a, live'[a]).Has(u) && Block(c, live'[c]).Has(u) ensures a == c {
      if a != b.a {
        assert Live(live, u);
      }
      if c != b.a {
        assert Live(live, u);
      }
    }
  }

  /** A fresh region from sbrk enters the heap as one allocated block. */
  lemma {:induction false} GrowKeeps(bs: seq<Block>, live: map<int, int>, heap: set<int>, brk: int, p: int, n: int)
    requires HeapInv(bs, live, heap, brk) && brk <= p && 0 < n
    ensures p !in live && HeapInv(bs, live[p := n], heap + Block(p, n).Units(), p + n)
  {
    hide Ordered, Free;
    var live' := live[p := n];
    assert p !in live by {
      assert p in live ==> Block(p, live[p]).Has(p);
      assert p in live ==> Live(live, p);
    }
    forall u ensures Live(live', u) <==> Live(live, u) || Block(p, n).Has(u) {
      if c :| c in live && Block(c, live[c]).Has(u) {
        assert c in live' && Block(c, live'[c]).Has(u);
      }
      if Block(p, n).Has(u) {
        assert p in live' && Block(p, live'[p]).Has(u);
      }
      if c :| c in live' && Block(c, live'[c]).Has(u) && c != p {
        assert c in live && Block(c, live[c]).Has(u);
      }
    }
    forall a, c, u | a in live' && c in live' && Block(a, live'[a]).Has(u) && Block(c, live'[c]).Has(u) ensures a == c {
      if a != p {
        assert Live(live, u);
      }
      if c != p {
        assert Live(live, u);
      }
    }
  }

  // ------------------------------------------------------------------
  // The list in memory

  /** The header that follows the i-th on the ring. */
  function Succ(bs: seq<Block>, i: int): int
    requires 0 < |bs|
  {
    if 0 <= i < |bs| - 1 then bs[i + 1].a else bs[0].a
  }

  predicate HeaderAt(ptr: map<int, int>, size: map<int, int>, bs: seq<Block>, i: int) {
    && 0 <= i < |bs|
    && bs[i].a in ptr && ptr[bs[i].a] == Succ(bs, i)
    && bs[i].a in size && size[bs[i].a] == bs[i].n
  }

  /** The ptr fields close a ring through the blocks in order; the size fields give their lengths. */
  predicate Represents(ptr: map<int, int>, size: map<int, int>, bs: seq<Block>) {
    forall i :: 0 <= i < |bs| ==> HeaderAt(ptr, size, bs, i)
  }

  lemma {:induction false} OrderedWeak(bs: seq<Block>)
    requires Ordered(bs)
    ensures Weak(bs)
  {
  }

  lemma {:induction false} PlacedRepresented(ptr: map<int, int>, size: map<int, int>, bs: seq<Block>, i: nat, b: Block)
    requires i < |bs| && Represents(ptr, size, bs) && Weak(Placed(bs, i, b))
    requires b.a in size && size[b.a] == b.n
    ensures Represents(ptr[b.a := Succ(bs, i)][bs[i].a := b.a], size, Placed(bs, i, b))
  {
    var r, ptr' := Placed(bs, i, b), ptr[b.a := Succ(bs, i)][bs[i].a := b.a];
    Increasing(r);
    forall k | 0 <= k < |r| ensures HeaderAt(ptr', size, r, k) {
      if k != i + 1 {
        var k' := if k <= i then k else k - 1;
        assert HeaderAt(ptr, size, bs, k') && r[k] == bs[k'];
      }
    }
  }

  lemma {:induction false} JoinedRepresented(ptr: map<int, int>, size: map<int, int>, bs: seq<Block>, k: nat)
    requires Represents(ptr, size, bs) && Weak(bs) && k + 1 < |bs|
    ensures Represents(ptr[bs[k].a := Succ(bs, k + 1)], size[bs[k].a := bs[k].n + bs[k + 1].n], Joined(bs, k))
  {
    var r := Joined(bs, k);
    var ptr', size' := ptr[bs[k].a := Succ(bs, k + 1)], size[bs[k].a := bs[k].n + bs[k + 1].n];
    Increasing(bs);
    forall j | 0 <= j < |r| ensures HeaderAt(ptr', size', r, j) {
      var j' := if j <= k then j else j + 1;
      assert HeaderAt(ptr, size, bs, j') && r[j].a == bs[j'].a;
    }
  }

  lemma {:induction false} Increasing(bs: seq<Block>)
    requires Weak(bs)
    ensures forall i, j :: 0 <= i < j < |bs| ==> bs[i].a < bs[j].a
  {
  }

  /** What free writes, in the source's order: the new block's fields first, then the predecessor's. */
  function FreedPtr(ptr: map<int, int>, bs: seq<Block>, i: nat, b: Block): map<int, int>
    requires i < |bs|
  {
    var p, q := bs[i].a, Succ(bs, i);
    var right := b.End() == q && i + 1 < |bs|;
    var after := if right then Succ(bs, i + 1) else q;
    ptr[b.a := after][p := if bs[i].End() == b.a then after else b.a]
  }

  function FreedSize(size: map<int, int>, bs: seq<Block>, i: nat, b: Block): map<int, int>
    requires i < |bs|
  {
    var right := i + 1 < |bs| && b.End() == bs[i + 1].a;
    var n := if right then b.n + bs[i + 1].n else b.n;
    var s1 := if right then size[b.a := n] else size;
    if bs[i].End() == b.a then s1[bs[i].a := bs[i].n + n] else s1
  }

  lemma {:induction false} FreedRepresented(ptr: map<int, int>, size: map<int, int>, bs: seq<Block>, i: nat, b: Block)
    requires Represents(ptr, size, bs) && Ordered(bs) && Apart(bs, b) && Follows(bs, i, b)
    requires b.a in size && size[b.a] == b.n
    ensures Represents(FreedPtr(ptr, bs, i, b), FreedSize(size, bs, i, b), Inserted(bs, i, b))
  {
    hide Ordered, Apart, Weak, Represents, Succ, FreedPtr, FreedSize;
    PlacedWeak(bs, b, i);
    PlacedRepresented(ptr, size, bs, i, b);
    var r1, p1 := Placed(bs, i, b), ptr[b.a := Succ(bs, i)][bs[i].a := b.a];
    var r2, p2, s2 := Merged(r1, i + 1), p1, size;
    MergedWeak(r1, i + 1);
    if Touches(r1, i + 1) {
      JoinedRepresented(p1, size, r1, i + 1);
      p2, s2 := p1[b.a := Succ(r1, i + 2)], size[b.a := b.n + r1[i + 2].n];
    }
    if Touches(r2, i) {
      JoinedRepresented(p2, s2, r2, i);
    }
    FreedSame(ptr, size, bs, i, b);
  }

  /** The composition of placing and merging writes what free writes. */
  lemma {:induction false} FreedSame(ptr: map<int, int>, size: map<int, int>, bs: seq<Block>, i: nat, b: Block)
    requires i < |bs| && bs[i].a != b.a
    ensures var r1, p1 := Placed(bs, i, b), ptr[b.a := Succ(bs, i)][bs[i].a := b.a];
            var right := Touches(r1, i + 1);
            var r2 := Merged(r1, i + 1);
            var p2 := if right then p1[b.a := Succ(r1, i + 2)] else p1;
            var s2 := if right then size[b.a := b.n + r1[i + 2].n] else size;
            var left := Touches(r2, i);
            && FreedPtr(ptr, bs, i, b) == (if left then p2[bs[i].a := Succ(r2, i + 1)] else p2)
            && FreedSize(size, bs, i, b) == (if left then s2[bs[i].a := r2[i].n + r2[i + 1].n] else s2)
  {
  }

  /** What malloc writes when it takes n units from the k-th block. */
  function TakenPtr(ptr: map<int, int>, bs: seq<Block>, k: nat, n: int): map<int, int>
    requires 0 < k < |bs|
  {
    if bs[k].n == n then ptr[bs[k - 1].a := Succ(bs, k)] else ptr
  }

  function TakenSize(size: map<int, int>, bs: seq<Block>, k: nat, n: int): map<int, int>
    requires 0 < k < |bs|
  {
    if bs[k].n == n then size else size[bs[k].a := bs[k].n - n][TakenAt(bs, k, n).a := n]
  }

  lemma {:induction false} TakenRepresented(ptr: map<int, int>, size: map<int, int>, bs: seq<Block>, k: nat, n: int)
    requires Represents(ptr, size, bs) && Ordered(bs) && 0 < k < |bs| && 0 < n <= bs[k].n
    ensures Represents(TakenPtr(ptr, bs, k, n), TakenSize(size, bs, k, n), Taken(bs, k, n))
  {
    var r, ptr', size' := Taken(bs, k, n), TakenPtr(ptr, bs, k, n), TakenSize(size, bs, k, n);
    OrderedWeak(bs);
    Increasing(bs);
    forall j | 0 <= j < |r| ensures HeaderAt(ptr', size', r, j) {
      var j' := if bs[k].n == n && j >= k then j + 1 else j;
      assert HeaderAt(ptr, size, bs, j') && r[j].a == bs[j'].a;
      assert j' != k ==> bs[j'].a != TakenAt(bs, k, n).a;
    }
  }

  /** Allocated blocks keep their length in their headers. */
  predicate LiveHeaders(size: map<int, int>, live: map<int, int>) {
    forall a :: a in live ==> a in size && size[a] == live[a]
  }

  lemma {:induction false} HeadersApart(bs: seq<Block>, live: map<int, int>, heap: set<int>, brk: int, i: nat)
    requires HeapInv(bs, live, heap, brk) && i < |bs|
    ensures bs[i].a !in live
  {
    var a := bs[i].a;
    assert i > 0 ==> bs[i].Has(a);
    assert a in live ==> Block(a, live[a]).Has(a);
    assert a in live ==> Live(live, a);
    assert Free(bs, a) || a == bs[0].a;
  }

  /** The address order always has a place for a block that overlaps no free one. */
  lemma {:induction false} FindPlace(bs: seq<Block>, b: Block) returns (t: nat)
    requires Ordered(bs) && Apart(bs, b)
    ensures Follows(bs, t, b)
  {
    t := 0;
    while t + 1 < |bs| && bs[t + 1].a < b.a
      invariant t < |bs| && bs[t].a < b.a
    {
      t := t + 1;
    }
  }

  /** Steps along a ring of n elements from i to f. */
  function Steps(i: int, f: int, n: int): (s: int)
    ensures 0 <= f && i < n ==> 0 <= s
  {
    if i <= f then f - i else f + n - i
  }

  /** Every block met since f, up to but not including the i-th, is too small. */
  predicate Searched(bs: seq<Block>, f: int, i: int, n: int) {
    forall m :: 0 <= m < |bs| && Steps(m, f, |bs|) > Steps(i, f, |bs|) ==> bs[m].n < n
  }

  function NextOf(i: nat, n: nat): nat {
    if i + 1 < n then i + 1 else 0
  }

  lemma {:induction false} SearchedNext(bs: seq<Block>, f: int, i: nat, n: int)
    requires 0 <= f < |bs| && 0 <= i < |bs| && i != f && Searched(bs, f, i, n) && bs[i].n < n
    ensures Searched(bs, f, NextOf(i, |bs|), n) && Steps(NextOf(i, |bs|), f, |bs|) == Steps(i, f, |bs|) - 1
  {
    forall m | 0 <= m < |bs| && Steps(m, f, |bs|) > Steps(NextOf(i, |bs|), f, |bs|) ensures bs[m].n < n {
      assert Steps(m, f, |bs|) == Steps(i, f, |bs|) ==> m == i;
    }
  }

  lemma {:induction false} SearchedStart(bs: seq<Block>, f: nat, n: int)
    requires 0 <= f < |bs|
    ensures Searched(bs, f, NextOf(f, |bs|), n)
  {
  }

  lemma {:induction false} SearchedAll(bs: seq<Block>, f: int, n: int)
    requires 0 <= f < |bs| && Searched(bs, f, f, n) && bs[f].n < n
    ensures forall m :: 0 <= m < |bs| ==> bs[m].n < n
  {
    forall m | 0 <= m < |bs| ensures bs[m].n < n {
      assert m != f ==> Steps(m, f, |bs|) > 0;
    }
  }

  /** Inserting a block leaves some block at least as large. */
  lemma {:induction false} InsertedFits(bs: seq<Block>, i: nat, b: Block)
    requires i < |bs| && (forall k :: 0 <= k < |bs| ==> 0 <= bs[k].n) && 0 < b.n
    ensures exists t :: 0 <= t < |Inserted(bs, i, b)| && b.n <= Inserted(bs, i, b)[t].n
  {
    var r1 := Placed(bs, i, b);
    var r2 := Merged(r1, i + 1);
    assert r2[i + 1].n >= b.n && r2[i].n >= 0;
    var r := Merged(r2, i);
    assert r == Inserted(bs, i, b);
    var t := if Touches(r2, i) then i else i + 1;
    assert t < |r| && b.n <= r[t].n;
  }

  /** Units malloc asks for: the payload rounded up, and one for the header. */
  function Units(nbytes: nat): nat {
    (nbytes + HEADER_BYTES - 1) / HEADER_BYTES + 1
  }

  class Allocator {
    const base: int
    var ptr: map<int, int>
    var size: map<int, int>
    var freep: int
    var brk: int
    ghost var blocks: seq<Block>
    ghost var live: map<int, int>
    ghost var heap: set<int>
    ghost var granted: set<int>
    ghost var grown: nat

    ghost predicate Valid()
      reads this
    {
      && 0 < base
      && Below(granted, brk)
      && HeapInv(blocks, live, heap, brk) && blocks[0] == Block(base, 0)
      && LiveHeaders(size, live)
      && (freep == 0 ==> blocks == [Block(base, 0)] && live == map[])
      && (freep != 0 ==> Represents(ptr, size, blocks) && exists j :: 0 <= j < |blocks| && blocks[j].a == freep)
    }

    /** Every unit the allocator deals in is one that sbrk granted. */
    ghost predicate Backed()
      reads this
    {
      heap <= granted
    }

    /** Before the first call: nothing obtained, nothing free. */
    constructor (b: int, brk0: int)
      requires 0 < b < brk0
      ensures Valid() && Backed() && base == b && live == map[] && heap == {} && grown == 0
    {
      base := b;
      ptr, size, freep, brk := map[], map[], 0, brk0;
      blocks, live, heap, granted, grown := [Block(b, 0)], map[], {}, {}, 0;
    }

    /** The scan of free: the free block that precedes bp in address order. */
    method Predecessor(bp: int) returns (p: int, ghost i: nat)
      requires Valid() && freep != 0 && bp in live
      ensures Follows(blocks, i, Block(bp, live[bp])) && blocks[i].a == p
      ensures HeaderAt(ptr, size, blocks, i)
    {
      hide HeapInv, Ordered, Apart, Represents, LiveHeaders;
      ghost var b := Block(bp, live[bp]);
      LiveApart(blocks, live, heap, brk, bp);
      ghost var t := FindPlace(blocks, b);
      p := freep;
      i :| i < |blocks| && blocks[i].a == p;
      RingAt(ptr, size, blocks, i);
      ScanStep(blocks, i, t, b);
      while !(p < bp < ptr[p])
        invariant i < |blocks| && blocks[i].a == p && HeaderAt(ptr, size, blocks, i)
        invariant Exits(blocks, i, b) ==> Follows(blocks, i, b)
        invariant Exits(blocks, i, b) || Steps(NextOf(i, |blocks|), t, |blocks|) < Steps(i, t, |blocks|)
        decreases Steps(i, t, |blocks|)
      {
        if p >= ptr[p] && (p < bp || bp < ptr[p]) {
          break;
        }
        i := NextOf(i, |blocks|);
        p := ptr[p];
        RingAt(ptr, size, blocks, i);
        ScanStep(blocks, i, t, b);
      }
    }

    /**
     The block at bp, allocated until now, joins the free list in address order
     and merges with the free neighbours it touches.
     */
    method Release(bp: int)
      requires Valid() && freep != 0 && bp in live
      modifies `ptr, `size, `freep, `blocks, `live
      ensures Valid() && freep != 0
      ensures live == old(live) - {bp}
      ensures exists i: nat :: i < |old(blocks)| && Follows(old(blocks), i, Block(bp, old(live)[bp]))
                               && blocks == Inserted(old(blocks), i, Block(bp, old(live)[bp]))
    {
      hide HeapInv, Ordered, Apart, Represents, LiveHeaders, Inserted, Partition;
      ghost var b := Block(bp, live[bp]);
      var p; ghost var i;
      p, i := Predecessor(bp);
      var q := ptr[p];
      FreedMatches(ptr, size, blocks, live, heap, brk, i, bp);
      if bp + size[bp] == q {
        size := size[bp := size[bp] + size[q]];
        ptr := ptr[bp := ptr[q]];
      } else {
        ptr := ptr[bp := q];
      }
      if p + size[p] == bp {
        size := size[p := size[p] + size[bp]];
        ptr := ptr[p := ptr[bp]];
      } else {
        ptr := ptr[p := bp];
      }
      freep := p;
      assert ptr == FreedPtr(old(ptr), blocks, i, b);
      assert size == FreedSize(old(size), blocks, i, b);
      blocks, live := Inserted(blocks, i, b), live - {bp};
    }

    /** Asks for more memory: region is what sbrk answers, -1 when it refuses. */
    method Morecore(nu: nat, region: int) returns (p: int)
      requires Valid() && freep != 0 && 0 < nu && (region == -1 || brk <= region)
      modifies this
      ensures Valid() && freep != 0 && live == old(live)
      ensures region == -1 ==>
                p == 0 && blocks == old(blocks) && heap == old(heap) && brk == old(brk) && freep == old(freep)
      ensures granted == Sbrk(old(granted), region, ToInt(Grow(nu) * HEADER_BYTES))
      ensures region != -1 && old(Backed()) ==>
                (Backed() <==> ToInt(Grow(nu) * HEADER_BYTES) == Grow(nu) * HEADER_BYTES)
      ensures region != -1 ==> p == freep && brk == region + Grow(nu)
      ensures region != -1 ==> heap == old(heap) + Block(region, Grow(nu)).Units()
      ensures region != -1 ==> GrewTo(old(blocks), blocks, Block(region, Grow(nu)))
      ensures grown == old(grown) + 1
    {
      hide HeapInv, Ordered, Represents, LiveHeaders, Inserted, Block.Units, Below, Sbrk, ToInt;
      var n := if nu < MIN_GROW then MIN_GROW else nu;
      grown := grown + 1;
      GrantExactly(heap, granted, brk, region, n);
      granted := Sbrk(granted, region, ToInt(n * HEADER_BYTES));
      if region == -1 {
        return 0;
      }
      GrowKeeps(blocks, live, heap, brk, region, n);
      GrowHeaders(ptr, size, blocks, live, heap, brk, region, n);
      size := size[region := n];
      live, heap, brk := live[region := n], heap + Block(region, n).Units(), region + n;
      Release(region);
      assert live == old(live);
      return freep;
    }

    /** Takes nunits from the end of the block at p, or unlinks it when it fits exactly. */
    method Carve(prevp: int, p: int, nunits: nat, ghost k: nat) returns (r: int)
      requires Valid() && freep != 0 && 0 < k < |blocks| && blocks[k].a == p && blocks[k - 1].a == prevp
      requires 0 < nunits <= blocks[k].n
      modifies `ptr, `size, `freep, `blocks, `live
      ensures Valid() && freep == prevp != 0
      ensures r == TakenAt(old(blocks), k, nunits).a + 1 && 0 < r
      ensures blocks == Taken(old(blocks), k, nunits)
      ensures r - 1 !in old(live) && live == old(live)[r - 1 := nunits]
    {
      hide HeapInv, Ordered, Represents, LiveHeaders, Taken;
      TakenMatches(ptr, size, blocks, live, heap, brk, k, nunits);
      var q := p;
      if size[p] == nunits {
        ptr := ptr[prevp := ptr[p]];
      } else {
        size := size[p := size[p] - nunits];
        q := p + size[p];
        size := size[q := nunits];
      }
      freep := prevp;
      assert ptr == TakenPtr(old(ptr), blocks, k, nunits);
      assert size == TakenSize(old(size), blocks, k, nunits);
      blocks, live := Taken(blocks, k, nunits), live[q := nunits];
      return q + 1;
    }

    /** freep, after the first call has made a ring of the base alone. */
    method First() returns (prevp: int)
      requires Valid()
      modifies `ptr, `size, `freep
      ensures Valid() && prevp == freep != 0
      ensures freep == if old(freep) == 0 then base else old(freep)
    {
      hide HeapInv, Represents, LiveHeaders;
      prevp := freep;
      if prevp == 0 {
        EmptyRing(ptr, size, base);
        ptr, freep, prevp := ptr[base := base], base, base;
        size := size[base := 0];
        assert blocks[0].a == freep;
      }
    }

    /**
     First fit.  The units after the header hold nbytes bytes and no fewer units would.
     mid is the free list the block was taken from, at its k-th element: the list on entry
     when some block on it fits, else that list with what morecore recorded inserted.  The
     call fails exactly when no block fits and sbrk refuses, and the allocator comes to deal
     in memory it does not have exactly when it asks for more than an int can say.
     */
    method Malloc(nbytes: nat, region: int) returns (r: int, ghost mid: seq<Block>, ghost k: nat)
      requires Valid() && (region == -1 || brk <= region) && nbytes < 0x1_0000_0000
      modifies this
      ensures Valid() && freep != 0
      ensures r == 0 <==> AllSmall(old(blocks), Units(nbytes)) && region == -1
      ensures r == 0 ==> live == old(live) && blocks == old(blocks)
      ensures heap == if AllSmall(old(blocks), Units(nbytes)) && region != -1
                      then old(heap) + Block(region, Grow(Units(nbytes))).Units() else old(heap)
      ensures grown == old(grown) + if AllSmall(old(blocks), Units(nbytes)) then 1 else 0
      ensures old(Backed()) ==>
                (Backed() <==> !AllSmall(old(blocks), Units(nbytes)) || region == -1 || nbytes <= MAX_REQUEST)
      ensures r != 0 ==> k < |mid| && Units(nbytes) <= mid[k].n
      ensures r != 0 ==> r == TakenAt(mid, k, Units(nbytes)).a + 1 && blocks == Taken(mid, k, Units(nbytes))
      ensures r != 0 ==> r - 1 !in old(live) && live == old(live)[r - 1 := Units(nbytes)]
      ensures r != 0 ==> (live[r - 1] - 2) * HEADER_BYTES < nbytes <= (live[r - 1] - 1) * HEADER_BYTES
      ensures r != 0 && AllSmall(old(blocks), Units(nbytes)) ==>
                GrewTo(old(blocks), mid, Block(region, Grow(Units(nbytes))))
      ensures r != 0 && !AllSmall(old(blocks), Units(nbytes)) ==>
                mid == old(blocks) && FirstFit(mid, if old(freep) == 0 then base else old(freep), k, Units(nbytes))
    {
      hide HeapInv, Represents, LiveHeaders, Taken, Block.Units, GrewTo, AllSmall, FirstFit, Units, Grow, Below;
      hide Sbrk, ToInt;
      UnitsHold(nbytes);
      RequestExactly(nbytes);
      GrantExactly(heap, granted, brk, region, Grow(Units(nbytes)));
      r, mid, k := Take(Units(nbytes), region);
    }

    lemma RingStands()
      requires Valid() && freep != 0
      ensures Represents(ptr, size, blocks) && Ordered(blocks) && exists j :: 0 <= j < |blocks| && blocks[j].a == freep
    {
    }

    /** The search for nunits. */
    method Take(nunits: nat, region: int) returns (r: int, ghost mid: seq<Block>, ghost k: nat)
      requires Valid() && (region == -1 || brk <= region) && 0 < nunits <= Grow(nunits)
      modifies this
      ensures Valid() && freep != 0
      ensures r == 0 <==> AllSmall(old(blocks), nunits) && region == -1
      ensures r == 0 ==> live == old(live) && blocks == old(blocks)
      ensures heap == if AllSmall(old(blocks), nunits) && region != -1
                      then old(heap) + Block(region, Grow(nunits)).Units() else old(heap)
      ensures granted == if AllSmall(old(blocks), nunits)
                         then Sbrk(old(granted), region, ToInt(Grow(nunits) * HEADER_BYTES)) else old(granted)
      ensures grown == old(grown) + if AllSmall(old(blocks), nunits) then 1 else 0
      ensures r != 0 ==> k < |mid| && nunits <= mid[k].n
      ensures r != 0 ==> r == TakenAt(mid, k, nunits).a + 1 && blocks == Taken(mid, k, nunits)
      ensures r != 0 ==> r - 1 !in old(live) && live == old(live)[r - 1 := nunits]
      ensures r != 0 && AllSmall(old(blocks), nunits) ==> GrewTo(old(blocks), mid, Block(region, Grow(nunits)))
      ensures r != 0 && !AllSmall(old(blocks), nunits) ==>
                mid == old(blocks) && FirstFit(mid, if old(freep) == 0 then base else old(freep), k, nunits)
    {
      hide Valid, Ordered, Represents, Taken, Block.Units, GrewTo, AllSmall, Cursor, FirstFit, NextOf, Steps;
      hide Grow, Sbrk, ToInt;
      mid, k := blocks, 0;
      var prevp := First();
      RingStands();
      ghost var start := freep;
      ghost var f: nat :| f < |blocks| && blocks[f].a == freep;
      ghost var pi: nat, i: nat := f, NextOf(f, |blocks|);
      CursorStart(ptr, size, blocks, f, nunits);
      var p := ptr[prevp];
      ghost var more := false;
      while true
        invariant Valid() && freep != 0 && live == old(live)
        invariant f < |blocks| && pi < |blocks| && i < |blocks| && blocks[i].a == p
        invariant Cursor(blocks, freep, f, prevp, pi, p, i, nunits)
        invariant HeaderAt(ptr, size, blocks, i)
        invariant grown == old(grown) + if more then 1 else 0
        invariant !more ==>
                    blocks == old(blocks) && heap == old(heap) && granted == old(granted) && brk == old(brk) &&
                        freep == start
        invariant more ==> granted == Sbrk(old(granted), region, ToInt(Grow(nunits) * HEADER_BYTES))
        invariant more ==> region != -1 && AllSmall(old(blocks), nunits) && !AllSmall(blocks, nunits)
        invariant more ==> heap == old(heap) + Block(region, Grow(nunits)).Units()
        invariant more ==> GrewTo(old(blocks), blocks, Block(region, Grow(nunits)))
        decreases if more then 0 else 1, Steps(i, f, |blocks|)
      {
        RingStands();
        if size[p] >= nunits {
          CursorFits(blocks, freep, f, prevp, pi, p, i, nunits);
          mid, k := blocks, i;
          r := Carve(prevp, p, nunits, i);
          return;
        }
        if p == freep {
          CursorEnd(blocks, freep, f, prevp, pi, p, i, nunits);
          ghost var before := blocks;
          p := Morecore(nunits, region);
          if p == 0 {
            return 0, mid, k;
          }
          GrownFits(before, blocks, Block(region, Grow(nunits)), nunits);
          more := true;
          RingStands();
          f :| f < |blocks| && blocks[f].a == freep;
          pi, i := f, NextOf(f, |blocks|);
          CursorStart(ptr, size, blocks, f, nunits);
        } else {
          CursorStep(ptr, size, blocks, freep, f, prevp, pi, p, i, nunits);
          pi, i := i, NextOf(i, |blocks|);
        }
        prevp := p;
        p := ptr[p];
      }
    }
  }

  lemma UnitsHold(nbytes: nat)
    ensures 0 < Units(nbytes) <= Grow(Units(nbytes))
    ensures (Units(nbytes) - 2) * HEADER_BYTES < nbytes <= (Units(nbytes) - 1) * HEADER_BYTES
  {
  }

  function Grow(nu: nat): nat {
    if nu < MIN_GROW then MIN_GROW else nu
  }

  predicate AllSmall(bs: seq<Block>, n: nat) {
    forall m :: 0 <= m < |bs| ==> bs[m].n < n
  }

  /** bs' is bs with b inserted in its place. */
  ghost predicate GrewTo(bs: seq<Block>, bs': seq<Block>, b: Block) {
    exists i: nat :: i < |bs| && Follows(bs, i, b) && bs' == Inserted(bs, i, b)
  }

  /** The k-th block is the first large enough after the one at address f, going round. */
  ghost predicate FirstFit(bs: seq<Block>, f: int, k: nat, n: nat) {
    k < |bs| && n <= bs[k].n && exists j :: 0 <= j < |bs| && bs[j].a == f && Searched(bs, j, k, n)
  }

  /** The conditions on which the scan of free stops at the i-th block. */
  predicate Exits(bs: seq<Block>, i: nat, b: Block)
    requires i < |bs|
  {
    var p, q := bs[i].a, Succ(bs, i);
    p < b.a < q || (p >= q && (p < b.a || b.a < q))
  }

  lemma {:induction false} ScanStep(bs: seq<Block>, i: nat, t: nat, b: Block)
    requires Ordered(bs) && Apart(bs, b) && i < |bs| && Follows(bs, t, b)
    ensures Exits(bs, i, b) <==> Follows(bs, i, b)
    ensures Exits(bs, i, b) || Steps(NextOf(i, |bs|), t, |bs|) < Steps(i, t, |bs|)
  {
    OrderedWeak(bs);
    Increasing(bs);
  }

  /** The two merges leave in memory the list with the block inserted. */
  lemma {:induction false} FreedMatches(ptr: map<int, int>, size: map<int, int>, bs: seq<Block>,
      live: map<int, int>, heap: set<int>, brk: int, i: nat, a: int)
    requires HeapInv(bs, live, heap, brk) && Represents(ptr, size, bs) && LiveHeaders(size, live)
    requires a in live && Follows(bs, i, Block(a, live[a]))
    ensures a in size && size[a] == live[a] && bs[i].a != a && HeaderAt(ptr, size, bs, i)
    ensures i + 1 < |bs| ==> HeaderAt(ptr, size, bs, i + 1)
    ensures bs[0].a < a + live[a] && bs[0].a <= bs[i].a
    ensures var b := Block(a, live[a]);
            && Represents(FreedPtr(ptr, bs, i, b), FreedSize(size, bs, i, b), Inserted(bs, i, b))
            && HeapInv(Inserted(bs, i, b), live - {a}, heap, brk)
            && LiveHeaders(FreedSize(size, bs, i, b), live - {a})
            && Inserted(bs, i, b)[0] == bs[0]
            && exists j :: 0 <= j < |Inserted(bs, i, b)| && Inserted(bs, i, b)[j].a == bs[i].a
  {
    hide Ordered, Apart, Partition, Inserted;
    var b := Block(a, live[a]);
    LiveApart(bs, live, heap, brk, a);
    assert Ordered(bs) && bs[0].a < b.a && bs[0].a <= bs[i].a by {
      OrderedWeak(bs);
      ApartAbove(bs, b);
      LowestFirst(bs, i);
    }
    FreedRepresented(ptr, size, bs, i, b);
    ReleaseKeeps(bs, live, heap, brk, a, i);
    HeadersApart(bs, live, heap, brk, i);
    InsertedHeads(bs, b, i);
  }

  lemma {:induction false} LowestFirst(bs: seq<Block>, i: nat)
    requires Weak(bs) && i < |bs|
    ensures bs[0].a <= bs[i].a
  {
  }

  lemma {:induction false} ApartAbove(bs: seq<Block>, b: Block)
    requires Apart(bs, b)
    ensures bs[0].a < b.a && 0 < b.n
  {
  }

  lemma {:induction false} InsertedHeads(bs: seq<Block>, b: Block, i: nat)
    requires Ordered(bs) && Apart(bs, b) && Follows(bs, i, b)
    ensures Inserted(bs, i, b)[0] == bs[0]
    ensures exists j :: 0 <= j < |Inserted(bs, i, b)| && Inserted(bs, i, b)[j].a == bs[i].a
  {
    InsertedOrdered(bs, b, i);
    assert Inserted(bs, i, b)[i].a == bs[i].a;
  }

  lemma {:induction false} LiveApart(bs: seq<Block>, live: map<int, int>, heap: set<int>, brk: int, a: int)
    requires HeapInv(bs, live, heap, brk) && a in live
    ensures Ordered(bs) && Apart(bs, Block(a, live[a]))
  {
    var b := Block(a, live[a]);
    assert forall u :: b.Has(u) ==> Live(live, u);
    assert b.Has(a);
    ApartByUnits(bs, b);
  }

  lemma RingAt(ptr: map<int, int>, size: map<int, int>, bs: seq<Block>, j: nat)
    requires Represents(ptr, size, bs) && j < |bs|
    ensures HeaderAt(ptr, size, bs, j)
  {
  }

  lemma {:induction false} GrowHeaders(ptr: map<int, int>, size: map<int, int>, bs: seq<Block>,
      live: map<int, int>, heap: set<int>, brk: int, p: int, n: int)
    requires HeapInv(bs, live, heap, brk) && Represents(ptr, size, bs) && LiveHeaders(size, live) && brk <= p
    ensures Represents(ptr, size[p := n], bs) && LiveHeaders(size[p := n], live[p := n]) && p !in live
  {
    assert p in live ==> Block(p, live[p]).Has(p);
    assert p in live ==> Live(live, p);
    var size' := size[p := n];
    forall i | 0 <= i < |bs| ensures HeaderAt(ptr, size', bs, i) {
      assert HeaderAt(ptr, size, bs, i);
      assert i > 0 ==> bs[i].Has(bs[i].a);
      assert Free(bs, bs[i].a) || i == 0;
    }
  }

  lemma {:induction false} TakenMatches(ptr: map<int, int>, size: map<int, int>, bs: seq<Block>,
      live: map<int, int>, heap: set<int>, brk: int, k: nat, n: nat)
    requires HeapInv(bs, live, heap, brk) && Represents(ptr, size, bs) && LiveHeaders(size, live)
    requires 0 < k < |bs| && 0 < n <= bs[k].n
    ensures HeaderAt(ptr, size, bs, k) && HeaderAt(ptr, size, bs, k - 1) && bs[0].a <= bs[k - 1].a
    ensures bs[0].a < TakenAt(bs, k, n).a
    ensures var b := TakenAt(bs, k, n);
            && b.a !in live
            && Represents(TakenPtr(ptr, bs, k, n), TakenSize(size, bs, k, n), Taken(bs, k, n))
            && HeapInv(Taken(bs, k, n), live[b.a := n], heap, brk)
            && LiveHeaders(TakenSize(size, bs, k, n), live[b.a := n])
            && Taken(bs, k, n)[0] == bs[0]
            && exists j :: 0 <= j < |Taken(bs, k, n)| && Taken(bs, k, n)[j].a == bs[k - 1].a
  {
    hide Partition;
    TakenRepresented(ptr, size, bs, k, n);
    TakeKeeps(bs, live, heap, brk, k, n);
    HeadersApart(bs, live, heap, brk, k);
    assert Taken(bs, k, n)[k - 1].a == bs[k - 1].a;
  }

  /** The first call starts the ring at the base alone. */
  lemma {:induction false} EmptyRing(ptr: map<int, int>, size: map<int, int>, base: int)
    ensures Represents(ptr[base := base], size[base := 0], [Block(base, 0)])
    ensures LiveHeaders(size[base := 0], map[])
  {
  }

  /**
   The cursor of malloc's loop: prevp and p are neighbours on the ring and every
   block met since freep is too small.
   */
  ghost predicate Cursor(bs: seq<Block>, freep: int, f: nat, prevp: int, pi: nat, p: int, i: nat, n: nat) {
    && f < |bs| && bs[f].a == freep
    && pi < |bs| && bs[pi].a == prevp
    && i == NextOf(pi, |bs|) && bs[i].a == p
    && Searched(bs, f, i, n)
  }

  lemma {:induction false} CursorStart(ptr: map<int, int>, size: map<int, int>, bs: seq<Block>, f: nat, n: nat)
    requires Represents(ptr, size, bs) && f < |bs|
    ensures HeaderAt(ptr, size, bs, f) && HeaderAt(ptr, size, bs, NextOf(f, |bs|))
    ensures Cursor(bs, bs[f].a, f, bs[f].a, f, ptr[bs[f].a], NextOf(f, |bs|), n)
    ensures bs[NextOf(f, |bs|)].a == ptr[bs[f].a]
  {
    SearchedStart(bs, f, n);
  }

  lemma {:induction false} CursorStep(ptr: map<int, int>, size: map<int, int>, bs: seq<Block>,
      freep: int, f: nat, prevp: int, pi: nat, p: int, i: nat, n: nat)
    requires Represents(ptr, size, bs) && Cursor(bs, freep, f, prevp, pi, p, i, n)
    requires bs[i].n < n && p != freep
    ensures HeaderAt(ptr, size, bs, i) && HeaderAt(ptr, size, bs, NextOf(i, |bs|))
    ensures Cursor(bs, freep, f, p, i, ptr[p], NextOf(i, |bs|), n) && bs[NextOf(i, |bs|)].a == ptr[p]
    ensures Steps(NextOf(i, |bs|), f, |bs|) < Steps(i, f, |bs|)
  {
    hide Searched;
    SearchedNext(bs, f, i, n);
  }

  lemma {:induction false} CursorEnd(bs: seq<Block>, freep: int, f: nat, prevp: int, pi: nat, p: int, i: nat, n: nat)
    requires Ordered(bs) && Cursor(bs, freep, f, prevp, pi, p, i, n) && bs[i].n < n && p == freep
    ensures AllSmall(bs, n)
  {
    hide Searched;
    OrderedWeak(bs);
    Increasing(bs);
    assert i == f;
    SearchedAll(bs, f, n);
  }

  /** A block that fits is not the base, so its predecessor on the ring is the one before it. */
  lemma {:induction false} CursorFits(bs: seq<Block>, freep: int, f: nat, prevp: int, pi: nat, p: int, i: nat, n: nat)
    requires Ordered(bs) && Cursor(bs, freep, f, prevp, pi, p, i, n) && 0 < n <= bs[i].n
    ensures 0 < i && bs[i - 1].a == prevp && FirstFit(bs, freep, i, n) && !AllSmall(bs, n)
  {
  }

  lemma {:induction false} GrownFits(bs: seq<Block>, bs': seq<Block>, b: Block, n: nat)
    requires Ordered(bs) && GrewTo(bs, bs', b) && 0 < n <= b.n
    ensures !AllSmall(bs', n)
  {
    var i: nat :| i < |bs| && Follows(bs, i, b) && bs' == Inserted(bs, i, b);
    InsertedFits(bs, i, b);
  }

  // ------------------------------------------------------------------
  // What the invariant determines

  lemma {:induction false} BetweenBlocks(bs: seq<Block>, k: nat, u: int)
    requires Ordered(bs) && k <= |bs| && (k > 0 ==> bs[k - 1].End() <= u) && (k < |bs| ==> u < bs[k].a)
    ensures !Free(bs, u)
  {
    forall i | 0 <= i < |bs| ensures !bs[i].Has(u) {
      assert i + 1 < k ==> bs[i].End() < bs[k - 1].a;
      assert k < i ==> bs[k].End() < bs[i].a;
    }
  }

  lemma {:induction false} StartsNoLater(bs: seq<Block>, bs': seq<Block>, k: nat)
    requires Ordered(bs) && Ordered(bs') && (forall u :: Free(bs, u) ==> Free(bs', u))
    requires 0 < k < |bs| && k <= |bs'| && bs[k - 1] == bs'[k - 1]
    ensures k < |bs'| && bs'[k].a <= bs[k].a
  {
    var u := bs[k].a;
    assert bs[k].Has(u) && Free(bs, u);
    if k == |bs'| || u < bs'[k].a {
      BetweenBlocks(bs', k, u);
    }
  }

  lemma {:induction false} EndsNoEarlier(bs: seq<Block>, bs': seq<Block>, k: nat)
    requires Ordered(bs) && Ordered(bs') && (forall u :: Free(bs', u) ==> Free(bs, u))
    requires 0 < k < |bs| && k < |bs'| && bs[k].a == bs'[k].a
    ensures bs'[k].n <= bs[k].n
  {
    if bs[k].n < bs'[k].n {
      var u := bs[k].End();
      assert bs'[k].Has(u) && Free(bs', u);
      BetweenBlocks(bs, k + 1, u);
    }
  }

  /** The free units and the base determine the free list: nothing is split that could be whole. */
  lemma {:induction false} Canonical(bs: seq<Block>, bs': seq<Block>)
    requires Ordered(bs) && Ordered(bs') && bs[0] == bs'[0] && forall u :: Free(bs, u) <==> Free(bs', u)
    ensures bs == bs'
  {
    var k := 1;
    while k < |bs| && k < |bs'|
      invariant 0 < k <= |bs| && k <= |bs'| && bs[..k] == bs'[..k]
    {
      assert bs[k - 1] == bs[..k][k - 1] == bs'[k - 1];
      StartsNoLater(bs, bs', k);
      StartsNoLater(bs', bs, k);
      EndsNoEarlier(bs, bs', k);
      EndsNoEarlier(bs', bs, k);
      k := k + 1;
    }
    assert bs[k - 1] == bs[..k][k - 1] == bs'[k - 1];
    if k < |bs| {
      StartsNoLater(bs, bs', k);
    }
    if k < |bs'| {
      StartsNoLater(bs', bs, k);
    }
    assert bs == bs[..k] && bs' == bs'[..k];
  }

  /**
   With the same memory obtained and the same blocks allocated, the free list is
   the same: allocating and then releasing leaves no trace of the order.
   */
  lemma {:induction false} SameFreeList(bs: seq<Block>, bs': seq<Block>, live: map<int, int>, heap: set<int>, brk: int)
    requires HeapInv(bs, live, heap, brk) && HeapInv(bs', live, heap, brk) && bs[0] == bs'[0]
    ensures bs == bs'
  {
    assert forall u :: Free(bs, u) <==> u in heap && !Live(live, u);
    assert forall u :: Free(bs', u) <==> u in heap && !Live(live, u);
    Canonical(bs, bs');
  }

  /** The low 32 bits of x as a C int, which is what sbrk receives. */
  function ToInt(x: nat): int {
    var w := x % 0x1_0000_0000;
    if w < 0x8000_0000 then w else w - 0x1_0000_0000
  }

  predicate Below(units: set<int>, limit: int) {
    forall u :: u in units ==> u < limit
  }

  /** What the process has after sbrk(amount) answered region: more from there on, or less below it. */
  ghost function Sbrk(granted: set<int>, region: int, amount: int): set<int> {
    if region == -1 then granted
    else if amount >= 0 then granted + Block(region, amount / HEADER_BYTES).Units()
    else set u | u in granted && u < region + amount / HEADER_BYTES
  }

  /** What morecore records is backed exactly when sbrk was asked for that much. */
  lemma {:induction false} GrantExactly(heap: set<int>, granted: set<int>, brk: int, region: int, n: nat)
    requires 0 < n && Below(granted, brk) && (region == -1 || brk <= region)
    ensures var granted' := Sbrk(granted, region, ToInt(n * HEADER_BYTES));
            && (region == -1 ==> granted' == granted)
            && (region != -1 ==> Below(granted', region + n))
            && (region != -1 && heap <= granted ==>
                  (heap + Block(region, n).Units() <= granted' <==> ToInt(n * HEADER_BYTES) == n * HEADER_BYTES))
  {
    var granted' := Sbrk(granted, region, ToInt(n * HEADER_BYTES));
    if region != -1 {
      assert ToInt(n * HEADER_BYTES) / HEADER_BYTES <= n;
      var last := region + n - 1;
      assert last in Block(region, n).Units();
      assert last in granted' <==> ToInt(n * HEADER_BYTES) == n * HEADER_BYTES;
    }
  }

  /** The byte count handed to sbrk is the one meant exactly up to MAX_REQUEST. */
  lemma {:induction false} RequestExactly(nbytes: nat)
    requires nbytes < 0x1_0000_0000
    ensures ToInt(Grow(Units(nbytes)) * HEADER_BYTES) == Grow(Units(nbytes)) * HEADER_BYTES <==> nbytes <= MAX_REQUEST
  {
  }

  /** Above MAX_REQUEST it is negative, and for the last 31 requests a uint can make, none or one header. */
  lemma {:induction false} RequestRanges(nbytes: nat)
    requires nbytes < 0x1_0000_0000
    ensures var asked := ToInt(Grow(Units(nbytes)) * HEADER_BYTES);
            && (asked < 0 <==> MAX_REQUEST < nbytes <= 0xffff_ffe0)
            && (0 <= asked < Grow(Units(nbytes)) * HEADER_BYTES <==> 0xffff_ffe0 < nbytes)
            && (0xffff_ffe0 < nbytes ==> asked == if nbytes <= 0xffff_fff0 then 0 else HEADER_BYTES)
  {
  }
}
