/**
 The request queue of kernel/virtio_disk.c (the split virtqueue of section 2.6 and the
 block requests of section 5.2.6 of Virtio 1.1): three-descriptor chains, the ring of
 published chains and the ring of completed ones.

 The driver's methods run under vdisk_lock.  The device takes published chains in
 order and completes those it has taken in any order, each once, with status 0.
 */
module Virtqueue {
  import Sets

  const NUM: nat := 8
  const WRAP: nat := 0x1_0000

  datatype Desc = Desc(next: int, hasNext: bool)

  datatype Info = Info(b: int, status: int)

  datatype Phase = Posted | Taken | Completed | Handled

  /** A request: the second and third descriptor of its chain, its buffer and how far it has got. */
  datatype Req = Req(d1: int, d2: int, buf: int, phase: Phase)

  const NO_OWNER: int := -1

  /**
   The queue.  posted and completed are the chains in each ring not yet taken by the
   other side; published, taken, returned and handled count for ever.
   */
  datatype Vq = Vq(free: seq<bool>, desc: seq<Desc>, info: seq<Info>, avail: seq<int>, elems: seq<int>,
      disk: map<int, bool>,
                   owner: seq<int>, reqs: map<int, Req>, posted: seq<int>, completed: seq<int>, taken: nat,
                       handled: nat)

  predicate InChain(h: int, r: Req, i: int) {
    i == h || i == r.d1 || i == r.d2
  }

  // ------------------------------------------------------------------
  // The invariant

  predicate Sized(s: Vq) {
    |s.free| == |s.desc| == |s.info| == |s.avail| == |s.elems| == |s.owner| == NUM
  }

  predicate DescAt(s: Vq, i: int)
    requires Sized(s)
  {
    0 <= i < NUM ==>
      && (s.free[i] <==> s.owner[i] == NO_OWNER)
      && (s.owner[i] != NO_OWNER ==> s.owner[i] in s.reqs && InChain(s.owner[i], s.reqs[s.owner[i]], i))
  }

  /** A request's chain is its own three descriptors, linked in order; its buffer is busy until it is handled. */
  predicate ReqAt(s: Vq, h: int)
    requires Sized(s)
  {
    h in s.reqs ==>
      var r := s.reqs[h];
      && 0 <= h < NUM && 0 <= r.d1 < NUM && 0 <= r.d2 < NUM && h != r.d1 && h != r.d2 && r.d1 != r.d2
      && s.owner[h] == h && s.owner[r.d1] == h && s.owner[r.d2] == h
      && s.desc[h] == Desc(r.d1, true) && s.desc[r.d1] == Desc(r.d2, true) && !s.desc[r.d2].hasNext
      && s.info[h] == Info(r.buf, 0)
      && (r.phase == Posted <==> h in s.posted) && (r.phase == Completed <==> h in s.completed)
      && r.buf in s.disk && s.disk[r.buf] == (r.phase != Handled)
  }

  predicate RingAt(ring: seq<int>, start: nat, queue: seq<int>, j: int)
    requires |ring| == NUM
  {
    0 <= j < |queue| ==> ring[(start + j) % NUM] == queue[j]
  }

  predicate Distinct(q: seq<int>) {
    forall i, j :: 0 <= i < j < |q| ==> q[i] != q[j]
  }

  predicate OneEach(reqs: map<int, Req>) {
    forall g, h :: g in reqs && h in reqs && reqs[g].buf == reqs[h].buf ==> g == h
  }

  ghost predicate Inv(s: Vq) {
    && Sized(s)
    && (forall i :: DescAt(s, i))
    && (forall h :: ReqAt(s, h))
    && Distinct(s.posted) && Distinct(s.completed) && OneEach(s.reqs)
    && (forall h :: h in s.posted ==> h in s.reqs) && (forall h :: h in s.completed ==> h in s.reqs)
    && (forall j :: RingAt(s.avail, s.taken, s.posted, j))
    && (forall j :: RingAt(s.elems, s.handled, s.completed, j))
  }

  // ------------------------------------------------------------------
  // Counting

  lemma {:induction false} ElementsOf(q: seq<int>, keys: set<int>)
    requires Distinct(q) && forall h :: h in q ==> h in keys
    ensures |q| <= |keys|
    decreases |q|
  {
    if q != [] {
      var x := q[|q| - 1];
      var q' := q[..|q| - 1];
      assert q[|q| - 1] in q;
      forall h | h in q' ensures h in keys - {x} {
        var i :| 0 <= i < |q'| && q'[i] == h;
        assert q[i] == h && h in q;
      }
      ElementsOf(q', keys - {x});
    }
  }

  /** Eight descriptors make at most two chains. */
  lemma {:induction false} AtMostTwo(s: Vq)
    requires Inv(s)
    ensures |s.reqs.Keys| <= 2 && |s.posted| <= 2 && |s.completed| <= 2
  {
    var keys := s.reqs.Keys;
    if |keys| > 2 {
      var a := Sets.Pick(keys);
      assert |keys - {a}| == |keys| - 1;
      var b := Sets.Pick(keys - {a});
      assert |keys - {a} - {b}| == |keys| - 2;
      var c := Sets.Pick(keys - {a} - {b});
      NoThird(s, a, b, c);
    }
    ElementsOf(s.posted, keys);
    ElementsOf(s.completed, keys);
  }

  ghost function Owned(s: Vq, h: int): set<int>
    requires Sized(s)
  {
    set i | 0 <= i < NUM && s.owner[i] == h
  }

  lemma {:induction false} ChainSize(s: Vq, h: int)
    requires Inv(s) && h in s.reqs
    ensures 3 <= |Owned(s, h)|
  {
    assert ReqAt(s, h);
    var r := s.reqs[h];
    assert |{h, r.d1, r.d2}| == 3;
    Sets.SubsetSize({h, r.d1, r.d2}, Owned(s, h));
  }

  lemma {:induction false} NoThird(s: Vq, a: int, b: int, c: int)
    requires Inv(s) && a in s.reqs && b in s.reqs && a != b && a != c && b != c
    ensures c !in s.reqs
  {
    hide ReqAt, DescAt, RingAt, Distinct, OneEach;
    if c in s.reqs {
      ChainSize(s, a);
      ChainSize(s, b);
      ChainSize(s, c);
      TooMany(Owned(s, a), Owned(s, b), Owned(s, c), NUM);
    }
  }

  lemma {:induction false} TooMany(x: set<int>, y: set<int>, z: set<int>, n: nat)
    requires x !! y && x !! z && y !! z && forall i :: i in x + y + z ==> 0 <= i < n
    ensures |x| + |y| + |z| <= n
  {
    assert |x + y| == |x| + |y|;
    assert (x + y) !! z;
    assert |x + y + z| == |x + y| + |z|;
    Sets.SubsetSize(x + y + z, Sets.Indices(n));
  }

  lemma {:induction false} OwnedIs(s: Vq, h: int)
    requires Inv(s) && h in s.reqs
    ensures Owned(s, h) == {h, s.reqs[h].d1, s.reqs[h].d2} && |Owned(s, h)| == 3
  {
    assert ReqAt(s, h);
    forall i | i in Owned(s, h) ensures i in {h, s.reqs[h].d1, s.reqs[h].d2} {
      assert DescAt(s, i);
    }
  }

  /** Three descriptors are free exactly when fewer than two requests are in flight. */
  lemma {:induction false} RoomExactly(s: Vq)
    requires Inv(s)
    ensures |s.free| == NUM && ((exists a, b, c :: FreeTriple(s.free, a, b, c)) <==> |s.reqs| < 2)
  {
    hide ReqAt, RingAt, Distinct, OneEach, FreeTriple;
    AtMostTwo(s);
    if |s.reqs| == 2 {
      var g := Sets.Pick(s.reqs.Keys);
      assert |s.reqs.Keys - {g}| == 1;
      var h := Sets.Pick(s.reqs.Keys - {g});
      forall a, b, c ensures !FreeTriple(s.free, a, b, c) {
        NoTriple(s, g, h, a, b, c);
      }
    } else {
      SomeTriple(s);
    }
  }

  lemma {:induction false} NoTriple(s: Vq, g: int, h: int, a: int, b: int, c: int)
    requires Inv(s) && g in s.reqs && h in s.reqs && g != h
    ensures !FreeTriple(s.free, a, b, c)
  {
    hide ReqAt, RingAt, Distinct, OneEach;
    if FreeTriple(s.free, a, b, c) {
      OwnedIs(s, g);
      OwnedIs(s, h);
      assert DescAt(s, a) && DescAt(s, b) && DescAt(s, c);
      NotOwner(s, g);
      NotOwner(s, h);
      assert |{a, b, c}| == 3;
      TooMany(Owned(s, g), Owned(s, h), {a, b, c}, NUM);
    }
  }

  lemma NotOwner(s: Vq, g: int)
    requires Inv(s) && g in s.reqs
    ensures g != NO_OWNER
  {
    assert ReqAt(s, g);
  }

  lemma {:induction false} SomeTriple(s: Vq)
    requires Inv(s) && |s.reqs| < 2
    ensures exists a, b, c :: FreeTriple(s.free, a, b, c)
  {
    hide ReqAt, RingAt, Distinct, OneEach;
    var used: set<int> := {};
    if s.reqs != map[] {
      var h := Sets.Pick(s.reqs.Keys);
      assert |s.reqs.Keys - {h}| == 0;
      assert s.reqs.Keys == {h};
      OwnedIs(s, h);
      used := Owned(s, h);
    }
    assert |used| <= 3;
    forall i | 0 <= i < NUM && i !in used ensures s.free[i] {
      assert DescAt(s, i);
    }
    var a := Sets.Missing(used, NUM);
    Sets.UnionSize(used, {a});
    var b := Sets.Missing(used + {a}, NUM);
    Sets.UnionSize(used + {a}, {b});
    var c := Sets.Missing(used + {a} + {b}, NUM);
    assert FreeTriple(s.free, a, b, c);
  }

  // ------------------------------------------------------------------
  // Steps

  /** Three free descriptors become the chain of a new request for buffer b. */
  function Published(s: Vq, h: int, d1: int, d2: int, b: int): Vq
    requires Sized(s) && 0 <= h < NUM && 0 <= d1 < NUM && 0 <= d2 < NUM
  {
    s.(free := s.free[h := false][d1 := false][d2 := false],
       desc := s.desc[h := Desc(d1, true)][d1 := Desc(d2, true)][d2 := Desc(0, false)],
       info := s.info[h := Info(b, 0)],
       avail := s.avail[(s.taken + |s.posted|) % NUM := h],
       disk := s.disk[b := true],
       owner := s.owner[h := h][d1 := h][d2 := h],
       reqs := s.reqs[h := Req(d1, d2, b, Posted)],
       posted := s.posted + [h])
  }

  lemma {:induction false} FreeUnowned(s: Vq, i: int)
    requires Inv(s) && 0 <= i < NUM && s.free[i]
    ensures i !in s.reqs && i !in s.posted && i !in s.completed
    ensures forall g :: g in s.reqs ==> !InChain(g, s.reqs[g], i)
  {
    assert DescAt(s, i);
    forall g | g in s.reqs ensures !InChain(g, s.reqs[g], i) {
      assert ReqAt(s, g);
    }
    assert i in s.reqs ==> !InChain(i, s.reqs[i], i);
  }

  lemma {:induction false} PublishedInv(s: Vq, h: int, d1: int, d2: int, b: int)
    requires Inv(s) && 0 <= h < NUM && 0 <= d1 < NUM && 0 <= d2 < NUM && h != d1 && h != d2 && d1 != d2
    requires s.free[h] && s.free[d1] && s.free[d2] && forall g :: g in s.reqs ==> s.reqs[g].buf != b
    ensures Inv(Published(s, h, d1, d2, b))
  {
    hide Published, ReqAt, DescAt, RingAt;
    assert DescAt(s, 0);
    var s' := Published(s, h, d1, d2, b);
    FreeUnowned(s, h);
    FreeUnowned(s, d1);
    FreeUnowned(s, d2);
    AtMostTwo(s);
    PublishedIs(s, h, d1, d2, b);
    forall i ensures DescAt(s', i) {
      PublishedDesc(s, h, d1, d2, b, i);
    }
    forall g ensures ReqAt(s', g) {
      PublishedReq(s, h, d1, d2, b, g);
    }
    forall j ensures RingAt(s'.avail, s'.taken, s'.posted, j) {
      Appended(s.avail, s.taken, s.posted, h, j);
    }
  }

  lemma {:induction false} PublishedIs(s: Vq, h: int, d1: int, d2: int, b: int)
    requires Inv(s) && 0 <= h < NUM && 0 <= d1 < NUM && 0 <= d2 < NUM && h !in s.reqs && h !in s.posted
    requires forall g :: g in s.reqs ==> s.reqs[g].buf != b
    ensures var s' := Published(s, h, d1, d2, b);
            && Sized(s') && Distinct(s'.posted) && OneEach(s'.reqs) && s'.posted == s.posted + [h]
            && s'.avail == s.avail[(s.taken + |s.posted|) % NUM := h] && s'.taken == s.taken
            && s'.elems == s.elems && s'.handled == s.handled && s'.completed == s.completed
            && (forall g :: g in s'.posted ==> g in s'.reqs) && (forall g :: g in s.reqs ==> g in s'.reqs)
  {
  }

  lemma {:induction false} PublishedDesc(s: Vq, h: int, d1: int, d2: int, b: int, i: int)
    requires Inv(s) && 0 <= h < NUM && 0 <= d1 < NUM && 0 <= d2 < NUM && h !in s.reqs
    ensures Sized(Published(s, h, d1, d2, b)) && DescAt(Published(s, h, d1, d2, b), i)
  {
    assert DescAt(s, i);
  }

  lemma {:induction false} PublishedReq(s: Vq, h: int, d1: int, d2: int, b: int, g: int)
    requires Inv(s) && 0 <= h < NUM && 0 <= d1 < NUM && 0 <= d2 < NUM && h != d1 && h != d2 && d1 != d2
    requires h !in s.reqs && h !in s.posted && h !in s.completed
    requires forall q :: q in s.reqs ==>
               s.reqs[q].buf != b && !InChain(q, s.reqs[q], h) && !InChain(q, s.reqs[q], d1) &&
                   !InChain(q, s.reqs[q], d2)
    ensures Sized(Published(s, h, d1, d2, b)) && ReqAt(Published(s, h, d1, d2, b), g)
  {
    hide DescAt, RingAt;
    assert ReqAt(s, g);
    assert g in s.posted + [h] <==> g in s.posted || g == h;
  }

  lemma {:induction false} Appended(ring: seq<int>, start: nat, queue: seq<int>, h: int, j: int)
    requires |ring| == NUM && |queue| < NUM && RingAt(ring, start, queue, j)
    ensures RingAt(ring[(start + |queue|) % NUM := h], start, queue + [h], j)
  {
  }

  function WithPhase(reqs: map<int, Req>, h: int, p: Phase): map<int, Req>
    requires h in reqs
  {
    reqs[h := reqs[h].(phase := p)]
  }

  /** The device takes the next published chain. */
  function DeviceTook(s: Vq): Vq
    requires s.posted != [] && s.posted[0] in s.reqs
  {
    s.(posted := s.posted[1..], taken := s.taken + 1, reqs := WithPhase(s.reqs, s.posted[0], Taken))
  }

  lemma {:induction false} TookInv(s: Vq)
    requires Inv(s) && s.posted != []
    ensures s.posted[0] in s.posted && s.posted[0] in s.reqs && s.avail[s.taken % NUM] == s.posted[0]
    ensures s.reqs[s.posted[0]].phase == Posted && Inv(DeviceTook(s))
  {
    var h := s.posted[0];
    assert h in s.posted && RingAt(s.avail, s.taken, s.posted, 0);
    var s' := DeviceTook(s);
    assert ReqAt(s, h);
    TailOf(s.posted);
    forall i ensures DescAt(s', i) {
      assert DescAt(s, i);
    }
    forall g ensures ReqAt(s', g) {
      assert ReqAt(s, g);
    }
    forall j ensures RingAt(s'.avail, s'.taken, s'.posted, j) {
      assert RingAt(s.avail, s.taken, s.posted, j + 1);
    }
    forall j ensures RingAt(s'.elems, s'.handled, s'.completed, j) {
      assert RingAt(s.elems, s.handled, s.completed, j);
    }
  }

  lemma {:induction false} TailOf(q: seq<int>)
    requires Distinct(q) && q != []
    ensures Distinct(q[1..]) && forall g :: g in q[1..] <==> g in q && g != q[0]
  {
    forall g ensures g in q[1..] <==> g in q && g != q[0] {
      if g in q && g != q[0] {
        var i :| 0 <= i < |q| && q[i] == g;
        assert q[1..][i - 1] == g;
      }
      if g in q[1..] {
        var i :| 0 <= i < |q| - 1 && q[1..][i] == g;
        assert q[i + 1] == g;
      }
    }
  }

  /** The device completes a chain it has taken, writing its head into the next slot of the used ring. */
  function DeviceReturned(s: Vq, h: int): Vq
    requires h in s.reqs && |s.elems| == NUM
  {
    s.(elems := s.elems[(s.handled + |s.completed|) % NUM := h], completed := s.completed + [h],
        reqs := WithPhase(s.reqs, h, Completed))
  }

  lemma {:induction false} ReturnedInv(s: Vq, h: int)
    requires Inv(s) && h in s.reqs && s.reqs[h].phase == Taken
    ensures Inv(DeviceReturned(s, h))
  {
    var s' := DeviceReturned(s, h);
    AtMostTwo(s);
    assert ReqAt(s, h);
    forall i ensures DescAt(s', i) {
      assert DescAt(s, i);
    }
    forall g ensures ReqAt(s', g) {
      assert ReqAt(s, g);
      assert g in s'.completed <==> g in s.completed || g == h;
    }
    forall j ensures RingAt(s'.avail, s'.taken, s'.posted, j) {
      assert RingAt(s.avail, s.taken, s.posted, j);
    }
    forall j ensures RingAt(s'.elems, s'.handled, s'.completed, j) {
      Appended(s.elems, s.handled, s.completed, h, j);
    }
  }

  /** The interrupt handler deals with the next completion. */
  function Handle(s: Vq): Vq
    requires s.completed != [] && s.completed[0] in s.reqs
  {
    var h := s.completed[0];
    s.(completed := s.completed[1..], handled := s.handled + 1, reqs := WithPhase(s.reqs, h, Handled),
        disk := s.disk[s.reqs[h].buf := false])
  }

  lemma {:induction false} HandleInv(s: Vq)
    requires Inv(s) && s.completed != []
    ensures var h := s.completed[0];
            && h in s.reqs && 0 <= h < NUM && s.elems[s.handled % NUM] == h
            && s.reqs[h].phase == Completed && s.info[h] == Info(s.reqs[h].buf, 0)
    ensures Inv(Handle(s))
  {
    var h := s.completed[0];
    assert h in s.completed && RingAt(s.elems, s.handled, s.completed, 0);
    assert ReqAt(s, h);
    var s' := Handle(s);
    TailOf(s.completed);
    forall i ensures DescAt(s', i) {
      assert DescAt(s, i);
    }
    forall g ensures ReqAt(s', g) {
      assert ReqAt(s, g);
    }
    forall j ensures RingAt(s'.avail, s'.taken, s'.posted, j) {
      assert RingAt(s.avail, s.taken, s.posted, j);
    }
    forall j ensures RingAt(s'.elems, s'.handled, s'.completed, j) {
      assert RingAt(s.elems, s.handled, s.completed, j + 1);
    }
  }

  /** The requester takes its handled request back and frees the chain. */
  function Retired(s: Vq, h: int): Vq {
    if !(Sized(s) && h in s.reqs && 0 <= h < NUM && 0 <= s.reqs[h].d1 < NUM && 0 <= s.reqs[h].d2 < NUM) then s
    else
      var r := s.reqs[h];
      s.(free := s.free[h := true][r.d1 := true][r.d2 := true],
         owner := s.owner[h := NO_OWNER][r.d1 := NO_OWNER][r.d2 := NO_OWNER],
         info := s.info[h := s.info[h].(b := 0)],
         reqs := s.reqs - {h})
  }

  lemma {:induction false} RetiredInv(s: Vq, h: int)
    requires Inv(s) && h in s.reqs && s.reqs[h].phase == Handled
    ensures var r := s.reqs[h];
            && 0 <= h < NUM && 0 <= r.d1 < NUM && 0 <= r.d2 < NUM && h != r.d1 && h != r.d2 && r.d1 != r.d2
            && !s.free[h] && !s.free[r.d1] && !s.free[r.d2]
            && s.desc[h] == Desc(r.d1, true) && s.desc[r.d1] == Desc(r.d2, true) && !s.desc[r.d2].hasNext
    ensures Inv(Retired(s, h))
  {
    assert ReqAt(s, h);
    var s', r := Retired(s, h), s.reqs[h];
    assert DescAt(s, h) && DescAt(s, r.d1) && DescAt(s, r.d2);
    forall i ensures DescAt(s', i) {
      assert DescAt(s, i);
    }
    forall g ensures ReqAt(s', g) {
      assert ReqAt(s, g);
    }
    forall j ensures RingAt(s'.avail, s'.taken, s'.posted, j) {
      assert RingAt(s.avail, s.taken, s.posted, j);
    }
    forall j ensures RingAt(s'.elems, s'.handled, s'.completed, j) {
      assert RingAt(s.elems, s.handled, s.completed, j);
    }
  }

  // ------------------------------------------------------------------
  // The ring indices

  /** The 16-bit indices of the two rings, the driver's own and the device's, as the counts they stand for. */
  predicate Counts(availIdx: int, usedId: int, usedIdx: int, lastAvail: int, taken: nat, posted: nat, handled: nat,
      completed: nat) {
    && availIdx == (taken + posted) % WRAP && usedId == (handled + completed) % WRAP
    && usedIdx == handled % NUM && lastAvail == taken % WRAP
  }

  lemma {:induction false} CountPosted(a: int, u: int, d: int, l: int, taken: nat, posted: nat, handled: nat,
      completed: nat)
    requires Counts(a, u, d, l, taken, posted, handled, completed)
    ensures a % NUM == (taken + posted) % NUM && Counts((a + 1) % WRAP, u, d, l, taken, posted + 1, handled, completed)
  {
    RingIndex(taken + posted);
  }

  lemma {:induction false} CountTaken(a: int, u: int, d: int, l: int, taken: nat, posted: nat, handled: nat,
      completed: nat)
    requires Counts(a, u, d, l, taken, posted, handled, completed) && 0 < posted
    ensures l % NUM == taken % NUM && Counts(a, u, d, (l + 1) % WRAP, taken + 1, posted - 1, handled, completed)
  {
    RingIndex(taken);
  }

  lemma {:induction false} CountReturned(a: int, u: int, d: int, l: int, taken: nat, posted: nat, handled: nat,
      completed: nat)
    requires Counts(a, u, d, l, taken, posted, handled, completed)
    ensures u % NUM == (handled + completed) % NUM &&
              Counts(a, (u + 1) % WRAP, d, l, taken, posted, handled, completed + 1)
  {
    RingIndex(handled + completed);
  }

  lemma {:induction false} CountHandled(a: int, u: int, d: int, l: int, taken: nat, posted: nat, handled: nat,
      completed: nat)
    requires Counts(a, u, d, l, taken, posted, handled, completed) && 0 < completed
    ensures d == handled % NUM && 0 <= d < NUM &&
              Counts(a, u, (d + 1) % NUM, l, taken, posted, handled + 1, completed - 1)
  {
    assert (handled % NUM + 1) % NUM == (handled + 1) % NUM;
  }

  /** Comparing the indices modulo NUM tells exactly whether a completion is waiting, also after they have wrapped. */
  lemma {:induction false} WaitingExactly(a: int, u: int, d: int, l: int, taken: nat, posted: nat, handled: nat,
      completed: nat)
    requires Counts(a, u, d, l, taken, posted, handled, completed) && completed < NUM
    ensures d % NUM != u % NUM <==> completed != 0
  {
    RingIndex(handled + completed);
    assert handled % NUM % NUM == handled % NUM;
  }

  lemma {:induction false} RingIndex(n: nat)
    ensures n % WRAP % NUM == n % NUM && (n % WRAP + 1) % WRAP == (n + 1) % WRAP
  {
  }

  // ------------------------------------------------------------------
  // The driver

  class Disk {
    var free: seq<bool>
    var desc: seq<Desc>
    var info: seq<Info>
    var avail: seq<int>
    var availIdx: int
    var elems: seq<int>
    var usedId: int
    var usedIdx: int
    var lastAvail: int
    var disk: map<int, bool>
    ghost var owner: seq<int>
    ghost var reqs: map<int, Req>
    ghost var posted: seq<int>
    ghost var completed: seq<int>
    ghost var taken: nat
    ghost var handled: nat

    ghost function State(): Vq
      reads this
    {
      Vq(free, desc, info, avail, elems, disk, owner, reqs, posted, completed, taken, handled)
    }

    ghost predicate Valid()
      reads this
    {
      Inv(State()) && Counts(availIdx, usedId, usedIdx, lastAvail, taken, |posted|, handled, |completed|)
    }

    constructor ()
      ensures Valid() && reqs == map[] && disk == map[]
    {
      free, desc, info := seq(NUM, i => true), seq(NUM, i => Desc(0, false)), seq(NUM, i => Info(0, 0));
      avail, elems, disk := seq(NUM, i => 0), seq(NUM, i => 0), map[];
      availIdx, usedId, usedIdx, lastAvail := 0, 0, 0, 0;
      owner, reqs, posted, completed, taken, handled := seq(NUM, i => NO_OWNER), map[], [], [], 0, 0;
    }

    /** The lowest free descriptor, no longer free; -1 if there is none. */
    method AllocDesc() returns (i: int)
      requires |free| == NUM
      modifies `free
      ensures |free| == NUM && -1 <= i < NUM
      ensures i == -1 <==> forall j :: 0 <= j < NUM ==> !old(free)[j]
      ensures i == -1 ==> free == old(free)
      ensures i != -1 ==> old(free)[i] && free == old(free)[i := false] && forall j :: 0 <= j < i ==> !old(free)[j]
    {
      i := 0;
      while i < NUM
        invariant 0 <= i <= NUM && free == old(free) && forall j :: 0 <= j < i ==> !free[j]
      {
        if free[i] {
          free := free[i := false];
          return;
        }
        i := i + 1;
      }
      i := -1;
    }

    /** The source panics on an index out of range or a descriptor that is free already. */
    method FreeDesc(i: int)
      requires |free| == NUM && 0 <= i < NUM && !free[i]
      modifies `free
      ensures free == old(free)[i := true]
    {
      free := free[i := true];
    }

    /** Three free descriptors, or none taken when there are fewer. */
    method Alloc3() returns (ok: bool, idx: seq<int>)
      requires |free| == NUM
      modifies `free
      ensures |free| == NUM
      ensures ok ==> |idx| == 3 && FreeTriple(old(free), idx[0], idx[1], idx[2])
                     && free == old(free)[idx[0] := false][idx[1] := false][idx[2] := false]
      ensures !ok ==> free == old(free) && forall a, b, c :: !FreeTriple(free, a, b, c)
    {
      idx := [];
      var i := 0;
      while i < 3
        invariant 0 <= i <= 3 && |idx| == i && |free| == NUM
        invariant i >= 1 ==> 0 <= idx[0] < NUM && old(free)[idx[0]]
        invariant i >= 2 ==> 0 <= idx[1] < NUM && old(free)[idx[1]] && idx[0] != idx[1]
        invariant i >= 3 ==> 0 <= idx[2] < NUM && old(free)[idx[2]] && idx[0] != idx[2] && idx[1] != idx[2]
        invariant i == 0 ==> free == old(free)
        invariant i == 1 ==> free == old(free)[idx[0] := false]
        invariant i == 2 ==> free == old(free)[idx[0] := false][idx[1] := false]
        invariant i == 3 ==> free == old(free)[idx[0] := false][idx[1] := false][idx[2] := false]
      {
        var d := AllocDesc();
        if d < 0 {
          var j := 0;
          while j < i
            invariant 0 <= j <= i && |free| == NUM
            invariant forall k :: 0 <= k < NUM ==> (free[k] <==> old(free)[k] && !(k in idx[j..]))
          {
            assert idx[j..] == [idx[j]] + idx[j + 1..];
            FreeDesc(idx[j]);
            j := j + 1;
          }
          assert free == old(free);
          return false, idx;
        }
        idx := idx + [d];
        i := i + 1;
      }
      ok := true;
    }

    /**
     Hands buffer b to the device: a chain of three descriptors, published in the ring.
     Not ok is the case in which the source sleeps until descriptors are freed: exactly when
     two requests are in flight.
     */
    method Submit(b: int) returns (ok: bool, h: int)
      requires Valid() && forall g :: g in reqs ==> reqs[g].buf != b
      modifies this
      ensures Valid()
      ensures ok <==> |old(reqs)| < 2
      ensures !ok ==> State() == old(State())
      ensures ok ==> h !in old(reqs) && h in reqs && reqs[h].buf == b && reqs == old(reqs)[h := reqs[h]]
      ensures ok ==> reqs[h].phase == Posted && posted == old(posted) + [h] && completed == old(completed)
      ensures ok ==>
                FreeTriple(old(free), h, reqs[h].d1, reqs[h].d2) &&
                    State() == Published(old(State()), h, reqs[h].d1, reqs[h].d2, b)
    {
      hide Inv, FreeTriple, Published, Counts;
      ghost var s0 := State();
      SizesOf(s0);
      RoomExactly(s0);
      var idx;
      ok, idx := Alloc3();
      if !ok {
        return false, -1;
      }
      h := idx[0];
      TripleIs(s0.free, idx[0], idx[1], idx[2]);
      PublishedInv(s0, idx[0], idx[1], idx[2], b);
      FreeUnowned(s0, idx[0]);
      Format(h, idx[1], idx[2], b);
      Publish(h, idx[1], idx[2], b);
      PublishedState(s0, State(), h, idx[1], idx[2], b);
    }

    /** Puts the chain's head into the published ring. */
    method Publish(h: int, d1: int, d2: int, b: int)
      requires |avail| == |owner| == NUM && 0 <= h < NUM && 0 <= d1 < NUM && 0 <= d2 < NUM
      requires Counts(availIdx, usedId, usedIdx, lastAvail, taken, |posted|, handled, |completed|)
      modifies `avail, `availIdx, `owner, `reqs, `posted
      ensures avail == old(avail)[(taken + |old(posted)|) % NUM := h]
      ensures owner == old(owner)[h := h][d1 := h][d2 := h]
      ensures reqs == old(reqs)[h := Req(d1, d2, b, Posted)] && posted == old(posted) + [h]
      ensures Counts(availIdx, usedId, usedIdx, lastAvail, taken, |posted|, handled, |completed|)
    {
      hide Counts;
      CountPosted(availIdx, usedId, usedIdx, lastAvail, taken, |posted|, handled, |completed|);
      avail := avail[availIdx % NUM := h];
      availIdx := (availIdx + 1) % WRAP;
      owner := owner[h := h][d1 := h][d2 := h];
      reqs := reqs[h := Req(d1, d2, b, Posted)];
      posted := posted + [h];
    }

    /** Fills in the three descriptors and records the buffer. */
    method Format(h: int, d1: int, d2: int, b: int)
      requires |desc| == |info| == NUM && 0 <= h < NUM && 0 <= d1 < NUM && 0 <= d2 < NUM && h != d1 && h != d2 &&
                 d1 != d2
      modifies `desc, `info, `disk
      ensures desc == old(desc)[h := Desc(d1, true)][d1 := Desc(d2, true)][d2 := Desc(0, false)]
      ensures info == old(info)[h := Info(b, 0)] && disk == old(disk)[b := true]
    {
      desc := desc[h := Desc(d1, true)];
      desc := desc[d1 := Desc(d2, true)];
      info := info[h := info[h].(status := 0)];
      desc := desc[d2 := Desc(0, false)];
      disk := disk[b := true];
      info := info[h := info[h].(b := b)];
    }

    /** The device reads the next entry of the published ring: it is the chain published next, not yet overwritten. */
    method DeviceTake() returns (h: int)
      requires Valid() && posted != []
      modifies `reqs, `posted, `taken, `lastAvail
      ensures Valid() && h == old(posted)[0] && State() == DeviceTook(old(State()))
      ensures posted == old(posted)[1..] && h in old(reqs) && reqs == old(reqs)[h := old(reqs)[h].(phase := Taken)]
    {
      hide Inv, Counts;
      SizesOf(State());
      TookInv(State());
      CountTaken(availIdx, usedId, usedIdx, lastAvail, taken, |posted|, handled, |completed|);
      h := avail[lastAvail % NUM];
      lastAvail := (lastAvail + 1) % WRAP;
      reqs := WithPhase(reqs, h, Taken);
      posted, taken := posted[1..], taken + 1;
    }

    /** The device returns a chain it has taken. */
    method DeviceReturn(h: int)
      requires Valid() && h in reqs && reqs[h].phase == Taken
      modifies `elems, `usedId, `reqs, `completed
      ensures Valid() && State() == DeviceReturned(old(State()), h)
      ensures completed == old(completed) + [h] && reqs == old(reqs)[h := old(reqs)[h].(phase := Completed)]
    {
      hide Inv, Counts;
      SizesOf(State());
      ReturnedInv(State(), h);
      CountReturned(availIdx, usedId, usedIdx, lastAvail, taken, |posted|, handled, |completed|);
      elems := elems[usedId % NUM := h];
      usedId := (usedId + 1) % WRAP;
      reqs := WithPhase(reqs, h, Completed);
      completed := completed + [h];
    }

    lemma {:induction false} Waiting()
      requires Valid()
      ensures usedIdx % NUM != usedId % NUM <==> completed != []
    {
      AtMostTwo(State());
      WaitingExactly(availIdx, usedId, usedIdx, lastAvail, taken, |posted|, handled, |completed|);
    }

    /** One round of the interrupt handler: the status panic is not reached, and the buffer is the one recorded. */
    method HandleNext()
      requires Valid() && completed != []
      modifies `usedIdx, `disk, `reqs, `completed, `handled
      ensures Valid() && old(completed)[0] in old(reqs) && State() == Handle(old(State()))
      ensures var h := old(completed)[0];
              && completed == old(completed)[1..] && reqs == old(reqs)[h := old(reqs)[h].(phase := Handled)]
              && disk == old(disk)[old(reqs)[h].buf := false]
    {
      hide Inv, Counts;
      SizesOf(State());
      HandleInv(State());
      CountHandled(availIdx, usedId, usedIdx, lastAvail, taken, |posted|, handled, |completed|);
      var id := elems[usedIdx];
      assert info[id].status == 0;
      disk := disk[info[id].b := false];
      usedIdx := (usedIdx + 1) % NUM;
      reqs := WithPhase(reqs, id, Handled);
      completed, handled := completed[1..], handled + 1;
    }

    /**
     The interrupt handler, while the device goes on: after each round it gives back one more of the
     chains in during, taking it first if it has not.  Every completion there was and every one of the m
     that came before the loop ended is dealt with, once, and no other request changes.
     */
    method Intr(during: seq<int>) returns (m: nat)
      requires Valid() && Distinct(during) && forall h :: h in during ==> h in reqs && reqs[h].phase in {Posted, Taken}
      modifies `usedIdx, `usedId, `elems, `disk, `reqs, `completed, `handled, `posted, `taken, `lastAvail
      ensures Valid() && completed == [] && m <= |during| && handled == old(handled) + |old(completed)| + m
      ensures m == if old(completed) == [] then 0 else |during|
      ensures Distinct(old(completed) + during[..m]) && reqs.Keys == old(reqs).Keys
      ensures forall h :: h in reqs ==>
                reqs[h] == if h in old(completed) ||
                    h in during[..m] then old(reqs)[h].(phase := Handled) else old(reqs)[h]
    {
      hide Inv, HandledSoFar, Distinct, Counts;
      ghost var s0, n := State(), 0;
      NoneHandled(s0);
      Waiting();
      m := 0;
      while usedIdx % NUM != usedId % NUM
        invariant Valid() && 0 <= m <= |during| && HandledSoFar(s0, State(), during[..m], n)
        invariant usedIdx % NUM != usedId % NUM <==> completed != []
        invariant completed == [] ==> m == if s0.completed == [] then 0 else |during|
        invariant s0.completed == [] ==> m == 0 && completed == []
        decreases |completed| + |during| - m
      {
        m := Round(during, m, s0, n);
        n := n + 1;
        Waiting();
      }
      AllHandled(s0, State(), during[..m], n);
    }

    /** One round of the handler and what the device does meanwhile. */
    method Round(during: seq<int>, m: nat, ghost s0: Vq, ghost n: nat) returns (m': nat)
      requires Valid() && completed != [] && m <= |during| && Distinct(during)
      requires Inv(s0) && HandledSoFar(s0, State(), during[..m], n)
      requires forall h :: h in during ==> h in s0.reqs && s0.reqs[h].phase in {Posted, Taken}
      modifies `usedIdx, `usedId, `elems, `disk, `reqs, `completed, `handled, `posted, `taken, `lastAvail
      ensures Valid() && m' == (if m < |during| then m + 1 else m) && HandledSoFar(s0, State(), during[..m'], n + 1)
      ensures |completed| + |during| - m' < |old(completed)| + |during| - m && (m < |during| ==> completed != [])
    {
      hide Inv, HandledSoFar, Handle, DeviceReturned, Distinct;
      m' := m;
      ghost var s, g := State(), completed[0];
      HandleNext();
      OneHandled(s0, s, during[..m], n);
      HandledIs(s);
      if m < |during| {
        s := State();
        ghost var h := during[m];
        assert h in s0.reqs && s0.reqs[h].phase in {Posted, Taken};
        NotYet(s0, s, during, m, n + 1);
        DeviceGives(during[m], g);
        OneCame(s0, s, State(), during[..m], n + 1, h);
        assert during[..m + 1] == during[..m] + [h];
        m' := m + 1;
      }
    }

    /** The device takes a chain if it has not yet, and returns it; g is a request that is already handled. */
    method DeviceGives(h: int, ghost g: int)
      requires Valid() && h in reqs && reqs[h].phase in {Posted, Taken} && g in reqs && reqs[g].phase == Handled
      modifies `elems, `usedId, `reqs, `completed, `posted, `taken, `lastAvail
      ensures Valid() && completed == old(completed) + [h] && reqs == WithPhase(old(reqs), h, Completed)
    {
      hide Inv, Counts;
      Pending();
      OnlyOther(State(), g, h);
      if lastAvail != availIdx {
        var _ := DeviceTake();
      }
      SizesOf(State());
      DeviceReturn(h);
    }

    lemma {:induction false} Pending()
      requires Valid()
      ensures lastAvail != availIdx <==> posted != []
    {
      AtMostTwo(State());
      PendingExactly(taken, |posted|);
    }

    /** Follows a chain from its head, freeing each descriptor; neither panic of free_desc is reached. */
    method FreeChain(h: int, ghost r: Req)
      requires |free| == |desc| == NUM && 0 <= h < NUM && 0 <= r.d1 < NUM && 0 <= r.d2 < NUM && h != r.d1 &&
                 h != r.d2 && r.d1 != r.d2
      requires !free[h] && !free[r.d1] && !free[r.d2]
      requires desc[h] == Desc(r.d1, true) && desc[r.d1] == Desc(r.d2, true) && !desc[r.d2].hasNext
      modifies `free
      ensures free == old(free)[h := true][r.d1 := true][r.d2 := true]
    {
      var i := h;
      ghost var n := 0;
      while true
        invariant 0 <= n < 3 && i == (if n == 0 then h else if n == 1 then r.d1 else r.d2)
        invariant n == 0 ==> free == old(free)
        invariant n == 1 ==> free == old(free)[h := true]
        invariant n == 2 ==> free == old(free)[h := true][r.d1 := true]
        decreases 3 - n
      {
        FreeDesc(i);
        if desc[i].hasNext {
          i := desc[i].next;
          n := n + 1;
        } else {
          break;
        }
      }
    }

    /**
     The requester, woken with its buffer no longer busy, gives the chain back: its three
     descriptors are free and no other changes, so that the next request finds its three.
     */
    method Finish(h: int)
      requires Valid() && h in reqs && reqs[h].buf in disk && !disk[reqs[h].buf]
      modifies `info, `free, `owner, `reqs
      ensures Valid() && State() == Retired(old(State()), h)
      ensures h !in reqs && |reqs| < 2 && forall g :: g != h ==> SameReq(old(State()), State(), g)
      ensures |free| == NUM && forall i :: 0 <= i < NUM ==> (free[i] <==> old(free)[i] || InChain(h, old(reqs)[h], i))
      ensures FreeTriple(free, h, old(reqs)[h].d1, old(reqs)[h].d2) && info[h].b == 0
    {
      hide Inv, Counts, SameReq, FreeTriple, Retired;
      ghost var s0 := State();
      DoneMeansHandled(State(), h);
      RetiredInv(State(), h);
      RetiredFrees(State(), h);
      SizesOf(State());
      ghost var r := reqs[h];
      info := info[h := info[h].(b := 0)];
      FreeChain(h, r);
      owner := owner[h := NO_OWNER][r.d1 := NO_OWNER][r.d2 := NO_OWNER];
      reqs := reqs - {h};
      RetiredState(s0, State(), h);
    }
  }

  /** A request waiting for descriptors gets them once another has finished. */
  method WaiterProceeds(d: Disk, h: int, b: int) returns (ok: bool, g: int)
    requires d.Valid() && h in d.reqs && d.reqs[h].buf in d.disk && !d.disk[d.reqs[h].buf]
    requires forall r :: r in d.reqs ==> d.reqs[r].buf != b
    modifies d
    ensures d.Valid() && ok && g in d.reqs && d.reqs[g].buf == b && g in d.posted
  {
    hide Inv, Counts, Published, Retired;
    d.Finish(h);
    forall r | r in d.reqs ensures d.reqs[r].buf != b {
      assert SameReq(old(d.State()), d.State(), r);
    }
    ok, g := d.Submit(b);
  }

  /** A request is in one state if it is in the other, the same, with the same descriptors. */
  predicate SameReq(s: Vq, s': Vq, g: int) {
    && (g in s.reqs <==> g in s'.reqs)
    && (g in s.reqs ==> s'.reqs[g] == s.reqs[g])
    && (g in s.reqs && Sized(s) && Sized(s') ==> forall i :: 0 <= i < NUM && InChain(g, s.reqs[g], i) ==>
          s'.desc[i] == s.desc[i] && s'.owner[i] == s.owner[i] && s'.free[i] == s.free[i] && s'.info[i] == s.info[i])
  }

  lemma {:induction false} RetiredFrees(s: Vq, h: int)
    requires Inv(s) && h in s.reqs && s.reqs[h].phase == Handled
    ensures var s', r := Retired(s, h), s.reqs[h];
            && Sized(s) && Sized(s') && h !in s'.reqs && |s'.reqs| < 2 && s'.info[h].b == 0
            && (forall g :: g != h ==> SameReq(s, s', g))
            && (forall i :: 0 <= i < NUM ==> (s'.free[i] <==> s.free[i] || InChain(h, r, i)))
            && FreeTriple(s'.free, h, r.d1, r.d2)
  {
    assert ReqAt(s, h);
    var s' := Retired(s, h);
    AtMostTwo(s);
    assert s'.reqs.Keys == s.reqs.Keys - {h};
    assert |s'.reqs| == |s'.reqs.Keys|;
    forall g | g != h ensures SameReq(s, s', g) {
      assert ReqAt(s, g);
    }
  }

  lemma {:induction false} SizesOf(s: Vq)
    requires Inv(s)
    ensures Sized(s)
  {
  }

  lemma RetiredState(s: Vq, s': Vq, h: int)
    requires Sized(s) && h in s.reqs
    requires var r := s.reqs[h];
             && 0 <= h < NUM && 0 <= r.d1 < NUM && 0 <= r.d2 < NUM
             && s' == s.(free := s.free[h := true][r.d1 := true][r.d2 := true],
                    owner := s.owner[h := NO_OWNER][r.d1 := NO_OWNER][r.d2 := NO_OWNER],
                    info := s.info[h := s.info[h].(b := 0)], reqs := s.reqs - {h})
    ensures s' == Retired(s, h)
  {
  }

  lemma {:induction false} PublishedState(s: Vq, s': Vq, h: int, d1: int, d2: int, b: int)
    requires Sized(s) && 0 <= h < NUM && 0 <= d1 < NUM && 0 <= d2 < NUM
    requires s'.free == s.free[h := false][d1 := false][d2 := false] && s'.info == s.info[h := Info(b, 0)] &&
               s'.disk == s.disk[b := true]
    requires s'.desc == s.desc[h := Desc(d1, true)][d1 := Desc(d2, true)][d2 := Desc(0, false)]
    requires s'.avail == s.avail[(s.taken + |s.posted|) % NUM := h] && s'.owner == s.owner[h := h][d1 := h][d2 := h]
    requires s'.reqs == s.reqs[h := Req(d1, d2, b, Posted)] && s'.posted == s.posted + [h]
    requires s'.elems == s.elems && s'.completed == s.completed && s'.taken == s.taken && s'.handled == s.handled
    ensures s' == Published(s, h, d1, d2, b)
  {
  }

  /** Of the completions there were and those that came, n are handled and the others wait. */
  ghost predicate HandledSoFar(s0: Vq, s: Vq, came: seq<int>, n: nat) {
    var all := s0.completed + came;
    && n <= |all| && s.completed == all[n..] && s.handled == s0.handled + n && s.reqs.Keys == s0.reqs.Keys &&
        Distinct(all)
    && (forall h :: h in came ==> h in s0.reqs && s0.reqs[h].phase in {Posted, Taken})
    && forall h :: h in s.reqs ==> s.reqs[h] == if h in all[..n] then s0.reqs[h].(phase := Handled)
                                                else if h in all then s0.reqs[h].(phase := Completed) else s0.reqs[h]
  }

  lemma {:induction false} NoneHandled(s: Vq)
    requires Inv(s)
    ensures HandledSoFar(s, s, [], 0)
  {
    assert s.completed + [] == s.completed;
    forall h | h in s.reqs ensures h in s.completed ==> s.reqs[h] == s.reqs[h].(phase := Completed) {
      assert ReqAt(s, h);
    }
  }

  lemma {:induction false} OneHandled(s0: Vq, s: Vq, came: seq<int>, n: nat)
    requires HandledSoFar(s0, s, came, n) && s.completed != [] && s.completed[0] in s.reqs
    ensures HandledSoFar(s0, Handle(s), came, n + 1) && |Handle(s).completed| < |s.completed|
  {
    var h, all := s.completed[0], s0.completed + came;
    assert all[..n + 1] == all[..n] + [h];
    assert s.completed[1..] == all[n + 1..];
  }

  lemma {:induction false} PendingExactly(taken: nat, posted: nat)
    requires posted < WRAP
    ensures taken % WRAP != (taken + posted) % WRAP <==> posted != 0
  {
  }

  lemma {:induction false} HandledIs(s: Vq)
    requires s.completed != [] && s.completed[0] in s.reqs
    ensures s.completed[0] in Handle(s).reqs && Handle(s).reqs[s.completed[0]].phase == Handled
  {
  }

  /** With one request handled, only the other can be posted. */
  lemma {:induction false} OnlyOther(s: Vq, g: int, h: int)
    requires Inv(s) && g in s.reqs && s.reqs[g].phase == Handled && h in s.reqs && s.reqs[h].phase != Handled
    ensures s.reqs[h].phase == Posted ==> s.posted == [h]
    ensures s.reqs[h].phase != Posted ==> s.posted == []
  {
    AtMostTwo(s);
    assert {g, h} <= s.reqs.Keys;
    assert |s.reqs.Keys - {g, h}| == |s.reqs.Keys| - 2;
    assert s.reqs.Keys == {g, h};
    assert ReqAt(s, g) && ReqAt(s, h);
    forall i | 0 <= i < |s.posted| ensures s.posted[i] == h {
      assert s.posted[i] in s.posted;
    }
    ElementsOf(s.posted, {h});
    assert s.posted == [] || s.posted == [h];
  }

  /** A chain the device has not given back is as it was. */
  lemma {:induction false} NotYet(s0: Vq, s: Vq, during: seq<int>, m: nat, n: nat)
    requires Inv(s0) && m < |during| && HandledSoFar(s0, s, during[..m], n) && Distinct(during)
    requires during[m] in s0.reqs && s0.reqs[during[m]].phase in {Posted, Taken}
    ensures during[m] in s.reqs && s.reqs[during[m]] == s0.reqs[during[m]]
  {
    assert ReqAt(s0, during[m]);
  }

  /** A completion that comes now is new. */
  lemma {:induction false} OneCame(s0: Vq, s: Vq, s': Vq, came: seq<int>, n: nat, h: int)
    requires HandledSoFar(s0, s, came, n) && h in s.reqs && s.reqs[h].phase in {Posted, Taken}
    requires s'.completed == s.completed + [h] && s'.handled == s.handled && s'.reqs == WithPhase(s.reqs, h, Completed)
    ensures HandledSoFar(s0, s', came + [h], n)
  {
    var all := s0.completed + came;
    assert s0.completed + (came + [h]) == all + [h];
    assert h !in all;
    assert (all + [h])[..n] == all[..n] && (all + [h])[n..] == all[n..] + [h];
  }

  lemma {:induction false} AllHandled(s0: Vq, s: Vq, came: seq<int>, n: nat)
    requires HandledSoFar(s0, s, came, n) && s.completed == []
    ensures s.handled == s0.handled + |s0.completed| + |came| && s.reqs.Keys == s0.reqs.Keys
    ensures Distinct(s0.completed + came)
    ensures forall h :: h in s.reqs ==>
              s.reqs[h] == if h in s0.completed || h in came then s0.reqs[h].(phase := Handled) else s0.reqs[h]
  {
    var all := s0.completed + came;
    assert n == |all| && all[..n] == all;
  }

  lemma {:induction false} TripleIs(free: seq<bool>, a: int, b: int, c: int)
    requires |free| == NUM && FreeTriple(free, a, b, c)
    ensures 0 <= a < NUM && 0 <= b < NUM && 0 <= c < NUM && a != b && a != c && b != c && free[a] && free[b] && free[c]
  {
  }

  lemma {:induction false} DoneMeansHandled(s: Vq, h: int)
    requires Inv(s) && h in s.reqs && s.reqs[h].buf in s.disk && !s.disk[s.reqs[h].buf]
    ensures s.reqs[h].phase == Handled
  {
    assert ReqAt(s, h);
  }

  predicate FreeTriple(free: seq<bool>, a: int, b: int, c: int)
    requires |free| == NUM
  {
    && 0 <= a < NUM && 0 <= b < NUM && 0 <= c < NUM && a != b && a != c && b != c
    && free[a] && free[b] && free[c]
  }
}
