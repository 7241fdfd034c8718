/**
 The buffer cache of kernel/bio.c: NBUF buffers on a doubly linked ring in
 least-recently-used order, over one disk.

 The class keeps the source's links and reference counts.  The functions and
 lemmas before it say, on the values of the buffers alone, what a caller may
 rely on: a block has at most one buffer, a buffer nobody refers to agrees with
 the disk, and a pinned block cannot leave the cache.
 */
module BufferCache {
  import LruRing
  import opened Sets
  import opened Storage

  /** dev is 0 in a buffer that was never used; the one disk is device 1. */
  const ROOTDEV: nat := 1
  const UINT_MODULUS: nat := 0x1_0000_0000

  datatype Buf = Buf(dev: nat, blockno: nat, valid: bool, refcnt: nat, locked: bool, data: Block)

  /** refcnt is an unsigned int. */
  function Inc(n: nat): nat {
    (n + 1) % UINT_MODULUS
  }

  function Dec(n: nat): nat {
    (n + UINT_MODULUS - 1) % UINT_MODULUS
  }

  // ------------------------------------------------------------------
  // Contents of the cache

  predicate For(x: Buf, b: nat) {
    x.dev == ROOTDEV && x.blockno == b
  }

  predicate IsCached(bs: seq<Buf>, b: nat) {
    exists i :: 0 <= i < |bs| && For(bs[i], b)
  }

  predicate Unique(bs: seq<Buf>) {
    forall i, j :: 0 <= i < j < |bs| && bs[i].dev == ROOTDEV && bs[j].dev == ROOTDEV ==> bs[i].blockno != bs[j].blockno
  }

  /** The contents bread delivers for block b. */
  ghost function View(bs: seq<Buf>, disk: Disk, b: nat): Block
    requires b < |disk|
  {
    if i :| 0 <= i < |bs| && For(bs[i], b) && bs[i].valid then bs[i].data else disk[b]
  }

  ghost predicate SameView(bs: seq<Buf>, disk: Disk, bs': seq<Buf>, disk': Disk) {
    |disk| == |disk'| && forall b :: 0 <= b < |disk| ==> View(bs', disk', b) == View(bs, disk, b)
  }

  predicate Pinned(x: Buf, pins: set<nat>) {
    x.dev == ROOTDEV && x.blockno in pins
  }

  predicate BufOk(x: Buf, disk: Disk, pins: set<nat>) {
    && x.dev <= ROOTDEV
    && (x.dev == ROOTDEV ==> x.blockno < |disk|)
    && x.refcnt == (if x.locked then 1 else 0) + (if Pinned(x, pins) then 1 else 0)
    && (Pinned(x, pins) || x.locked ==> x.valid)
    && (x.dev == ROOTDEV && x.valid && x.refcnt == 0 ==> x.data == disk[x.blockno])
  }

  /**
   The cache between the steps of one kernel thread: a reference count is the lock holder
   plus the pin, and a buffer that may be recycled holds what the disk holds.
   */
  predicate Coherent(bs: seq<Buf>, disk: Disk, pins: set<nat>) {
    && |bs| == NBUF
    && Unique(bs)
    && (forall i :: 0 <= i < |bs| ==> BufOk(bs[i], disk, pins))
    && forall b :: b in pins ==> IsCached(bs, b)
  }

  /** What bread(b) does to the buffers when it returns buffer r. */
  predicate Reads(bs: seq<Buf>, disk: Disk, b: nat, r: int, bs': seq<Buf>) {
    && 0 <= r < |bs|
    && b < |disk|
    && |bs'| == |bs|
    && bs' == bs[r := bs'[r]]
    && if For(bs[r], b) then
         bs'[r] == bs[r].(refcnt := Inc(bs[r].refcnt), locked := true, valid := true,
                          data := if bs[r].valid then bs[r].data else disk[b])
       else
         && !IsCached(bs, b)
         && bs[r].refcnt == 0
         && bs'[r] == Buf(ROOTDEV, b, true, 1, true, disk[b])
  }

  predicate Unlocked(bs: seq<Buf>) {
    forall i :: 0 <= i < |bs| ==> !bs[i].locked
  }

  /** Exactly the buffers of the given blocks are locked. */
  predicate LockedFor(bs: seq<Buf>, others: set<nat>) {
    && (forall i :: 0 <= i < |bs| ==> (bs[i].locked <==> Pinned(bs[i], others)))
    && forall b :: b in others ==> IsCached(bs, b)
  }

  lemma {:induction false} LockedAt(bs: seq<Buf>, others: set<nat>, b: nat)
    requires LockedFor(bs, others) && b !in others
    ensures forall i :: 0 <= i < |bs| && For(bs[i], b) ==> !bs[i].locked
  {
  }

  function Released(x: Buf): Buf {
    x.(locked := false, refcnt := Dec(x.refcnt))
  }

  lemma {:induction false} ViewOf(bs: seq<Buf>, disk: Disk, i: int)
    requires Unique(bs) && 0 <= i < |bs| && bs[i].dev == ROOTDEV && bs[i].valid && bs[i].blockno < |disk|
    ensures View(bs, disk, bs[i].blockno) == bs[i].data
  {
    assert For(bs[i], bs[i].blockno);
    if j :| 0 <= j < |bs| && For(bs[j], bs[i].blockno) && j != i {
      assert false;
    }
  }

  /** A buffer whose contents do not move for block b leaves the view of b. */
  lemma {:induction false} ViewUnchanged(bs: seq<Buf>, disk: Disk, bs': seq<Buf>, disk': Disk, r: int, b: nat)
    requires Unique(bs) && 0 <= r < |bs| && |bs'| == |bs| && b < |disk| == |disk'|
    requires forall i :: 0 <= i < |bs| && i != r ==> bs'[i].dev == bs[i].dev && bs'[i].blockno == bs[i].blockno
                                                     && bs'[i].valid == bs[i].valid && bs'[i].data == bs[i].data
    requires Unique(bs')
    requires !(For(bs[r], b) && bs[r].valid) && !(For(bs'[r], b) && bs'[r].valid)
    requires disk'[b] == disk[b]
    ensures View(bs', disk', b) == View(bs, disk, b)
  {
    if i :| 0 <= i < |bs| && For(bs[i], b) && bs[i].valid {
      ViewOf(bs, disk, i);
      ViewOf(bs', disk', i);
    } else if i :| 0 <= i < |bs'| && For(bs'[i], b) && bs'[i].valid {
      assert false;
    }
  }

  lemma {:induction false} ReadsUnique(bs: seq<Buf>, disk: Disk, b: nat, r: int, bs': seq<Buf>)
    requires Unique(bs) && Reads(bs, disk, b, r, bs')
    ensures Unique(bs')
  {
    assert forall i :: 0 <= i < |bs| && i != r ==> bs'[i] == bs[i];
    if !For(bs[r], b) {
      assert forall i :: 0 <= i < |bs| ==> !For(bs[i], b);
    }
  }

  /** bread delivers the view of its block, moves no other view, and keeps the cache coherent. */
  lemma {:induction false} ReadsKeeps(bs: seq<Buf>, disk: Disk, pins: set<nat>, b: nat, r: int, bs': seq<Buf>)
    requires Coherent(bs, disk, pins) && Reads(bs, disk, b, r, bs') && !bs[r].locked
    ensures Coherent(bs', disk, pins) && SameView(bs, disk, bs', disk)
    ensures bs'[r].data == View(bs, disk, b)
  {
    ReadsUnique(bs, disk, b, r, bs');
    forall p | p in pins ensures IsCached(bs', p) {
      var i :| 0 <= i < |bs| && For(bs[i], p);
      assert BufOk(bs[i], disk, pins);
      assert For(bs'[i], p);
    }
    forall c | 0 <= c < |disk| ensures View(bs', disk, c) == View(bs, disk, c) {
      ReadsView(bs, disk, pins, b, r, bs', c);
    }
    ViewOf(bs', disk, r);
  }

  lemma {:induction false} ReadsView(bs: seq<Buf>, disk: Disk, pins: set<nat>, b: nat, r: int, bs': seq<Buf>, c: nat)
    requires Coherent(bs, disk, pins) && Reads(bs, disk, b, r, bs') && Unique(bs') && c < |disk|
    ensures View(bs', disk, c) == View(bs, disk, c)
  {
    assert BufOk(bs[r], disk, pins);
    if For(bs[r], c) && bs[r].valid {
      ViewOf(bs, disk, r);
      if For(bs[r], b) {
        ViewOf(bs', disk, r);
      } else {
        assert forall i :: 0 <= i < |bs| && i != r ==> !For(bs'[i], c);
      }
    } else if c == b {
      ViewOf(bs', disk, r);
      assert bs'[r].data == disk[b];
      if i :| 0 <= i < |bs| && For(bs[i], b) && bs[i].valid {
        assert false;
      }
    } else {
      ViewUnchanged(bs, disk, bs', disk, r, c);
    }
  }

  /** brelse of a buffer that agrees with the disk or is pinned. */
  lemma {:induction false} ReleaseKeeps(bs: seq<Buf>, disk: Disk, pins: set<nat>, r: int)
    requires Coherent(bs, disk, pins) && 0 <= r < |bs| && bs[r].locked && bs[r].dev == ROOTDEV
    requires Pinned(bs[r], pins) || bs[r].data == disk[bs[r].blockno]
    ensures var bs' := bs[r := Released(bs[r])];
            Coherent(bs', disk, pins) && SameView(bs, disk, bs', disk)
  {
    var bs' := bs[r := Released(bs[r])];
    forall p | p in pins ensures IsCached(bs', p) {
      var i :| 0 <= i < |bs| && For(bs[i], p);
      assert For(bs'[i], p);
    }
    forall c | 0 <= c < |disk| ensures View(bs', disk, c) == View(bs, disk, c) {
      if For(bs[r], c) {
        ViewOf(bs, disk, r);
        ViewOf(bs', disk, r);
      } else {
        ViewUnchanged(bs, disk, bs', disk, r, c);
      }
    }
  }

  /** Changing the data of a locked buffer changes the view of its block only. */
  lemma {:induction false} ModifyKeeps(bs: seq<Buf>, disk: Disk, pins: set<nat>, r: int, data: Block)
    requires Coherent(bs, disk, pins) && 0 <= r < |bs| && bs[r].locked && bs[r].dev == ROOTDEV
    ensures var bs' := bs[r := bs[r].(data := data)];
            && Coherent(bs', disk, pins)
            && View(bs', disk, bs[r].blockno) == data
            && forall c :: 0 <= c < |disk| && c != bs[r].blockno ==> View(bs', disk, c) == View(bs, disk, c)
  {
    var bs' := bs[r := bs[r].(data := data)];
    forall p | p in pins ensures IsCached(bs', p) {
      var i :| 0 <= i < |bs| && For(bs[i], p);
      assert For(bs'[i], p);
    }
    ViewOf(bs', disk, r);
    forall c | 0 <= c < |disk| && c != bs[r].blockno ensures View(bs', disk, c) == View(bs, disk, c) {
      ViewUnchanged(bs, disk, bs', disk, r, c);
    }
  }

  /** bwrite of a locked buffer brings the disk up to the view. */
  lemma {:induction false} WriteKeeps(bs: seq<Buf>, disk: Disk, pins: set<nat>, r: int)
    requires Coherent(bs, disk, pins) && 0 <= r < |bs| && bs[r].locked && bs[r].dev == ROOTDEV
    ensures var disk' := disk[bs[r].blockno := bs[r].data];
            Coherent(bs, disk', pins) && SameView(bs, disk, bs, disk')
  {
    var disk' := disk[bs[r].blockno := bs[r].data];
    forall i | 0 <= i < |bs| ensures BufOk(bs[i], disk', pins) {
      assert BufOk(bs[i], disk, pins);
      assert i != r && bs[i].dev == ROOTDEV ==> bs[i].blockno != bs[r].blockno;
    }
    forall c | 0 <= c < |disk| ensures View(bs, disk', c) == View(bs, disk, c) {
      if c == bs[r].blockno {
        ViewOf(bs, disk, r);
        ViewOf(bs, disk', r);
      } else {
        ViewUnchanged(bs, disk, bs, disk', r, c);
      }
    }
  }

  /** This thread has buffers x and y locked, for blocks b and c; others have those of the given blocks. */
  predicate Holding(bs: seq<Buf>, x: int, b: nat, y: int, c: nat, others: set<nat>) {
    && 0 <= x < |bs| && 0 <= y < |bs| && x != y
    && For(bs[x], b) && For(bs[y], c) && b !in others && c !in others
    && LockedFor(bs, others + {b, c})
  }

  lemma {:induction false} ReleasePairKeeps(
      bs: seq<Buf>, disk: Disk, pins: set<nat>, others: set<nat>, x: int, b: nat, y: int, c: nat)
    requires Coherent(bs, disk, pins) && Holding(bs, x, b, y, c, others)
    requires b in pins || bs[x].data == disk[b]
    requires c in pins || bs[y].data == disk[c]
    ensures var bs' := bs[x := Released(bs[x])][y := Released(bs[y])];
            Coherent(bs', disk, pins) && SameView(bs, disk, bs', disk) && LockedFor(bs', others)
  {
    hide LockedFor;
    HoldsLocked(bs, x, b, y, c, others);
    ReleaseKeeps(bs, disk, pins, x);
    ReleaseKeeps(bs[x := Released(bs[x])], disk, pins, y);
    assert b != c;
    assert others + {c} + {b} == others + {b, c};
    ReleaseUnlocks(bs, others + {c}, x, b);
    ReleaseUnlocks(bs[x := Released(bs[x])], others, y, c);
  }

  lemma {:induction false} HoldsLocked(bs: seq<Buf>, x: int, b: nat, y: int, c: nat, others: set<nat>)
    requires Holding(bs, x, b, y, c, others)
    ensures 0 <= x < |bs| && 0 <= y < |bs| && x != y && bs[x].locked && bs[y].locked && For(bs[x], b) && For(bs[y], c)
    ensures b !in others && c !in others
  {
    assert Pinned(bs[x], others + {b, c}) && Pinned(bs[y], others + {b, c});
  }

  lemma {:induction false} ReleaseUnlocks(bs: seq<Buf>, others: set<nat>, x: int, b: nat)
    requires Unique(bs) && 0 <= x < |bs| && For(bs[x], b) && b !in others && LockedFor(bs, others + {b})
    ensures LockedFor(bs[x := Released(bs[x])], others)
  {
    var bs' := bs[x := Released(bs[x])];
    forall i | 0 <= i < |bs'| ensures bs'[i].locked <==> Pinned(bs'[i], others) {
      assert bs[i].locked <==> Pinned(bs[i], others + {b});
    }
    forall o | o in others ensures IsCached(bs', o) {
      assert o in others + {b};
      var i :| 0 <= i < |bs| && For(bs[i], o);
      assert For(bs'[i], o);
    }
  }

  /** bread of a block nobody has locked locks its buffer and no other. */
  lemma {:induction false} ReadLocks(bs: seq<Buf>, disk: Disk, pins: set<nat>, others: set<nat>, b: nat, r: int,
      bs': seq<Buf>)
    requires Coherent(bs, disk, pins) && Reads(bs, disk, b, r, bs') && LockedFor(bs, others) && b !in others
    ensures !bs[r].locked && For(bs'[r], b) && bs'[r].locked && LockedFor(bs', others + {b})
  {
    assert BufOk(bs[r], disk, pins);
    ReadsUnique(bs, disk, b, r, bs');
    forall i | 0 <= i < |bs'| ensures bs'[i].locked <==> Pinned(bs'[i], others + {b}) {
      assert bs[i].locked <==> Pinned(bs[i], others);
      assert i != r ==> bs'[i] == bs[i] && !For(bs[i], b);
    }
    forall o | o in others + {b} ensures IsCached(bs', o) {
      if o == b {
        assert For(bs'[r], o);
      } else {
        var i :| 0 <= i < |bs| && For(bs[i], o);
        assert bs[i].locked;
        assert For(bs'[i], o);
      }
    }
  }

  lemma {:induction false} ReadPairKeeps(
      bs: seq<Buf>, disk: Disk, pins: set<nat>, others: set<nat>, b: nat, x: int, b1: seq<Buf>, c: nat, y: int,
          b2: seq<Buf>)
    requires Coherent(bs, disk, pins) && LockedFor(bs, others) && b != c && b !in others && c !in others
    requires Reads(bs, disk, b, x, b1) && Reads(b1, disk, c, y, b2)
    ensures Coherent(b2, disk, pins) && SameView(bs, disk, b2, disk)
    ensures Holding(b2, x, b, y, c, others)
    ensures b2[x].data == View(bs, disk, b) && b2[y].data == View(bs, disk, c)
  {
    hide LockedFor, View;
    ReadLocks(bs, disk, pins, others, b, x, b1);
    ReadsKeeps(bs, disk, pins, b, x, b1);
    assert BufOk(b1[x], disk, pins);
    ReadLocks(b1, disk, pins, others + {b}, c, y, b2);
    ReadsKeeps(b1, disk, pins, c, y, b2);
    assert others + {b} + {c} == others + {b, c};
  }

  lemma {:induction false} PinnedCached(bs: seq<Buf>, disk: Disk, pins: set<nat>, b: nat)
    requires Coherent(bs, disk, pins) && b in pins
    ensures IsCached(bs, b)
  {
  }

  lemma {:induction false} HoldingSwap(bs: seq<Buf>, x: int, b: nat, y: int, c: nat, others: set<nat>)
    requires Holding(bs, x, b, y, c, others)
    ensures Holding(bs, y, c, x, b, others) && 0 <= x < |bs| && 0 <= y < |bs| && x != y
  {
    assert {b, c} == {c, b};
  }

  /** What is locked is a matter of device, block and lock alone. */
  lemma {:induction false} HoldingStays(bs: seq<Buf>, bs': seq<Buf>, x: int, b: nat, y: int, c: nat, others: set<nat>)
    requires Holding(bs, x, b, y, c, others) && |bs'| == |bs|
    requires forall i :: 0 <= i < |bs| ==>
               bs'[i].dev == bs[i].dev && bs'[i].blockno == bs[i].blockno && bs'[i].locked == bs[i].locked
    ensures Holding(bs', x, b, y, c, others)
  {
    forall o | o in others + {b, c} ensures IsCached(bs', o) {
      var i :| 0 <= i < |bs| && For(bs[i], o);
      assert For(bs'[i], o);
    }
  }

  /** bread, store, bwrite and brelse of a block nobody has locked. */
  lemma {:induction false} UpdateKeeps(
      bs: seq<Buf>, disk: Disk, pins: set<nat>, others: set<nat>, b: nat, h: int, b1: seq<Buf>, v: Block)
    requires Coherent(bs, disk, pins) && LockedFor(bs, others) && b !in others && Reads(bs, disk, b, h, b1)
    ensures b1[h].data == View(bs, disk, b) && For(b1[h], b) && b1[h].locked
    ensures var b2, disk' := b1[h := b1[h].(data := v)], disk[b := v];
            var b3 := b2[h := Released(b2[h])];
            && Coherent(b3, disk', pins) && LockedFor(b3, others)
            && forall c :: 0 <= c < |disk| && c != b ==> View(b3, disk', c) == View(bs, disk, c)
  {
    hide LockedFor, View;
    ReadLocks(bs, disk, pins, others, b, h, b1);
    ReadsKeeps(bs, disk, pins, b, h, b1);
    StoreKeeps(b1, disk, pins, h, v);
    var b2, disk' := b1[h := b1[h].(data := v)], disk[b := v];
    ReleaseKeeps(b2, disk', pins, h);
    LockedStays(b1, b2, others + {b});
    ReleaseUnlocks(b2, others, h, b);
  }

  lemma {:induction false} LockedStays(bs: seq<Buf>, bs': seq<Buf>, others: set<nat>)
    requires LockedFor(bs, others) && |bs'| == |bs|
    requires forall i :: 0 <= i < |bs| ==>
               bs'[i].dev == bs[i].dev && bs'[i].blockno == bs[i].blockno && bs'[i].locked == bs[i].locked
    ensures LockedFor(bs', others)
  {
    forall o | o in others ensures IsCached(bs', o) {
      var i :| 0 <= i < |bs| && For(bs[i], o);
      assert For(bs'[i], o);
    }
  }

  /** Writing contents v to a locked buffer and to the disk moves the view of its block only. */
  lemma {:induction false} StoreKeeps(bs: seq<Buf>, disk: Disk, pins: set<nat>, t: nat, v: Block)
    requires Coherent(bs, disk, pins) && t < |bs| && bs[t].locked && bs[t].dev == ROOTDEV
    ensures bs[t].blockno < |disk|
    ensures var bs', disk' := bs[t := bs[t].(data := v)], disk[bs[t].blockno := v];
            && Coherent(bs', disk', pins)
            && forall c :: 0 <= c < |disk| ==>
                View(bs', disk', c) == if c == bs[t].blockno then v else View(bs, disk, c)
  {
    ModifyKeeps(bs, disk, pins, t, v);
    WriteKeeps(bs[t := bs[t].(data := v)], disk, pins, t);
  }

  /** bpin and bunpin move one block in or out of the pinned set. */
  lemma {:induction false} PinKeeps(bs: seq<Buf>, disk: Disk, pins: set<nat>, r: int)
    requires Coherent(bs, disk, pins) && 0 <= r < |bs| && bs[r].locked && bs[r].dev == ROOTDEV
    requires !Pinned(bs[r], pins)
    ensures var bs', pins' := bs[r := bs[r].(refcnt := Inc(bs[r].refcnt))], pins + {bs[r].blockno};
            Coherent(bs', disk, pins') && SameView(bs, disk, bs', disk)
  {
    var bs', pins' := bs[r := bs[r].(refcnt := Inc(bs[r].refcnt))], pins + {bs[r].blockno};
    CountKeeps(bs, disk, pins, r, bs', pins');
  }

  lemma {:induction false} UnpinKeeps(bs: seq<Buf>, disk: Disk, pins: set<nat>, r: int)
    requires Coherent(bs, disk, pins) && 0 <= r < |bs| && bs[r].locked && bs[r].dev == ROOTDEV
    requires Pinned(bs[r], pins)
    ensures var bs', pins' := bs[r := bs[r].(refcnt := Dec(bs[r].refcnt))], pins - {bs[r].blockno};
            Coherent(bs', disk, pins') && SameView(bs, disk, bs', disk)
  {
    var bs', pins' := bs[r := bs[r].(refcnt := Dec(bs[r].refcnt))], pins - {bs[r].blockno};
    CountKeeps(bs, disk, pins, r, bs', pins');
  }

  lemma {:induction false} CountKeeps(bs: seq<Buf>, disk: Disk, pins: set<nat>, r: int, bs': seq<Buf>, pins': set<nat>)
    requires Coherent(bs, disk, pins) && 0 <= r < |bs| && bs[r].locked && bs[r].dev == ROOTDEV
    requires |bs'| == |bs| && bs' == bs[r := bs[r].(refcnt := bs'[r].refcnt)]
    requires bs'[r].refcnt == if bs[r].blockno in pins' then 2 else 1
    requires pins - {bs[r].blockno} == pins' - {bs[r].blockno}
    ensures Coherent(bs', disk, pins') && SameView(bs, disk, bs', disk)
  {
    assert Unique(bs');
    forall i | 0 <= i < |bs| ensures BufOk(bs'[i], disk, pins') {
      assert BufOk(bs[i], disk, pins);
      if i != r && bs[i].dev == ROOTDEV {
        assert bs[i].blockno != bs[r].blockno;
        assert bs[i].blockno in pins <==> bs[i].blockno in pins - {bs[r].blockno};
        assert bs[i].blockno in pins' <==> bs[i].blockno in pins' - {bs[r].blockno};
      }
    }
    forall p | p in pins' ensures IsCached(bs', p) {
      if p == bs[r].blockno {
        assert For(bs'[r], p);
      } else {
        assert p in pins' - {bs[r].blockno};
        var i :| 0 <= i < |bs| && For(bs[i], p);
        assert For(bs'[i], p);
      }
    }
    forall c | 0 <= c < |disk| ensures View(bs', disk, c) == View(bs, disk, c) {
      if For(bs[r], c) {
        ViewOf(bs, disk, r);
        ViewOf(bs', disk, r);
      } else {
        ViewUnchanged(bs, disk, bs', disk, r, c);
      }
    }
  }

  lemma {:induction false} InjectionBound(bs: seq<Buf>, from: set<int>, pins: set<nat>)
    requires Unique(bs)
    requires forall i :: i in from ==> 0 <= i < |bs| && Pinned(bs[i], pins)
    ensures |from| <= |pins|
    decreases |from|
  {
    if from != {} {
      var i := Pick(from);
      InjectionBound(bs, from - {i}, pins - {bs[i].blockno});
    }
  }

  /** As many blocks as buffers are cached only if every buffer holds one of them. */
  lemma {:induction false} BlocksBound(bs: seq<Buf>, blocks: set<nat>, from: set<int>)
    requires forall b :: b in blocks ==> exists i :: i in from && 0 <= i < |bs| && For(bs[i], b)
    ensures |blocks| <= |from|
    decreases |blocks|
  {
    if blocks != {} {
      var b := Pick(blocks);
      var i :| i in from && 0 <= i < |bs| && For(bs[i], b);
      forall c | c in blocks - {b} ensures exists j :: j in from - {i} && 0 <= j < |bs| && For(bs[j], c) {
        var j :| j in from && 0 <= j < |bs| && For(bs[j], c);
        assert j in from - {i};
      }
      BlocksBound(bs, blocks - {b}, from - {i});
    }
  }

  lemma {:induction false} AllHold(bs: seq<Buf>, blocks: set<nat>, i: int)
    requires |blocks| >= |bs| && 0 <= i < |bs|
    requires forall b :: b in blocks ==> IsCached(bs, b)
    ensures bs[i].dev == ROOTDEV && bs[i].blockno in blocks
  {
    if !(bs[i].dev == ROOTDEV && bs[i].blockno in blocks) {
      forall b | b in blocks ensures exists j :: j in Indices(|bs|) - {i} && 0 <= j < |bs| && For(bs[j], b) {
        var j :| 0 <= j < |bs| && For(bs[j], b);
        assert j in Indices(|bs|) - {i};
      }
      BlocksBound(bs, blocks, Indices(|bs|) - {i});
      assert false;
    }
  }

  /** A block neither pinned nor locked can get a buffer exactly while fewer than NBUF blocks are. */
  lemma {:induction false} FreeExactly(bs: seq<Buf>, disk: Disk, pins: set<nat>, others: set<nat>, b: nat)
    requires Coherent(bs, disk, pins) && LockedFor(bs, others) && b !in pins + others
    ensures IsCached(bs, b) || (exists i :: 0 <= i < |bs| && bs[i].refcnt == 0) <==> |pins + others| < NBUF
  {
    var busy := pins + others;
    if |busy| < NBUF {
      var held := set i | i in Indices(NBUF) && Pinned(bs[i], busy);
      InjectionBound(bs, held, busy);
      var i := Missing(held, NBUF);
      assert BufOk(bs[i], disk, pins) && (bs[i].locked <==> Pinned(bs[i], others));
    } else {
      forall i | 0 <= i < NBUF ensures !For(bs[i], b) && bs[i].refcnt != 0 {
        AllHold(bs, busy, i);
        assert BufOk(bs[i], disk, pins) && (bs[i].locked <==> Pinned(bs[i], others));
      }
    }
  }

  /** The view of a block that is neither pinned nor locked is what the disk holds. */
  lemma {:induction false} CleanView(bs: seq<Buf>, disk: Disk, pins: set<nat>, b: nat)
    requires Coherent(bs, disk, pins) && b < |disk| && b !in pins
    requires forall i :: 0 <= i < |bs| && For(bs[i], b) ==> !bs[i].locked
    ensures View(bs, disk, b) == disk[b]
  {
    if i :| 0 <= i < |bs| && For(bs[i], b) && bs[i].valid {
      assert BufOk(bs[i], disk, pins);
      ViewOf(bs, disk, i);
    }
  }

  // ------------------------------------------------------------------
  // The cache

  class Cache {
    var buf: seq<Buf>
    var disk: Disk
    const lru: LruRing.Ring
    /** The disk after each block write so far. */
    ghost var trace: seq<Disk>

    ghost predicate Valid()
      reads this, lru
    {
      |buf| == NBUF && lru.Valid()
    }

    /** This thread holds no buffer, others hold those of the given blocks, and exactly pins are pinned. */
    ghost predicate Quiet(pins: set<nat>, others: set<nat>)
      reads this, lru
    {
      Valid() && Coherent(buf, disk, pins) && LockedFor(buf, others)
    }

    /** binit, over the disk found at boot. */
    constructor (d: Disk)
      ensures Valid() && fresh(lru) && disk == d && trace == []
      ensures forall i :: 0 <= i < |buf| ==> buf[i].dev == 0 && buf[i].refcnt == 0 && !buf[i].locked
    {
      disk, trace := d, [];
      buf := seq(NBUF, _ => Buf(0, 0, false, 0, false, Block([])));
      lru := new LruRing.Ring();
    }

    /** A cached block wins; otherwise the least recently used free buffer is recycled; -1 is the panic. */
    method Bget(b: nat) returns (r: int)
      requires Valid()
      modifies this`buf
      ensures Valid() && -1 <= r < |buf|
      ensures r == -1 ==> buf == old(buf) && !IsCached(buf, b) && forall i :: 0 <= i < |buf| ==> buf[i].refcnt != 0
      ensures r >= 0 && For(old(buf)[r], b) ==>
                buf == old(buf)[r := old(buf)[r].(refcnt := Inc(old(buf)[r].refcnt), locked := true)]
      ensures r >= 0 && !For(old(buf)[r], b) ==>
                && !IsCached(old(buf), b) && old(buf)[r].refcnt == 0
                && buf == old(buf)[r := Buf(ROOTDEV, b, false, 1, true, old(buf)[r].data)]
                && (forall m :: lru.pos[r] < m < NBUF ==> old(buf)[lru.order[m]].refcnt != 0)
    {
      var x := lru.next[LruRing.HEAD];
      ghost var k := 0;
      while x != LruRing.HEAD
        invariant 0 <= k <= NBUF && x == LruRing.Node(lru.order, k) && buf == old(buf)
        invariant forall j :: 0 <= j < k ==> !For(buf[lru.order[j]], b)
        decreases NBUF - k
      {
        assert LruRing.LinkedAt(lru.next, lru.prev, lru.order, k);
        if buf[x].dev == ROOTDEV && buf[x].blockno == b {
          buf := buf[x := buf[x].(refcnt := Inc(buf[x].refcnt), locked := true)];
          return x;
        }
        x := lru.next[x];
        k := k + 1;
      }
      assert !IsCached(buf, b) by {
        forall i | 0 <= i < |buf| ensures !For(buf[i], b) {
          assert lru.order[lru.pos[i]] == i;
        }
      }

      x := lru.prev[LruRing.HEAD];
      k := NBUF - 1;
      while x != LruRing.HEAD
        invariant -1 <= k < NBUF && x == LruRing.Node(lru.order, k) && buf == old(buf)
        invariant forall j :: k < j < NBUF ==> buf[lru.order[j]].refcnt != 0
        decreases k
      {
        assert LruRing.LinkedAt(lru.next, lru.prev, lru.order, k);
        if buf[x].refcnt == 0 {
          buf := buf[x := Buf(ROOTDEV, b, false, 1, true, buf[x].data)];
          return x;
        }
        x := lru.prev[x];
        k := k - 1;
      }
      forall i | 0 <= i < |buf| ensures buf[i].refcnt != 0 {
        assert lru.order[lru.pos[i]] == i;
      }
      return -1;
    }

    method Bread(b: nat) returns (r: int)
      requires Valid() && b < |disk|
      modifies this`buf
      ensures Valid() && -1 <= r < |buf|
      ensures r == -1 ==> buf == old(buf) && !IsCached(buf, b) && forall i :: 0 <= i < |buf| ==> buf[i].refcnt != 0
      ensures r >= 0 ==> Reads(old(buf), disk, b, r, buf)
    {
      r := Bget(b);
      if r >= 0 && !buf[r].valid {
        buf := buf[r := buf[r].(data := disk[buf[r].blockno], valid := true)];
      }
    }

    method Bwrite(r: nat)
      requires Valid() && r < |buf| && buf[r].locked && buf[r].blockno < |disk|
      modifies this`disk, this`trace
      ensures Valid()
      ensures disk == old(disk)[buf[r].blockno := buf[r].data] && trace == old(trace) + [disk]
    {
      disk := disk[buf[r].blockno := buf[r].data];
      trace := trace + [disk];
    }

    /** Stores into b->data. */
    method Store(r: nat, data: Block)
      requires Valid() && r < |buf| && buf[r].locked
      modifies this`buf
      ensures Valid() && buf == old(buf)[r := old(buf)[r].(data := data)]
    {
      buf := buf[r := buf[r].(data := data)];
    }

    /** A buffer whose count falls to zero becomes the most recently used one. */
    method Brelse(r: nat)
      requires Valid() && r < |buf| && buf[r].locked
      modifies this`buf, lru
      ensures Valid() && buf == old(buf)[r := Released(old(buf)[r])]
      ensures lru.order == if buf[r].refcnt == 0 then LruRing.ToFront(old(lru.order), r) else old(lru.order)
    {
      buf := buf[r := Released(buf[r])];
      if buf[r].refcnt == 0 {
        lru.MoveToFront(r);
      }
    }

    /** Two bread calls in a row, of blocks nobody has locked. */
    method ReadPair(b: nat, c: nat, ghost pins: set<nat>, ghost others: set<nat>) returns (x: int, y: int)
      requires Quiet(pins, others) && b < |disk| && c < |disk| && b != c && c in pins && b !in others && c !in others
      modifies this`buf
      ensures Valid() && Coherent(buf, disk, pins) && SameView(old(buf), disk, buf, disk)
      ensures x == -1 ==> buf == old(buf)
      ensures x == -1 <==> !IsCached(old(buf), b) && forall i :: 0 <= i < |buf| ==> old(buf)[i].refcnt != 0
      ensures x != -1 ==> Holding(buf, x, b, y, c, others)
      ensures x != -1 ==> 0 <= x < |buf| && 0 <= y < |buf|
      ensures x != -1 ==> buf[x].data == View(old(buf), disk, b) && buf[y].data == View(old(buf), disk, c)
    {
      hide Coherent, View, LockedFor, Holding, LruRing.Linked, LruRing.Onto;
      y := -1;
      x := Bread(b);
      if x == -1 {
        return;
      }
      ReadLocks(old(buf), disk, pins, others, b, x, buf);
      ReadsKeeps(old(buf), disk, pins, b, x, buf);
      PinnedCached(buf, disk, pins, c);
      ghost var b1 := buf;
      y := Bread(c);
      ReadPairKeeps(old(buf), disk, pins, others, b, x, b1, c, y, buf);
    }

    /** memmove from one locked buffer to another, then bwrite of the second. */
    method CopyWrite(f: nat, t: nat, ghost b: nat, ghost c: nat, ghost pins: set<nat>, ghost others: set<nat>)
      requires Valid() && Coherent(buf, disk, pins) && Holding(buf, f, b, t, c, others)
      modifies this`buf, this`disk, this`trace
      ensures Valid() && Coherent(buf, disk, pins) && Holding(buf, f, b, t, c, others)
      ensures c < |old(disk)| && disk == old(disk)[c := old(buf)[f].data] && trace == old(trace) + [disk]
      ensures f < |buf| && t < |buf| && buf == old(buf)[t := old(buf)[t].(data := old(buf)[f].data)]
      ensures forall e :: 0 <= e < |disk| ==>
                View(buf, disk, e) == if e == c then old(buf)[f].data else View(old(buf), old(disk), e)
    {
      hide Coherent, View, Holding, LruRing.Linked, LruRing.Onto;
      HoldsLocked(buf, f, b, t, c, others);
      StoreKeeps(buf, disk, pins, t, buf[f].data);
      Store(t, buf[f].data);
      Bwrite(t);
      HoldingStays(old(buf), buf, f, b, t, c, others);
    }

    /** bunpin of the second of two locked buffers. */
    method UnpinHeld(x: nat, y: nat, ghost b: nat, ghost c: nat, ghost pins: set<nat>, ghost others: set<nat>)
      requires Valid() && Coherent(buf, disk, pins) && Holding(buf, x, b, y, c, others) && c in pins
      modifies this`buf
      ensures Valid() && Coherent(buf, disk, pins - {c}) && Holding(buf, x, b, y, c, others)
      ensures SameView(old(buf), disk, buf, disk)
      ensures x < |buf| && y < |buf| && buf[x] == old(buf)[x] && buf[y].data == old(buf)[y].data
    {
      hide Coherent, View, Holding, LruRing.Linked, LruRing.Onto;
      HoldsLocked(buf, x, b, y, c, others);
      UnpinKeeps(buf, disk, pins, y);
      Bunpin(y);
      HoldingStays(old(buf), buf, x, b, y, c, others);
    }

    /** Two brelse calls, of buffers that agree with the disk or stay pinned. */
    method ReleasePair(x: nat, y: nat, ghost b: nat, ghost c: nat, ghost pins: set<nat>, ghost others: set<nat>)
      requires Valid() && Coherent(buf, disk, pins) && Holding(buf, x, b, y, c, others)
      requires b < |disk| && c < |disk| && x < |buf| && y < |buf|
      requires b in pins || buf[x].data == disk[b]
      requires c in pins || buf[y].data == disk[c]
      modifies this`buf, lru
      ensures Quiet(pins, others) && SameView(old(buf), disk, buf, disk)
    {
      hide Coherent, View, SameView, Holding, LockedFor, LruRing.Linked, LruRing.Onto;
      HoldsLocked(buf, x, b, y, c, others);
      ReleasePairKeeps(buf, disk, pins, others, x, b, y, c);
      Brelse(x);
      Brelse(y);
    }

    method Bpin(r: nat)
      requires Valid() && r < |buf|
      modifies this`buf
      ensures Valid() && buf == old(buf)[r := old(buf)[r].(refcnt := Inc(old(buf)[r].refcnt))]
    {
      buf := buf[r := buf[r].(refcnt := Inc(buf[r].refcnt))];
    }

    method Bunpin(r: nat)
      requires Valid() && r < |buf|
      modifies this`buf
      ensures Valid() && buf == old(buf)[r := old(buf)[r].(refcnt := Dec(old(buf)[r].refcnt))]
    {
      buf := buf[r := buf[r].(refcnt := Dec(buf[r].refcnt))];
    }
  }
}
