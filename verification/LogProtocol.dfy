/**
 The buffer cache and the log under concurrency and crashes (kernel/bio.c,
 kernel/log.c).

 Any number of kernel threads interleave at the granularity of one lock-protected
 action, one test made without a lock or one disk-block write; a crash may come
 between any two steps, including the steps of recovery.  The invariant says that
 the cache and the log agree in every reachable state, if the log is large enough.
 From it the whole system refines an atomic store whose committed contents change
 only by becoming the current contents at a moment when no operation is in progress.
 */
module LogProtocol {
  import opened BufferCache
  import opened Lists
  import Log
  import opened RedoLog
  import opened Sets
  import opened Storage

  const NPROC: nat := 64

  /** Where the committing thread stands in commit(). */
  datatype Pc =
    | Idle
    | Copy(k: nat)     // write_log
    | Head             // write_head, the commit point
    | Install(k: nat)  // install_trans: write the home block
    | Unpin(k: nat)    // install_trans: unpin it
    | Clear            // write_head with an empty list
    | Done

  datatype Mem = Mem(
    bufs: seq<Buf>,
    owner: map<int, nat>,    // which thread holds the sleep lock of a buffer
    waiting: map<nat, int>,  // which buffer's sleep lock a thread waits for
    leaving: map<nat, int>,  // which buffer a thread has unlocked in brelse and still counts for
    passed: map<nat, int>,   // for which buffer a thread has passed the test of log_write
    dirty: set<int>,         // buffers modified but not yet passed to log_write
    ops: set<nat>,           // threads between begin_op and end_op
    list: seq<nat>,          // lh.block[..lh.n]
    pc: Pc,
    ct: nat                  // the committing thread
  )

  // ------------------------------------------------------------------
  // The actions

  predicate Owns(m: Mem, t: nat, i: int) {
    0 <= i < |m.bufs| && i in m.owner && m.owner[i] == t
  }

  /** t has the buffer of block b, read in. */
  predicate Has(m: Mem, t: nat, i: int, b: int) {
    Owns(m, t, i) && m.bufs[i].valid && m.bufs[i].dev == ROOTDEV && m.bufs[i].blockno == b
  }

  /** bget up to its acquiresleep: reference a cached buffer, or recycle some unreferenced one. */
  predicate CanGet(d: Disk, m: Mem, t: nat, b: nat, i: int) {
    && t < NPROC && t !in m.waiting && t !in m.leaving && t !in m.passed && b < |d| && 0 <= i < |m.bufs|
    && (For(m.bufs[i], b) || (!IsCached(m.bufs, b) && m.bufs[i].refcnt == 0))
  }

  function Get(m: Mem, t: nat, b: nat, i: int): Mem
    requires 0 <= i < |m.bufs|
  {
    var x := m.bufs[i];
    var x' := if For(x, b) then x.(refcnt := Inc(x.refcnt))
              else x.(dev := ROOTDEV, blockno := b, valid := false, refcnt := 1);
    m.(bufs := m.bufs[i := x'], waiting := m.waiting[t := i])
  }

  predicate CanAcquire(m: Mem, t: nat) {
    t in m.waiting && 0 <= m.waiting[t] < |m.bufs| && m.waiting[t] !in m.owner
  }

  function Acquire(m: Mem, t: nat): Mem
    requires CanAcquire(m, t)
  {
    var i := m.waiting[t];
    m.(waiting := m.waiting - {t}, owner := m.owner[i := t], bufs := m.bufs[i := m.bufs[i].(locked := true)])
  }

  /** The disk read of bread. */
  predicate CanLoad(d: Disk, m: Mem, t: nat, i: int) {
    Owns(m, t, i) && !m.bufs[i].valid && m.bufs[i].blockno < |d|
  }

  function Load(d: Disk, m: Mem, i: int): Mem
    requires 0 <= i < |m.bufs| && m.bufs[i].blockno < |d|
  {
    m.(bufs := m.bufs[i := m.bufs[i].(valid := true, data := d[m.bufs[i].blockno])])
  }

  /** t has a home block, read in, inside an operation. */
  predicate Writable(l: Layout, m: Mem, t: nat, i: int) {
    t in m.ops && Owns(m, t, i) && m.bufs[i].valid && !l.InLog(m.bufs[i].blockno)
  }

  /** File-system code changes a home block inside an operation. */
  predicate CanModify(l: Layout, m: Mem, t: nat, i: int) {
    t !in m.passed && Writable(l, m, t, i)
  }

  function Modify(m: Mem, i: int, v: Block): Mem
    requires 0 <= i < |m.bufs|
  {
    m.(bufs := m.bufs[i := m.bufs[i].(data := v)], dirty := m.dirty + {i})
  }

  /** log_write up to its acquire, where it does not panic: the test is made without the lock of the log. */
  predicate CanTest(l: Layout, m: Mem, t: nat, i: int) {
    CanModify(l, m, t, i) && |m.list| < LOGSIZE && |m.list| < l.size - 1
  }

  function Test(m: Mem, t: nat, i: int): Mem {
    m.(passed := m.passed[t := i])
  }

  /** log_write under the lock of the log. */
  predicate CanAppend(m: Mem, t: nat) {
    t in m.passed && 0 <= m.passed[t] < |m.bufs|
  }

  function Append(m: Mem, t: nat): Mem
    requires CanAppend(m, t)
  {
    var i := m.passed[t];
    var b := m.bufs[i].blockno;
    if b in m.list then m.(passed := m.passed - {t}, dirty := m.dirty - {i})
    else m.(passed := m.passed - {t}, dirty := m.dirty - {i}, list := m.list + [b],
            bufs := m.bufs[i := m.bufs[i].(refcnt := Inc(m.bufs[i].refcnt))])
  }

  /** brelse, by callers that log what they modify: first the sleep lock is given back. */
  predicate CanRelease(m: Mem, t: nat, i: int) {
    t < NPROC && t !in m.leaving && t !in m.passed && Owns(m, t, i) && m.bufs[i].valid && i !in m.dirty
  }

  function Release(m: Mem, t: nat, i: int): Mem
    requires 0 <= i < |m.bufs|
  {
    m.(owner := m.owner - {i}, leaving := m.leaving[t := i], bufs := m.bufs[i := m.bufs[i].(locked := false)])
  }

  /** Then, under the lock of the cache, the reference goes. */
  predicate CanDrop(m: Mem, t: nat) {
    t in m.leaving && 0 <= m.leaving[t] < |m.bufs|
  }

  function Drop(m: Mem, t: nat): Mem
    requires CanDrop(m, t)
  {
    var i := m.leaving[t];
    m.(leaving := m.leaving - {t}, bufs := m.bufs[i := m.bufs[i].(refcnt := Dec(m.bufs[i].refcnt))])
  }

  predicate CanBegin(m: Mem, t: nat) {
    && t !in m.ops
    && m.pc.Idle?
    && |m.list| + (|m.ops| + 1) * MAXOPBLOCKS <= LOGSIZE
  }

  /** end_op is called with every buffer released. */
  predicate CanEnd(m: Mem, t: nat) {
    t in m.ops && t !in m.leaving && t !in m.passed && forall i :: i in m.owner ==> m.owner[i] != t
  }

  /** The last end_op of a group starts the commit, which does nothing for an empty list. */
  function End(m: Mem, t: nat): Mem {
    var ops := m.ops - {t};
    if ops != {} then m.(ops := ops)
    else m.(ops := ops, ct := t, pc := if m.list == [] then Done else Copy(0))
  }

  predicate CanCopy(l: Layout, d: Disk, m: Mem, to: int, from: int) {
    && m.pc.Copy? && m.pc.k < |m.list| && l.Slot(m.pc.k) < |d|
    && Has(m, m.ct, to, l.Slot(m.pc.k)) && Has(m, m.ct, from, m.list[m.pc.k])
  }

  function CopyStep(m: Mem, to: int, from: int): Mem
    requires m.pc.Copy? && 0 <= to < |m.bufs| && 0 <= from < |m.bufs|
  {
    m.(bufs := m.bufs[to := m.bufs[to].(data := m.bufs[from].data)],
       pc := if m.pc.k + 1 < |m.list| then Copy(m.pc.k + 1) else Head)
  }

  predicate CanHead(l: Layout, d: Disk, m: Mem, h: int) {
    m.pc.Head? && l.start < |d| && Has(m, m.ct, h, l.start) && |m.list| <= LOGSIZE
  }

  function HeadStep(m: Mem, h: int): Mem
    requires 0 <= h < |m.bufs| && |m.list| <= LOGSIZE
  {
    m.(bufs := m.bufs[h := m.bufs[h].(data := WithHeader(m.bufs[h].data, m.list))], pc := Install(0))
  }

  predicate CanInstall(l: Layout, d: Disk, m: Mem, lb: int, db: int) {
    && m.pc.Install? && m.pc.k < |m.list| && m.list[m.pc.k] < |d|
    && Has(m, m.ct, lb, l.Slot(m.pc.k)) && Has(m, m.ct, db, m.list[m.pc.k])
  }

  function InstallStep(m: Mem, lb: int, db: int): Mem
    requires m.pc.Install? && 0 <= lb < |m.bufs| && 0 <= db < |m.bufs|
  {
    m.(bufs := m.bufs[db := m.bufs[db].(data := m.bufs[lb].data)], pc := Unpin(m.pc.k))
  }

  predicate CanUnpin(m: Mem, db: int) {
    m.pc.Unpin? && m.pc.k < |m.list| && Has(m, m.ct, db, m.list[m.pc.k])
  }

  function UnpinStep(m: Mem, db: int): Mem
    requires m.pc.Unpin? && 0 <= db < |m.bufs|
  {
    m.(bufs := m.bufs[db := m.bufs[db].(refcnt := Dec(m.bufs[db].refcnt))],
       pc := if m.pc.k + 1 < |m.list| then Install(m.pc.k + 1) else Clear)
  }

  predicate CanClear(l: Layout, d: Disk, m: Mem, h: int) {
    m.pc.Clear? && l.start < |d| && Has(m, m.ct, h, l.start)
  }

  function ClearStep(m: Mem, h: int): Mem
    requires 0 <= h < |m.bufs|
  {
    m.(bufs := m.bufs[h := m.bufs[h].(data := WithHeader(m.bufs[h].data, []))], list := [], pc := Done)
  }

  // ------------------------------------------------------------------
  // The invariant

  /** The threads that wait for buffer i, or are leaving it. */
  ghost function Waiters(w: map<nat, int>, i: int): set<nat> {
    set t | t in w && w[t] == i
  }

  /** The blocks whose buffers the log has pinned. */
  function Pins(m: Mem): set<nat> {
    match m.pc
    case Install(k) => if k <= |m.list| then Remaining(m.list, k) else {}
    case Unpin(k) => if k <= |m.list| then Remaining(m.list, k) else {}
    case Clear => {}
    case _ => Elements(m.list)
  }

  ghost predicate BufInv(l: Layout, d: Disk, m: Mem, i: int)
    requires 0 <= i < |m.bufs|
  {
    var x := m.bufs[i];
    && x.dev <= ROOTDEV
    && (x.dev == ROOTDEV ==> x.blockno < |d|)
    && (x.refcnt > 0 ==> x.dev == ROOTDEV)
    && x.locked == (i in m.owner)
    && x.refcnt == (if x.locked then 1 else 0) + |Waiters(m.waiting, i)| + |Waiters(m.leaving, i)|
                   + (if Pinned(x, Pins(m)) then 1 else 0)
    && (Pinned(x, Pins(m)) ==> x.valid)
    && (i in m.dirty ==> x.valid && i in m.owner && m.owner[i] in m.ops && !l.InLog(x.blockno))
    && (x.dev == ROOTDEV && x.valid && !Pinned(x, Pins(m)) && i !in m.dirty ==> x.data == d[x.blockno])
  }

  /**
   The cache: one buffer per block, exact reference counts, and agreement with the disk except
   where pinned or dirty.
   */
  ghost predicate CacheInv(l: Layout, d: Disk, m: Mem) {
    && |m.bufs| == NBUF
    && Unique(m.bufs)
    && (forall i :: 0 <= i < |m.bufs| ==> BufInv(l, d, m, i))
    && (forall b :: b in Pins(m) ==> IsCached(m.bufs, b))
    && (forall t :: t in m.waiting ==> t < NPROC && 0 <= m.waiting[t] < NBUF)
    && (forall t :: t in m.leaving ==> t < NPROC && 0 <= m.leaving[t] < NBUF)
    && (forall i :: i in m.dirty ==> 0 <= i < NBUF)
  }

  // ------------------------------------------------------------------
  // Reference counts

  lemma {:induction false} WaitersBound(w: map<nat, int>, i: int)
    requires forall t :: t in w ==> t < NPROC
    ensures |Waiters(w, i)| <= NPROC
  {
    var few: set<int> := Waiters(w, i);
    assert few <= Indices(NPROC);
    SubsetSize(few, Indices(NPROC));
  }

  lemma {:induction false} WaitersAdd(w: map<nat, int>, t: nat, i: int, j: int)
    requires t !in w
    ensures |Waiters(w[t := i], j)| == |Waiters(w, j)| + if i == j then 1 else 0
  {
    if i == j {
      assert Waiters(w[t := i], j) == Waiters(w, j) + {t};
    } else {
      assert Waiters(w[t := i], j) == Waiters(w, j);
    }
  }

  lemma {:induction false} WaitersRemove(w: map<nat, int>, t: nat, j: int)
    requires t in w
    ensures |Waiters(w - {t}, j)| == |Waiters(w, j)| - if w[t] == j then 1 else 0
  {
    if w[t] == j {
      assert Waiters(w, j) == Waiters(w - {t}, j) + {t};
    } else {
      assert Waiters(w - {t}, j) == Waiters(w, j);
    }
  }

  lemma {:induction false} CountSmall(l: Layout, d: Disk, m: Mem, i: int)
    requires CacheInv(l, d, m) && 0 <= i < NBUF
    ensures m.bufs[i].refcnt <= 2 * NPROC + 2
    ensures Inc(m.bufs[i].refcnt) == m.bufs[i].refcnt + 1
    ensures m.bufs[i].refcnt > 0 ==> Dec(m.bufs[i].refcnt) == m.bufs[i].refcnt - 1
  {
    assert BufInv(l, d, m, i);
    WaitersBound(m.waiting, i);
    WaitersBound(m.leaving, i);
  }

  // ------------------------------------------------------------------
  // Every action keeps the cache invariant

  /** A buffer that an action does not touch stays good. */
  lemma {:induction false} BufFrame(l: Layout, d: Disk, m: Mem, d': Disk, m': Mem, i: int)
    requires 0 <= i < |m.bufs| && |m'.bufs| == |m.bufs| && |d'| == |d|
    requires BufInv(l, d, m, i)
    requires m'.bufs[i] == m.bufs[i]
    requires i in m'.owner <==> i in m.owner
    requires i in m.owner ==> m'.owner[i] == m.owner[i]
    requires |Waiters(m'.waiting, i)| == |Waiters(m.waiting, i)|
    requires |Waiters(m'.leaving, i)| == |Waiters(m.leaving, i)|
    requires i in m'.dirty <==> i in m.dirty
    requires i in m.dirty ==> m.owner[i] in m'.ops
    requires m.bufs[i].dev == ROOTDEV ==> (m.bufs[i].blockno in Pins(m') <==> m.bufs[i].blockno in Pins(m))
    requires m.bufs[i].dev == ROOTDEV ==> d'[m.bufs[i].blockno] == d[m.bufs[i].blockno]
    ensures BufInv(l, d', m', i)
  {
  }

  lemma {:induction false} CachedFrame(bs: seq<Buf>, bs': seq<Buf>, pins: set<nat>)
    requires |bs'| == |bs|
    requires forall i :: 0 <= i < |bs| && Pinned(bs[i], pins) ==>
               bs'[i].dev == bs[i].dev && bs'[i].blockno == bs[i].blockno
    requires forall b :: b in pins ==> IsCached(bs, b)
    ensures forall b :: b in pins ==> IsCached(bs', b)
  {
    forall b | b in pins ensures IsCached(bs', b) {
      var i :| 0 <= i < |bs| && For(bs[i], b);
      assert Pinned(bs[i], pins);
      assert For(bs'[i], b);
    }
  }

  lemma {:induction false} UniqueFrame(bs: seq<Buf>, bs': seq<Buf>)
    requires Unique(bs) && |bs'| == |bs|
    requires forall i :: 0 <= i < |bs| ==> bs'[i].dev == bs[i].dev && bs'[i].blockno == bs[i].blockno
    ensures Unique(bs')
  {
  }

  lemma {:induction false} GetKeeps(l: Layout, d: Disk, m: Mem, t: nat, b: nat, r: int)
    requires CacheInv(l, d, m) && CanGet(d, m, t, b, r)
    ensures CacheInv(l, d, Get(m, t, b, r))
  {
    var m' := Get(m, t, b, r);
    CountSmall(l, d, m, r);
    assert BufInv(l, d, m, r);
    forall i | 0 <= i < NBUF ensures BufInv(l, d, m', i) {
      WaitersAdd(m.waiting, t, r, i);
      if i != r {
        BufFrame(l, d, m, d, m', i);
      } else {
        assert (Waiters(m.waiting, r) == {} && Waiters(m.leaving, r) == {}) || m.bufs[r].refcnt > 0;
      }
    }
    if For(m.bufs[r], b) {
      UniqueFrame(m.bufs, m'.bufs);
    } else {
      assert forall i :: 0 <= i < NBUF && i != r ==> m'.bufs[i] == m.bufs[i] && !For(m.bufs[i], b);
    }
    CachedFrame(m.bufs, m'.bufs, Pins(m));
  }

  /** m' differs from m, and d' from d, only around buffer r and its block. */
  ghost predicate Touches(d: Disk, m: Mem, d': Disk, m': Mem, r: int) {
    && 0 <= r < |m.bufs| == |m'.bufs| && |d'| == |d|
    && m.bufs[r].dev == ROOTDEV && m'.bufs[r].dev == ROOTDEV && m'.bufs[r].blockno == m.bufs[r].blockno
    && (forall i :: 0 <= i < |m.bufs| && i != r ==> m'.bufs[i] == m.bufs[i])
    && (forall i :: i != r ==> (i in m'.owner <==> i in m.owner) && (i in m.owner ==> m'.owner[i] == m.owner[i]))
    && (forall i :: i != r ==> |Waiters(m'.waiting, i)| == |Waiters(m.waiting, i)|)
    && (forall t :: t in m'.waiting ==> t in m.waiting && m'.waiting[t] == m.waiting[t])
    && (forall i :: i != r ==> |Waiters(m'.leaving, i)| == |Waiters(m.leaving, i)|)
    && (forall t :: t in m'.leaving ==>
          (t in m.leaving && m'.leaving[t] == m.leaving[t]) || (t < NPROC && m'.leaving[t] == r))
    && (forall i :: i != r ==> (i in m'.dirty <==> i in m.dirty))
    && m'.ops == m.ops
    && (forall b :: b != m.bufs[r].blockno ==> (b in Pins(m') <==> b in Pins(m)))
    && (forall b :: 0 <= b < |d| && b != m.bufs[r].blockno ==> d'[b] == d[b])
  }

  lemma {:induction false} TouchKeeps(l: Layout, d: Disk, m: Mem, d': Disk, m': Mem, r: int)
    requires CacheInv(l, d, m) && Touches(d, m, d', m', r) && BufInv(l, d', m', r)
    ensures CacheInv(l, d', m')
  {
    hide Pins;
    forall i | 0 <= i < NBUF ensures BufInv(l, d', m', i) {
      if i != r {
        assert BufInv(l, d, m, i);
        assert m.bufs[i].dev == ROOTDEV ==> m.bufs[i].blockno != m.bufs[r].blockno;
        BufFrame(l, d, m, d', m', i);
      }
    }
    UniqueFrame(m.bufs, m'.bufs);
    forall b | b in Pins(m') ensures IsCached(m'.bufs, b) {
      if b == m.bufs[r].blockno {
        assert For(m'.bufs[r], b);
      } else {
        assert b in Pins(m);
        var i :| 0 <= i < |m.bufs| && For(m.bufs[i], b);
        assert For(m'.bufs[i], b);
      }
    }
  }

  lemma {:induction false} AcquireKeeps(l: Layout, d: Disk, m: Mem, t: nat)
    requires CacheInv(l, d, m) && CanAcquire(m, t)
    ensures CacheInv(l, d, Acquire(m, t))
  {
    hide Pins;
    var m', r := Acquire(m, t), m.waiting[t];
    assert BufInv(l, d, m, r);
    assert t in Waiters(m.waiting, r);
    forall i ensures |Waiters(m'.waiting, i)| == |Waiters(m.waiting, i)| - if i == r then 1 else 0 {
      WaitersRemove(m.waiting, t, i);
    }
    SamePins(m, m');
    TouchKeeps(l, d, m, d, m', r);
  }

  /** Pins depend on the list and the committing position only. */
  lemma {:induction false} SamePins(m: Mem, m': Mem)
    requires m'.list == m.list && m'.pc == m.pc
    ensures Pins(m') == Pins(m)
  {
  }

  lemma {:induction false} OwnedUsed(l: Layout, d: Disk, m: Mem, t: nat, r: int)
    requires CacheInv(l, d, m) && Owns(m, t, r)
    ensures m.bufs[r].dev == ROOTDEV && m.bufs[r].blockno < |d| && m.bufs[r].locked && BufInv(l, d, m, r)
  {
    assert BufInv(l, d, m, r);
  }

  lemma {:induction false} LoadKeeps(l: Layout, d: Disk, m: Mem, t: nat, r: int)
    requires CacheInv(l, d, m) && CanLoad(d, m, t, r)
    ensures CacheInv(l, d, Load(d, m, r))
  {
    hide Pins;
    OwnedUsed(l, d, m, t, r);
    SamePins(m, Load(d, m, r));
    TouchKeeps(l, d, m, d, Load(d, m, r), r);
  }

  lemma {:induction false} ModifyKeepsCache(l: Layout, d: Disk, m: Mem, t: nat, r: int, v: Block)
    requires CacheInv(l, d, m) && CanModify(l, m, t, r)
    ensures CacheInv(l, d, Modify(m, r, v))
  {
    hide Pins;
    OwnedUsed(l, d, m, t, r);
    SamePins(m, Modify(m, r, v));
    TouchKeeps(l, d, m, d, Modify(m, r, v), r);
    assert r in Modify(m, r, v).dirty;
  }

  lemma {:induction false} AppendKeeps(l: Layout, d: Disk, m: Mem, t: nat)
    requires CacheInv(l, d, m) && CanAppend(m, t) && Writable(l, m, t, m.passed[t]) && m.pc.Idle?
    ensures CacheInv(l, d, Append(m, t))
  {
    var m', r := Append(m, t), m.passed[t];
    OwnedUsed(l, d, m, t, r);
    CountSmall(l, d, m, r);
    TouchKeeps(l, d, m, d, m', r);
  }

  lemma {:induction false} ReleaseKeepsCache(l: Layout, d: Disk, m: Mem, t: nat, r: int)
    requires CacheInv(l, d, m) && CanRelease(m, t, r)
    ensures CacheInv(l, d, Release(m, t, r))
  {
    hide Pins;
    var m' := Release(m, t, r);
    OwnedUsed(l, d, m, t, r);
    forall i ensures |Waiters(m'.leaving, i)| == |Waiters(m.leaving, i)| + if i == r then 1 else 0 {
      WaitersAdd(m.leaving, t, r, i);
    }
    SamePins(m, m');
    TouchKeeps(l, d, m, d, m', r);
  }

  lemma {:induction false} DropKeepsCache(l: Layout, d: Disk, m: Mem, t: nat)
    requires CacheInv(l, d, m) && CanDrop(m, t)
    ensures CacheInv(l, d, Drop(m, t))
  {
    hide Pins;
    var m', r := Drop(m, t), m.leaving[t];
    assert BufInv(l, d, m, r);
    assert t in Waiters(m.leaving, r);
    CountSmall(l, d, m, r);
    forall i ensures |Waiters(m'.leaving, i)| == |Waiters(m.leaving, i)| - if i == r then 1 else 0 {
      WaitersRemove(m.leaving, t, i);
    }
    SamePins(m, m');
    TouchKeeps(l, d, m, d, m', r);
  }

  lemma {:induction false} OpsKeep(l: Layout, d: Disk, m: Mem, m': Mem)
    requires CacheInv(l, d, m)
    requires m' == m.(ops := m'.ops, pc := m'.pc, ct := m'.ct) && Pins(m') == Pins(m)
    requires forall i :: i in m.dirty && i in m.owner && m.owner[i] in m.ops ==> m.owner[i] in m'.ops
    ensures CacheInv(l, d, m')
  {
    hide Pins;
    forall i | 0 <= i < NBUF ensures BufInv(l, d, m', i) {
      assert BufInv(l, d, m, i);
      BufFrame(l, d, m, d, m', i);
    }
  }

  // ------------------------------------------------------------------
  // What the threads see

  /** Every home block shows the same contents. */
  ghost predicate SameShown(l: Layout, d: Disk, m: Mem, d': Disk, m': Mem) {
    Log.SameHomeView(l, m.bufs, d, m'.bufs, d')
  }

  /** An action around buffer r that keeps what r shows keeps what every block shows. */
  lemma {:induction false} TouchShows(l: Layout, d: Disk, m: Mem, d': Disk, m': Mem, r: int)
    requires CacheInv(l, d, m) && Touches(d, m, d', m', r) && CacheInv(l, d', m')
    requires m'.bufs[r].blockno < |d|
    requires l.InLog(m.bufs[r].blockno) ||
             View(m'.bufs, d', m.bufs[r].blockno) == View(m.bufs, d, m.bufs[r].blockno)
    ensures SameShown(l, d, m, d', m')
  {
    hide Pins, BufInv;
    forall b | 0 <= b < |d| && !l.InLog(b) ensures View(m'.bufs, d', b) == View(m.bufs, d, b) {
      if b != m.bufs[r].blockno {
        ViewUnchanged(m.bufs, d, m'.bufs, d', r, b);
      }
    }
  }

  /** The buffer of a valid block shows its data. */
  lemma {:induction false} ShownBy(l: Layout, d: Disk, m: Mem, r: int)
    requires CacheInv(l, d, m) && 0 <= r < NBUF && m.bufs[r].dev == ROOTDEV && m.bufs[r].valid
    ensures m.bufs[r].blockno < |d| && View(m.bufs, d, m.bufs[r].blockno) == m.bufs[r].data
  {
    assert BufInv(l, d, m, r);
    ViewOf(m.bufs, d, r);
  }

  lemma {:induction false} GetShows(l: Layout, d: Disk, m: Mem, t: nat, b: nat, r: int)
    requires CacheInv(l, d, m) && CanGet(d, m, t, b, r)
    ensures SameShown(l, d, m, d, Get(m, t, b, r))
  {
    var bs, bs' := m.bufs, Get(m, t, b, r).bufs;
    GetKeeps(l, d, m, t, b, r);
    assert BufInv(l, d, m, r);
    forall c | 0 <= c < |d| ensures View(bs', d, c) == View(bs, d, c) {
      if For(bs[r], c) && bs[r].valid {
        ViewOf(bs, d, r);
        if For(bs[r], b) {
          ViewOf(bs', d, r);
        } else {
          assert forall i :: 0 <= i < |bs'| && For(bs'[i], c) ==> i != r && For(bs[i], c) && false;
        }
      } else {
        ViewUnchanged(bs, d, bs', d, r, c);
      }
    }
  }

  lemma {:induction false} LoadShows(l: Layout, d: Disk, m: Mem, t: nat, r: int)
    requires CacheInv(l, d, m) && CanLoad(d, m, t, r)
    ensures SameShown(l, d, m, d, Load(d, m, r))
  {
    hide Pins;
    LoadKeeps(l, d, m, t, r);
    var m' := Load(d, m, r);
    OwnedUsed(l, d, m, t, r);
    ShownBy(l, d, m', r);
    SamePins(m, m');
    if i :| 0 <= i < |m.bufs| && For(m.bufs[i], m.bufs[r].blockno) && m.bufs[i].valid {
      assert false;
    }
    TouchShows(l, d, m, d, m', r);
  }

  /** Actions that leave device, block, validity and data of every buffer leave what is shown. */
  lemma {:induction false} SameDataShows(l: Layout, d: Disk, m: Mem, m': Mem)
    requires Unique(m.bufs) && |m'.bufs| == |m.bufs|
    requires forall i :: 0 <= i < |m.bufs| ==>
               && m'.bufs[i].dev == m.bufs[i].dev && m'.bufs[i].blockno == m.bufs[i].blockno
               && m'.bufs[i].valid == m.bufs[i].valid && m'.bufs[i].data == m.bufs[i].data
    ensures SameShown(l, d, m, d, m')
  {
    hide Pins;
    forall b | 0 <= b < |d| && !l.InLog(b) ensures View(m'.bufs, d, b) == View(m.bufs, d, b) {
      if i :| 0 <= i < |m.bufs| && For(m.bufs[i], b) && m.bufs[i].valid {
        ViewOf(m.bufs, d, i);
        assert For(m'.bufs[i], b) && m'.bufs[i].valid;
        ViewOf(m'.bufs, d, i);
      } else {
        assert forall i :: 0 <= i < |m.bufs| && For(m'.bufs[i], b) ==> For(m.bufs[i], b);
      }
    }
  }

  /** A change to one home block shows as a change to that block only. */
  lemma {:induction false} ModifyShows(l: Layout, d: Disk, m: Mem, t: nat, r: int, v: Block)
    requires CacheInv(l, d, m) && CanModify(l, m, t, r)
    ensures var m', b := Modify(m, r, v), m.bufs[r].blockno;
            && b < |d| && View(m'.bufs, d, b) == v
            && forall c :: 0 <= c < |d| && c != b ==> View(m'.bufs, d, c) == View(m.bufs, d, c)
  {
    hide Pins;
    ModifyKeepsCache(l, d, m, t, r, v);
    OwnedUsed(l, d, m, t, r);
    ShownBy(l, d, Modify(m, r, v), r);
    forall c | 0 <= c < |d| && c != m.bufs[r].blockno ensures View(Modify(m, r, v).bufs, d, c) == View(m.bufs, d, c) {
      ViewUnchanged(m.bufs, d, Modify(m, r, v).bufs, d, r, c);
    }
  }

  // ------------------------------------------------------------------
  // The log

  /** The listed blocks are on the disk and outside the log. */
  predicate AtHome(l: Layout, size: nat, list: seq<nat>) {
    && l.start + l.size <= size
    && forall i :: 0 <= i < |list| ==> list[i] < size && !l.InLog(list[i])
  }

  /**
   A slot for each block that can be pinned with a buffer left for write_log, or no slot at all.  Others may
   append between the test of log_write and its append, so the test alone does not keep the list within
   the slots; the buffers do.
   */
  predicate LargeEnough(l: Layout) {
    l.size == 1 || l.size >= LOGSIZE
  }

  /** The first k log slots hold what the cache shows for the first k listed blocks. */
  ghost predicate SlotsShow(l: Layout, d: Disk, m: Mem, k: nat) {
    && k <= |m.list| && Fits(l, |d|, m.list)
    && forall j :: 0 <= j < k ==> d[l.Slot(j)] == View(m.bufs, d, m.list[j])
  }

  /** The first k listed home blocks hold what their log slots hold. */
  ghost predicate HomesInstalled(l: Layout, d: Disk, m: Mem, k: nat) {
    && k <= |m.list| && Fits(l, |d|, m.list)
    && forall j :: 0 <= j < k ==> d[m.list[j]] == d[l.Slot(j)]
  }

  /** Once a slot is written, a buffer was left for it beside the pinned ones, and the list fits the slots. */
  ghost predicate PhaseInv(l: Layout, d: Disk, m: Mem)
    requires WellFormed(l, d)
  {
    var n := |m.list|;
    match m.pc
    case Idle => Logged(l, d) == []
    case Copy(k) => k < n && Logged(l, d) == [] && (k > 0 ==> n < NBUF && SlotsShow(l, d, m, k))
    case Head => 0 < n < NBUF && Logged(l, d) == [] && SlotsShow(l, d, m, n)
    case Install(k) => k < n < NBUF && Logged(l, d) == m.list && SlotsShow(l, d, m, n) && HomesInstalled(l, d, m, k)
    case Unpin(k) => k < n < NBUF && Logged(l, d) == m.list && SlotsShow(l, d, m, n) && HomesInstalled(l, d, m, k + 1)
    case Clear => 0 < n < NBUF && Logged(l, d) == m.list && SlotsShow(l, d, m, n) && HomesInstalled(l, d, m, n)
    case Done => m.list == [] && Logged(l, d) == []
  }

  ghost predicate LogInv(l: Layout, d: Disk, m: Mem) {
    && LargeEnough(l)
    && (l.size == 1 ==> m.list == [] && m.passed == map[])
    && AtHome(l, |d|, m.list)
    && Distinct(m.list)
    && WellFormed(l, d)
    && (!m.pc.Idle? ==> m.ops == {})
    && PhaseInv(l, d, m)
  }

  /** A thread inside log_write still has what it passed the test for. */
  ghost predicate PassedInv(l: Layout, m: Mem) {
    forall t :: t in m.passed ==> Writable(l, m, t, m.passed[t])
  }

  ghost predicate Inv(l: Layout, d: Disk, m: Mem) {
    CacheInv(l, d, m) && LogInv(l, d, m) && PassedInv(l, m)
  }

  /** What is shown, the list and the disk decide the log invariant. */
  lemma {:induction false} LogFrame(l: Layout, d: Disk, m: Mem, m': Mem)
    requires LogInv(l, d, m) && SameShown(l, d, m, d, m')
    requires m'.list == m.list && m'.passed == m.passed && m'.pc == m.pc && (m'.ops == m.ops || m.pc.Idle?)
    ensures LogInv(l, d, m')
  {
    hide View;
  }

  lemma {:induction false} DirtyInOps(l: Layout, d: Disk, m: Mem)
    requires CacheInv(l, d, m)
    ensures forall i :: i in m.dirty ==> i in m.owner && m.owner[i] in m.ops
  {
    hide Pins;
    forall i | i in m.dirty ensures i in m.owner && m.owner[i] in m.ops {
      assert BufInv(l, d, m, i);
    }
  }

  /** Nothing is dirty while a commit runs, and nobody is inside log_write. */
  lemma {:induction false} CommitClean(l: Layout, d: Disk, m: Mem)
    requires Inv(l, d, m) && !m.pc.Idle?
    ensures m.dirty == {} && m.passed == map[]
  {
    hide CacheInv, PhaseInv;
    DirtyInOps(l, d, m);
    assert m.ops == {};
    assert forall i :: i !in m.dirty;
    assert forall t :: t !in m.passed;
  }

  /** A buffer of a block outside the pinned set agrees with the disk during a commit. */
  lemma {:induction false} CommitAgrees(l: Layout, d: Disk, m: Mem, t: nat, r: int, b: int)
    requires Inv(l, d, m) && !m.pc.Idle? && Has(m, t, r, b) && b !in Pins(m)
    ensures 0 <= b < |d| && m.bufs[r].data == d[b]
  {
    hide Pins;
    assert BufInv(l, d, m, r);
    CommitClean(l, d, m);
  }

  /** Pinned blocks are home blocks. */
  lemma {:induction false} PinsAtHome(l: Layout, d: Disk, m: Mem, b: int)
    requires LogInv(l, d, m) && l.InLog(b)
    ensures b !in Pins(m)
  {
  }

  /** With a buffer that holds another block, fewer than NBUF blocks are pinned. */
  lemma {:induction false} PinsLeave(l: Layout, d: Disk, m: Mem, r: int)
    requires CacheInv(l, d, m) && 0 <= r < NBUF && !Pinned(m.bufs[r], Pins(m))
    ensures |Pins(m)| < NBUF
  {
    hide BufInv, Pins;
    forall b | b in Pins(m) ensures exists i :: i in Indices(NBUF) - {r} && 0 <= i < |m.bufs| && For(m.bufs[i], b) {
      assert IsCached(m.bufs, b);
      var i :| 0 <= i < |m.bufs| && For(m.bufs[i], b);
      assert i in Indices(NBUF) - {r};
    }
    BlocksBound(m.bufs, Pins(m), Indices(NBUF) - {r});
  }

  /** The buffer of a log block is not one of the pinned ones, so fewer than NBUF blocks are logged, and they fit. */
  lemma {:induction false} CopyRoom(l: Layout, d: Disk, m: Mem, to: int)
    requires CacheInv(l, d, m) && LogInv(l, d, m) && m.pc.Copy? && Has(m, m.ct, to, l.Slot(m.pc.k))
    ensures |m.list| < NBUF && Fits(l, |d|, m.list) && l.InLog(l.Slot(m.pc.k))
  {
    hide CacheInv, View;
    if m.pc.k == 0 {
      CacheUnique(l, d, m);
      PinsAtHome(l, d, m, l.Slot(0));
      PinsLeave(l, d, m, to);
      DistinctSize(m.list);
    }
  }

  /** An append finds room in the array of the header whatever happened since the test: the pins leave its buffer. */
  lemma {:induction false} AppendInBounds(l: Layout, d: Disk, m: Mem, t: nat)
    requires Inv(l, d, m) && t in m.passed
    ensures CanAppend(m, t) && m.pc.Idle? && (m.bufs[m.passed[t]].blockno in m.list || |m.list| < LOGSIZE)
  {
    hide CacheInv, PhaseInv;
    var r := m.passed[t];
    assert Writable(l, m, t, r);
    CacheUnique(l, d, m);
    if m.bufs[r].blockno !in m.list {
      PinsLeave(l, d, m, r);
      DistinctSize(m.list);
    }
  }

  /** write_log copies the last logged contents of the block into its slot. */
  lemma {:induction false} CopyKeeps(l: Layout, d: Disk, m: Mem, to: int, from: int)
    requires Inv(l, d, m) && CanCopy(l, d, m, to, from)
    ensures var d', m' := d[l.Slot(m.pc.k) := m.bufs[from].data], CopyStep(m, to, from);
            Inv(l, d', m') && SameShown(l, d, m, d', m') && SameHome(l, d, d')
  {
    hide CacheInv, View, Distinct;
    var k := m.pc.k;
    var d', m' := d[l.Slot(k) := m.bufs[from].data], CopyStep(m, to, from);
    assert Pins(m') == Pins(m);
    CopyRoom(l, d, m, to);
    CacheUnique(l, d, m);
    ShownBy(l, d, m, from);
    CommitClean(l, d, m);
    PinsAtHome(l, d, m, l.Slot(k));
    OwnedUsed(l, d, m, m.ct, to);
    CopyCache(l, d, m, to, from, d', m');
  }

  lemma {:induction false} CopyCache(l: Layout, d: Disk, m: Mem, to: int, from: int, d': Disk, m': Mem)
    requires CacheInv(l, d, m) && CanCopy(l, d, m, to, from) && Pins(m') == Pins(m) && m.dirty == {}
    requires d' == d[l.Slot(m.pc.k) := m.bufs[from].data] && m' == CopyStep(m, to, from)
    requires l.Slot(m.pc.k) !in Pins(m) && l.InLog(l.Slot(m.pc.k))
    ensures CacheInv(l, d', m') && SameShown(l, d, m, d', m')
  {
    hide Pins;
    OwnedUsed(l, d, m, m.ct, to);
    TouchKeeps(l, d, m, d', m', to);
    TouchShows(l, d, m, d', m', to);
  }

  /** A write of the header block, by the thread that has its buffer. */
  lemma {:induction false} HeaderCache(l: Layout, d: Disk, m: Mem, h: int, v: Block, m': Mem)
    requires Inv(l, d, m) && !m.pc.Idle? && Has(m, m.ct, h, l.start) && 0 < l.size
    requires |m'.bufs| == |m.bufs| && m' == m.(bufs := m.bufs[h := m.bufs[h].(data := v)], list := m'.list, pc := m'.pc)
    requires Pins(m') == Pins(m)
    ensures m.bufs[h].data == d[l.start]
    ensures CacheInv(l, d[l.start := v], m') && SameShown(l, d, m, d[l.start := v], m')
  {
    hide Pins;
    OwnedUsed(l, d, m, m.ct, h);
    PinsAtHome(l, d, m, l.start);
    CommitAgrees(l, d, m, m.ct, h, l.start);
    CommitClean(l, d, m);
    TouchKeeps(l, d, m, d[l.start := v], m', h);
    TouchShows(l, d, m, d[l.start := v], m', h);
  }

  /** Writing the header keeps the slots and home blocks of the log. */
  lemma {:induction false} HeaderSlots(l: Layout, d: Disk, m: Mem, v: Block, m': Mem, k: nat)
    requires SlotsShow(l, d, m, k) && m'.list == m.list && SameShown(l, d, m, d[l.start := v], m')
    ensures SlotsShow(l, d[l.start := v], m', k)
  {
    hide View;
  }

  /** The commit point: the header lists exactly the logged blocks, whose contents the slots hold. */
  lemma {:induction false} HeadKeeps(l: Layout, d: Disk, m: Mem, h: int)
    requires Inv(l, d, m) && CanHead(l, d, m, h)
    ensures m.bufs[h].data == d[l.start]
    ensures var d', m' := HeadWritten(l, d, m.list), HeadStep(m, h);
            Inv(l, d', m') && SameShown(l, d, m, d', m')
  {
    hide View, BufInv, Unique, Distinct;
    var m' := HeadStep(m, h);
    var v := WithHeader(m.bufs[h].data, m.list);
    RemainingEnds(m.list);
    HeaderCache(l, d, m, h, v, m');
    HeaderSlots(l, d, m, v, m', |m.list|);
  }

  /** install_trans writes to a home block what the cache shows for it. */
  lemma {:induction false} InstallKeeps(l: Layout, d: Disk, m: Mem, lb: int, db: int)
    requires Inv(l, d, m) && CanInstall(l, d, m, lb, db)
    ensures var d', m' := d[m.list[m.pc.k] := m.bufs[lb].data], InstallStep(m, lb, db);
            Inv(l, d', m') && SameShown(l, d, m, d', m')
  {
    var k := m.pc.k;
    var d', m' := d[m.list[k] := m.bufs[lb].data], InstallStep(m, lb, db);
    PinsAtHome(l, d, m, l.Slot(k));
    CommitAgrees(l, d, m, m.ct, lb, l.Slot(k));
    ShownBy(l, d, m, db);
    assert m.bufs[lb].data == m.bufs[db].data;
    assert m'.bufs == m.bufs;
    CommitClean(l, d, m);
    InstallCache(l, d, m, db, d', m');
    InstallLog(l, d, m, d', m');
  }

  lemma {:induction false} InstallLog(l: Layout, d: Disk, m: Mem, d': Disk, m': Mem)
    requires LogInv(l, d, m) && m.pc.Install? && SameShown(l, d, m, d', m')
    requires m' == m.(pc := Unpin(m.pc.k), bufs := m'.bufs) && d' == d[m.list[m.pc.k] := d[l.Slot(m.pc.k)]]
    ensures LogInv(l, d', m')
  {
    hide View;
    assert forall j :: 0 <= j < |m.list| ==> d'[l.Slot(j)] == d[l.Slot(j)];
  }

  lemma {:induction false} InstallCache(l: Layout, d: Disk, m: Mem, db: int, d': Disk, m': Mem)
    requires CacheInv(l, d, m) && m.dirty == {} && Owns(m, m.ct, db) && m.bufs[db].valid && m.bufs[db].blockno < |d|
    requires d' == d[m.bufs[db].blockno := m.bufs[db].data] && m' == m.(pc := m'.pc) && Pins(m') == Pins(m)
    ensures CacheInv(l, d', m') && SameShown(l, d, m, d', m')
  {
    hide Pins;
    OwnedUsed(l, d, m, m.ct, db);
    TouchKeeps(l, d, m, d', m', db);
    ShownBy(l, d, m, db);
    ShownBy(l, d', m', db);
    TouchShows(l, d, m, d', m', db);
  }

  /** An installed block may be unpinned: its buffer agrees with the disk again. */
  lemma {:induction false} UnpinKeepsInv(l: Layout, d: Disk, m: Mem, db: int)
    requires Inv(l, d, m) && CanUnpin(m, db)
    ensures var m' := UnpinStep(m, db);
            Inv(l, d, m') && SameShown(l, d, m, d, m')
  {
    hide CacheInv, View, Pins, Distinct;
    var m' := UnpinStep(m, db);
    UnpinPins(l, d, m, db);
    CacheUnique(l, d, m);
    ShownBy(l, d, m, db);
    SameDataShows(l, d, m, m');
    CommitClean(l, d, m);
    UnpinCache(l, d, m, db, m');
  }

  lemma {:induction false} CacheUnique(l: Layout, d: Disk, m: Mem)
    requires CacheInv(l, d, m)
    ensures Unique(m.bufs) && |m.bufs| == NBUF
  {
  }

  lemma {:induction false} UnpinPins(l: Layout, d: Disk, m: Mem, db: int)
    requires LogInv(l, d, m) && CanUnpin(m, db)
    ensures m.list[m.pc.k] in Pins(m) && Pins(UnpinStep(m, db)) == Pins(m) - {m.list[m.pc.k]}
  {
    hide View;
    RemainingNext(m.list, m.pc.k);
    RemainingEnds(m.list);
  }

  lemma {:induction false} UnpinCache(l: Layout, d: Disk, m: Mem, db: int, m': Mem)
    requires CacheInv(l, d, m) && m.dirty == {} && CanUnpin(m, db) && m' == UnpinStep(m, db)
    requires m.list[m.pc.k] in Pins(m) && Pins(m') == Pins(m) - {m.list[m.pc.k]}
    requires m.list[m.pc.k] < |d| && m.bufs[db].data == d[m.list[m.pc.k]]
    ensures CacheInv(l, d, m')
  {
    hide Pins;
    OwnedUsed(l, d, m, m.ct, db);
    CountSmall(l, d, m, db);
    TouchKeeps(l, d, m, d, m', db);
  }

  /** Erasing the header: every listed block is installed, so the log is no longer needed. */
  lemma {:induction false} ClearKeeps(l: Layout, d: Disk, m: Mem, h: int)
    requires Inv(l, d, m) && CanClear(l, d, m, h)
    ensures m.bufs[h].data == d[l.start]
    ensures var d', m' := HeadWritten(l, d, []), ClearStep(m, h);
            Inv(l, d', m') && SameShown(l, d, m, d', m')
  {
    hide View, BufInv, Unique;
    EmptyDistinct();
    HeaderCache(l, d, m, h, WithHeader(m.bufs[h].data, []), ClearStep(m, h));
  }

  // ------------------------------------------------------------------
  // When bget finds no buffer

  /** The buffers that are locked, waited for or being released, and not pinned. */
  ghost function Held(m: Mem): set<int> {
    set i | i in Indices(|m.bufs|) && InUse(m, i) && !Pinned(m.bufs[i], Pins(m))
  }

  predicate InUse(m: Mem, i: int) {
    i in m.owner || i in m.waiting.Values || i in m.leaving.Values
  }

  ghost function PinnedBufs(m: Mem): set<int> {
    set i | i in Indices(|m.bufs|) && Pinned(m.bufs[i], Pins(m))
  }

  lemma {:induction false} PinnedCount(l: Layout, d: Disk, m: Mem)
    requires CacheInv(l, d, m)
    ensures |PinnedBufs(m)| == |Pins(m)| && |PinnedBufs(m) + Held(m)| == |Pins(m)| + |Held(m)|
  {
    hide BufInv, Pins;
    InjectionBound(m.bufs, PinnedBufs(m), Pins(m));
    forall b | b in Pins(m) ensures exists i :: i in PinnedBufs(m) && 0 <= i < |m.bufs| && For(m.bufs[i], b) {
      assert IsCached(m.bufs, b);
      var i :| 0 <= i < |m.bufs| && For(m.bufs[i], b);
      assert i in PinnedBufs(m);
    }
    BlocksBound(m.bufs, Pins(m), PinnedBufs(m));
    assert PinnedBufs(m) !! Held(m);
  }

  lemma {:induction false} SomeWaiter(w: map<nat, int>, i: int)
    ensures i in w.Values <==> 0 < |Waiters(w, i)|
  {
    if i in w.Values {
      var t :| t in w && w[t] == i;
      assert t in Waiters(w, i);
    } else {
      assert forall t :: t in w ==> w[t] in w.Values;
      assert Waiters(w, i) == {};
    }
  }

  lemma {:induction false} UnreferencedExactly(l: Layout, d: Disk, m: Mem, i: int)
    requires CacheInv(l, d, m) && 0 <= i < NBUF
    ensures m.bufs[i].refcnt == 0 <==> i !in PinnedBufs(m) + Held(m)
  {
    hide Pins;
    assert BufInv(l, d, m, i);
    SomeWaiter(m.waiting, i);
    SomeWaiter(m.leaving, i);
  }

  /**
   bget by any thread at any point: it panics exactly when the block is not cached and the pinned
   blocks and the buffers in other use fill the cache.
   */
  lemma {:induction false} GetExactly(l: Layout, d: Disk, m: Mem, t: nat, b: nat)
    requires CacheInv(l, d, m) && t < NPROC && t !in m.waiting && t !in m.leaving && t !in m.passed && b < |d|
    ensures (exists i :: CanGet(d, m, t, b, i)) <==> IsCached(m.bufs, b) || |Pins(m)| + |Held(m)| < NBUF
  {
    hide BufInv, Pins, Held, PinnedBufs;
    var busy := PinnedBufs(m) + Held(m);
    PinnedCount(l, d, m);
    if IsCached(m.bufs, b) {
      var i :| 0 <= i < |m.bufs| && For(m.bufs[i], b);
      assert CanGet(d, m, t, b, i);
    } else if |busy| < NBUF {
      var i := Missing(busy, NBUF);
      UnreferencedExactly(l, d, m, i);
      assert CanGet(d, m, t, b, i);
    } else if i :| CanGet(d, m, t, b, i) {
      UnreferencedExactly(l, d, m, i);
      BusyBound(m, i);
      assert false;
    }
  }

  lemma {:induction false} BusyBound(m: Mem, i: int)
    requires |m.bufs| == NBUF && 0 <= i < NBUF && i !in PinnedBufs(m) + Held(m)
    ensures |PinnedBufs(m) + Held(m)| < NBUF
  {
    hide Pins;
    SubsetSize(PinnedBufs(m) + Held(m), Indices(NBUF) - {i});
  }

  /** write_log gets a buffer for its log block exactly while the logged blocks and the buffers in use leave one. */
  lemma {:induction false} CommitGetsExactly(l: Layout, d: Disk, m: Mem)
    requires Inv(l, d, m) && m.pc.Copy? && m.ct < NPROC && m.ct !in m.waiting && m.ct !in m.leaving
    ensures 0 <= l.Slot(m.pc.k) < |d|
    ensures (exists i :: CanGet(d, m, m.ct, l.Slot(m.pc.k), i)) <==>
            IsCached(m.bufs, l.Slot(m.pc.k)) || |m.list| + |Held(m)| < NBUF
  {
    hide CacheInv, Held, View;
    CommitClean(l, d, m);
    GetExactly(l, d, m, m.ct, l.Slot(m.pc.k));
    DistinctSize(m.list);
  }
}
