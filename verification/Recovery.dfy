/**
 recover_from_log of kernel/log.c over the buffer cache.

 On disk it performs exactly the recovery trace of RedoLog.  In memory it runs
 install_trans on buffers that no transaction pinned, so bunpin and brelse
 between them take the unsigned reference count of every installed block below
 zero.  The cache is sound after boot exactly when the log was empty.
 */
module Recovery {
  import opened BufferCache
  import opened Lists
  import opened Log
  import LruRing
  import opened RedoLog
  import opened Sets
  import opened Storage

  const WRAPPED: nat := UINT_MODULUS - 1

  predicate StuckOrFree(x: Buf, disk: Disk, stuck: set<nat>) {
    && x.dev <= ROOTDEV
    && !x.locked
    && (x.dev == ROOTDEV ==> x.blockno < |disk| && (x.valid ==> x.data == disk[x.blockno]))
    && (Pinned(x, stuck) ==> x.valid)
    && x.refcnt == if Pinned(x, stuck) then WRAPPED else 0
  }

  /** The cache while recovery runs: every buffer agrees with the disk; the counts of installed blocks have wrapped. */
  predicate Recovering(bs: seq<Buf>, disk: Disk, stuck: set<nat>) {
    && |bs| == NBUF
    && Unique(bs)
    && (forall i :: 0 <= i < |bs| ==> StuckOrFree(bs[i], disk, stuck))
    && forall b :: b in stuck ==> IsCached(bs, b)
  }

  /** A free buffer is left while the stuck blocks and the taken buffers are fewer than NBUF. */
  lemma {:induction false} SomeLeft(bs: seq<Buf>, disk: Disk, stuck: set<nat>, taken: set<int>)
    requires Recovering(bs, disk, stuck) && |stuck| + |taken| < NBUF
    ensures exists i :: 0 <= i < |bs| && i !in taken && bs[i].refcnt == 0
  {
    var held := set i | i in Indices(NBUF) && Pinned(bs[i], stuck);
    InjectionBound(bs, held, stuck);
    UnionSize(held, taken);
    var i := Missing(held + taken, NBUF);
    assert StuckOrFree(bs[i], disk, stuck);
  }

  lemma {:induction false} LeftBound(bs: seq<Buf>, disk: Disk, stuck: set<nat>, taken: set<int>, i: int)
    requires Recovering(bs, disk, stuck)
    requires forall x :: x in taken ==> 0 <= x < |bs| && !Pinned(bs[x], stuck)
    requires 0 <= i < |bs| && i !in taken && bs[i].refcnt == 0
    ensures |stuck| + |taken| < NBUF
  {
    assert StuckOrFree(bs[i], disk, stuck);
    var from := Indices(NBUF) - (taken + {i});
    forall b | b in stuck ensures exists j :: j in from && 0 <= j < |bs| && For(bs[j], b) {
      var j :| 0 <= j < |bs| && For(bs[j], b);
      assert Pinned(bs[j], stuck) && j in from;
    }
    BlocksBound(bs, stuck, from);
    RemoveSize(Indices(NBUF), taken + {i});
  }

  /** A free buffer is left exactly while the stuck blocks and the taken buffers are fewer than NBUF. */
  lemma {:induction false} FreeLeft(bs: seq<Buf>, disk: Disk, stuck: set<nat>, taken: set<int>)
    requires Recovering(bs, disk, stuck)
    requires forall x :: x in taken ==> 0 <= x < |bs| && !Pinned(bs[x], stuck)
    ensures (exists i :: 0 <= i < |bs| && i !in taken && bs[i].refcnt == 0) <==> |stuck| + |taken| < NBUF
  {
    hide Recovering, Pinned;
    if |stuck| + |taken| < NBUF {
      SomeLeft(bs, disk, stuck, taken);
    }
    if i :| 0 <= i < |bs| && i !in taken && bs[i].refcnt == 0 {
      LeftBound(bs, disk, stuck, taken, i);
    }
  }

  lemma {:induction false} RemoveSize<T>(a: set<T>, b: set<T>)
    requires b <= a
    ensures |a - b| == |a| - |b|
  {
    assert a == (a - b) + b;
  }

  /** The buffers after one iteration of install_trans: copy x to y, unpin y, release x and y. */
  function Iterated(b2: seq<Buf>, x: int, y: int): seq<Buf>
    requires 0 <= x < |b2| && 0 <= y < |b2|
  {
    var b3 := b2[y := b2[y].(data := b2[x].data)];
    var b4 := b3[y := b3[y].(refcnt := Dec(b3[y].refcnt))];
    var b5 := b4[x := Released(b4[x])];
    b5[y := Released(b5[y])]
  }

  lemma {:induction false} IteratedKeeps(
      bs: seq<Buf>, disk: Disk, stuck: set<nat>, slot: nat, x: int, b1: seq<Buf>, home: nat, y: int, b2: seq<Buf>)
    requires Recovering(bs, disk, stuck) && slot !in stuck && home !in stuck && slot != home
    requires Reads(bs, disk, slot, x, b1) && Reads(b1, disk, home, y, b2)
    ensures x != y && For(b2[x], slot) && For(b2[y], home) && b2[x].locked && b2[y].locked
    ensures b2[x].data == disk[slot] && home < |disk|
    ensures Recovering(Iterated(b2, x, y), disk[home := disk[slot]], stuck + {home})
  {
    assert StuckOrFree(bs[x], disk, stuck);
    ReadsUnique(bs, disk, slot, x, b1);
    assert b1[x].refcnt == 1 && For(b1[x], slot);
    assert x != y;
    ReadsUnique(b1, disk, home, y, b2);
    assert StuckOrFree(bs[y], disk, stuck) && b1[y] == bs[y];
    var b6, disk', stuck' := Iterated(b2, x, y), disk[home := disk[slot]], stuck + {home};
    assert b6[y] == b2[y].(data := disk[slot], locked := false, refcnt := WRAPPED);
    assert b6[x] == b2[x].(locked := false, refcnt := 0);
    forall i | 0 <= i < |bs| ensures StuckOrFree(b6[i], disk', stuck') {
      if i != x && i != y {
        assert b6[i] == bs[i] && StuckOrFree(bs[i], disk, stuck);
        assert !For(b2[i], home);
      }
    }
    forall b | b in stuck' ensures IsCached(b6, b) {
      if b == home {
        assert For(b6[y], home);
      } else {
        var i :| 0 <= i < |bs| && For(bs[i], b);
        assert i != x && i != y;
        assert For(b6[i], b);
      }
    }
  }

  /** bread, an optional store and bwrite, and brelse of a block recovery has not installed. */
  lemma {:induction false} TouchedKeeps(bs: seq<Buf>, disk: Disk, stuck: set<nat>, b: nat, x: int, b1: seq<Buf>,
      v: Block)
    requires Recovering(bs, disk, stuck) && b !in stuck && Reads(bs, disk, b, x, b1)
    ensures For(b1[x], b) && b1[x].locked && b1[x].data == disk[b]
    ensures var b2 := b1[x := b1[x].(data := v)];
            Recovering(b2[x := Released(b2[x])], disk[b := v], stuck)
  {
    assert StuckOrFree(bs[x], disk, stuck);
    ReadsUnique(bs, disk, b, x, b1);
    var b2 := b1[x := b1[x].(data := v)];
    var b3 := b2[x := Released(b2[x])];
    forall i | 0 <= i < |bs| ensures StuckOrFree(b3[i], disk[b := v], stuck) {
      if i != x {
        assert b3[i] == bs[i] && StuckOrFree(bs[i], disk, stuck);
        assert !For(b1[i], b);
      }
    }
    forall c | c in stuck ensures IsCached(b3, c) {
      var i :| 0 <= i < |bs| && For(bs[i], c);
      assert i != x;
      assert For(b3[i], c);
    }
  }

  /** The cache of a boot with an empty log is coherent, with nothing pinned. */
  lemma {:induction false} CleanBoot(bs: seq<Buf>, disk: Disk)
    requires Recovering(bs, disk, {})
    ensures Coherent(bs, disk, {}) && Unlocked(bs)
  {
    forall i | 0 <= i < |bs| ensures BufOk(bs[i], disk, {}) && !bs[i].locked {
      assert StuckOrFree(bs[i], disk, {});
    }
  }

  /** After recovery the counts are all zero exactly when nothing was installed. */
  lemma {:induction false} SoundExactly(bs: seq<Buf>, disk: Disk, stuck: set<nat>)
    requires Recovering(bs, disk, stuck)
    ensures (forall i :: 0 <= i < |bs| ==> bs[i].refcnt == 0) <==> stuck == {}
    ensures (exists pins :: Coherent(bs, disk, pins)) <==> stuck == {}
  {
    if stuck != {} {
      var b := Pick(stuck);
      var i :| 0 <= i < |bs| && For(bs[i], b);
      assert StuckOrFree(bs[i], disk, stuck);
      forall pins ensures !Coherent(bs, disk, pins) {
        assert !BufOk(bs[i], disk, pins);
      }
    } else {
      CleanBoot(bs, disk);
      assert forall i :: 0 <= i < |bs| ==> StuckOrFree(bs[i], disk, stuck);
    }
  }

  /**
   The damage: the next bread of an installed block returns a locked buffer whose count is zero, so
   bget may recycle it.
   */
  lemma {:induction false} LockedButFree(bs: seq<Buf>, disk: Disk, stuck: set<nat>, b: nat, r: int, bs': seq<Buf>)
    requires Recovering(bs, disk, stuck) && b in stuck && Reads(bs, disk, b, r, bs')
    ensures bs'[r].locked && bs'[r].refcnt == 0
  {
    var i :| 0 <= i < |bs| && For(bs[i], b);
    assert For(bs[r], b);
    assert StuckOrFree(bs[r], disk, stuck);
  }

  // ------------------------------------------------------------------
  // The code

  /** What Valid of the cache and Recovering say together, for the loop of recovery. */
  ghost predicate Running(c: Cache, stuck: set<nat>)
    reads c, c.lru
  {
    c.Valid() && Recovering(c.buf, c.disk, stuck)
  }

  /** read_head: copy the header from disk to memory. */
  method ReadHead(lg: Logger)
    requires Running(lg.cache, {}) && |lg.block| == LOGSIZE && WellFormed(lg.l, lg.cache.disk)
    modifies lg`n, lg`block, lg.cache`buf, lg.cache.lru
    ensures Running(lg.cache, {}) && lg.n <= LOGSIZE == |lg.block|
    ensures lg.List() == Logged(lg.l, lg.cache.disk)
  {
    hide Recovering, LruRing.Linked, LruRing.Onto, Fits;
    var c, start := lg.cache, lg.l.start;
    FreeLeft(c.buf, c.disk, {}, {});
    var x := c.Bread(start);
    TouchedKeeps(old(c.buf), c.disk, {}, start, x, c.buf, c.disk[start]);
    assert c.buf[x := c.buf[x].(data := c.disk[start])] == c.buf && c.disk[start := c.disk[start]] == c.disk;
    var h := c.buf[x].data;
    lg.n := h.words[0];
    var i := 0;
    while i < lg.n
      invariant i <= lg.n <= LOGSIZE == |lg.block|
      invariant lg.n == h.words[0]
      invariant forall j :: 0 <= j < i ==> lg.block[j] == h.words[1 + j]
      modifies lg`block
    {
      lg.block := lg.block[i := h.words[1 + i]];
      i := i + 1;
    }
    c.Brelse(x);
  }

  /** One iteration of install_trans during recovery; it panics exactly when at most one buffer is left. */
  method RecoverStep(c: Cache, slot: nat, home: nat, ghost stuck: set<nat>) returns (ok: bool)
    requires Running(c, stuck) && slot < |c.disk| && home < |c.disk|
    requires slot !in stuck && home !in stuck && slot != home
    modifies c, c.lru
    ensures ok <==> |stuck| + 1 < NBUF
    ensures ok ==> Running(c, stuck + {home})
    ensures ok ==> c.disk == old(c.disk)[home := old(c.disk)[slot]] && c.trace == old(c.trace) + [c.disk]
    ensures !ok ==> c.disk == old(c.disk) && c.trace == old(c.trace)
  {
    hide Recovering, LruRing.Linked, LruRing.Onto, Reads;
    var x := c.Bread(slot);
    if x == -1 {
      NoneForSlot(c.buf, c.disk, stuck);
      return false;
    }
    ghost var b1 := c.buf;
    var y := c.Bread(home);
    if y == -1 {
      NoneForHome(old(c.buf), c.disk, stuck, slot, x, b1);
      return false;
    }
    SomeForHome(old(c.buf), c.disk, stuck, slot, x, b1, home, y, c.buf);
    IteratedKeeps(old(c.buf), c.disk, stuck, slot, x, b1, home, y, c.buf);
    c.Store(y, c.buf[x].data);
    c.Bwrite(y);
    c.Bunpin(y);
    c.Brelse(x);
    c.Brelse(y);
    return true;
  }

  lemma {:induction false} NoneForSlot(bs: seq<Buf>, disk: Disk, stuck: set<nat>)
    requires Recovering(bs, disk, stuck)
    requires forall i :: 0 <= i < |bs| ==> bs[i].refcnt != 0
    ensures |stuck| >= NBUF
  {
    FreeLeft(bs, disk, stuck, {});
  }

  lemma {:induction false} NoneForHome(bs: seq<Buf>, disk: Disk, stuck: set<nat>, slot: nat, x: int, b1: seq<Buf>)
    requires Recovering(bs, disk, stuck) && slot !in stuck && Reads(bs, disk, slot, x, b1)
    requires forall i :: 0 <= i < |b1| ==> b1[i].refcnt != 0
    ensures |stuck| + 1 >= NBUF
  {
    assert StuckOrFree(bs[x], disk, stuck);
    assert forall i :: 0 <= i < |bs| && i != x ==> b1[i] == bs[i];
    FreeLeft(bs, disk, stuck, {x});
  }

  lemma {:induction false} SomeForHome(
      bs: seq<Buf>, disk: Disk, stuck: set<nat>, slot: nat, x: int, b1: seq<Buf>, home: nat, y: int, b2: seq<Buf>)
    requires Recovering(bs, disk, stuck) && slot !in stuck && home !in stuck && slot != home
    requires Reads(bs, disk, slot, x, b1) && Reads(b1, disk, home, y, b2)
    ensures |stuck| + 1 < NBUF
  {
    assert StuckOrFree(bs[x], disk, stuck);
    assert y != x;
    assert b1[y] == bs[y] && StuckOrFree(bs[y], disk, stuck);
    FreeLeft(bs, disk, stuck, {x});
  }

  /** Recovery of d has made k block writes since the trace was t. */
  ghost predicate Midway(lg: Logger, t: seq<Disk>, d: Disk, k: nat)
    reads lg, lg.cache
  {
    && lg.n <= LOGSIZE == |lg.block|
    && WellFormed(lg.l, d)
    && lg.List() == Logged(lg.l, d)
    && |lg.cache.disk| == |d|
    && lg.cache.disk == RecoveryState(lg.l, d, k)
    && lg.cache.trace == t + RecoveryPrefix(lg.l, d, k)
  }

  lemma {:induction false} RecoveryAdvances(l: Layout, d: Disk, k: nat)
    requires WellFormed(l, d) && k <= |Logged(l, d)|
    ensures RecoveryState(l, d, 0) == d && RecoveryPrefix(l, d, 0) == []
    ensures RecoveryPrefix(l, d, k + 1) == RecoveryPrefix(l, d, k) + [RecoveryState(l, d, k + 1)]
    ensures var s, list := RecoveryState(l, d, k), Logged(l, d);
            RecoveryState(l, d, k + 1) == if k < |list| then s[list[k] := s[l.Slot(k)]] else HeadWritten(l, s, [])
  {
  }

  lemma {:induction false} RecoveryEnds(l: Layout, d: Disk)
    requires WellFormed(l, d)
    ensures RecoveryState(l, d, |Logged(l, d)| + 1) == Recovered(l, d)
    ensures RecoveryPrefix(l, d, |Logged(l, d)| + 1) == RecoveryTrace(l, d)
    ensures WellFormed(l, Recovered(l, d)) && Logged(l, Recovered(l, d)) == []
  {
    RecoveredEmpty(l, d);
  }

  /** The blocks installed by the first k iterations. */
  function InstalledSet(list: seq<nat>, k: nat): set<nat>
    requires k <= |list|
  {
    Elements(list[..k])
  }

  lemma {:induction false} InstalledNext(list: seq<nat>, k: nat)
    requires Distinct(list) && k < |list|
    ensures InstalledSet(list, k + 1) == InstalledSet(list, k) + {list[k]}
    ensures list[k] !in InstalledSet(list, k) && |InstalledSet(list, k)| == k
  {
    assert list[..k + 1] == list[..k] + [list[k]];
    DistinctSize(list[..k]);
  }

  lemma {:induction false} InstalledEnds(l: Layout, size: nat, list: seq<nat>, k: nat)
    requires Fits(l, size, list) && k <= |list|
    ensures InstalledSet(list, 0) == {} && InstalledSet(list, |list|) == Elements(list)
    ensures forall b :: l.InLog(b) ==> b !in InstalledSet(list, k)
  {
    assert list[..|list|] == list;
  }

  method RecoverIteration(lg: Logger, tail: nat, ghost t: seq<Disk>, ghost d: Disk) returns (ok: bool)
    requires tail < lg.n <= |lg.block| && Midway(lg, t, d, tail) && Distinct(lg.List())
    requires Running(lg.cache, InstalledSet(lg.List(), tail))
    modifies lg.cache, lg.cache.lru
    ensures ok <==> tail + 1 < NBUF
    ensures Midway(lg, t, d, if ok then tail + 1 else tail)
    ensures ok ==> Running(lg.cache, InstalledSet(lg.List(), tail + 1))
  {
    hide RecoveryState, RecoveryPrefix, Running, Distinct, InstalledSet;
    ghost var list := lg.List();
    RecoveryAdvances(lg.l, d, tail);
    InstalledNext(list, tail);
    InstalledEnds(lg.l, |d|, list, tail);
    assert lg.l.InLog(lg.l.Slot(tail));
    ok := RecoverStep(lg.cache, lg.l.Slot(tail), lg.block[tail], InstalledSet(list, tail));
  }

  /** write_head during recovery, with the installed blocks stuck. */
  method ClearHead(lg: Logger, ghost stuck: set<nat>)
    requires lg.n == 0 && Running(lg.cache, stuck) && |stuck| < NBUF
    requires lg.l.start < |lg.cache.disk| && lg.l.start !in stuck
    modifies lg.cache, lg.cache.lru
    ensures Running(lg.cache, stuck)
    ensures lg.cache.disk == HeadWritten(lg.l, old(lg.cache.disk), [])
    ensures lg.cache.trace == old(lg.cache.trace) + [lg.cache.disk]
  {
    hide Recovering, LruRing.Linked, LruRing.Onto;
    var c, start := lg.cache, lg.l.start;
    FreeLeft(c.buf, c.disk, stuck, {});
    var h := c.Bread(start);
    TouchedKeeps(old(c.buf), c.disk, stuck, start, h, c.buf, WithHeader(c.disk[start], []));
    c.Store(h, WithHeader(c.buf[h].data, []));
    c.Bwrite(h);
    c.Brelse(h);
  }

  /** install_trans during recovery. */
  method RecoverInstall(lg: Logger, ghost t: seq<Disk>, ghost d: Disk) returns (ok: bool)
    requires Midway(lg, t, d, 0) && Distinct(lg.List()) && Running(lg.cache, {})
    modifies lg.cache, lg.cache.lru
    ensures ok <==> lg.n < NBUF
    ensures ok ==> Midway(lg, t, d, lg.n) && Running(lg.cache, Elements(lg.List()))
    ensures !ok ==> Midway(lg, t, d, NBUF - 1)
  {
    hide RecoveryState, RecoveryPrefix, Running, Distinct, InstalledSet;
    InstalledEnds(lg.l, |d|, lg.List(), 0);
    var tail := 0;
    while tail < lg.n
      invariant tail <= lg.n && Midway(lg, t, d, tail)
      invariant Running(lg.cache, InstalledSet(lg.List(), tail))
      invariant tail > 0 ==> tail < NBUF
    {
      ok := RecoverIteration(lg, tail, t, d);
      if !ok {
        return;
      }
      tail := tail + 1;
    }
    return true;
  }

  /**
   recover_from_log at boot.  A log that lists all NBUF blocks, which no commit writes
   (LogRefinement.RecoveryHasBuffers), could not be recovered: the panic leaves a prefix of
   the recovery trace.  Otherwise the disk goes through exactly the recovery trace, and the
   cache is usable exactly when the log was empty.
   */
  method RecoverFromLog(lg: Logger) returns (ok: bool)
    requires |lg.block| == LOGSIZE && Running(lg.cache, {})
    requires WellFormed(lg.l, lg.cache.disk) && Distinct(Logged(lg.l, lg.cache.disk))
    modifies lg`n, lg`block, lg.cache, lg.cache.lru
    ensures ok <==> |Logged(lg.l, old(lg.cache.disk))| < NBUF
    ensures ok ==> lg.cache.disk == Recovered(lg.l, old(lg.cache.disk))
    ensures ok ==> lg.cache.trace == old(lg.cache.trace) + RecoveryTrace(lg.l, old(lg.cache.disk))
    ensures !ok ==> lg.cache.trace == old(lg.cache.trace) + RecoveryPrefix(lg.l, old(lg.cache.disk), NBUF - 1)
    ensures ok ==> Recovering(lg.cache.buf, lg.cache.disk, Elements(Logged(lg.l, old(lg.cache.disk))))
    ensures ok ==> (lg.Valid() && Unlocked(lg.cache.buf) <==> Logged(lg.l, old(lg.cache.disk)) == [])
  {
    hide RecoveryState, RecoveryPrefix, RecoveryTrace, Recovered, HeadWritten;
    hide Recovering, Distinct, InstalledSet, Elements, LruRing.Linked, LruRing.Onto, Coherent, Unlocked;
    ghost var t, d := lg.cache.trace, lg.cache.disk;
    ghost var list := Logged(lg.l, d);
    RecoveryAdvances(lg.l, d, 0);
    ReadHead(lg);
    ok := RecoverInstall(lg, t, d);
    if !ok {
      return;
    }
    DistinctSize(list);
    RecoveryAdvances(lg.l, d, |list|);
    RecoveryEnds(lg.l, d);
    InstalledEnds(lg.l, |d|, list, |list|);
    lg.n := 0;
    ClearHead(lg, Elements(list));
    BootedExactly(lg, list);
  }

  lemma {:induction false} BootedExactly(lg: Logger, list: seq<nat>)
    requires lg.n == 0 && |lg.block| == LOGSIZE && Running(lg.cache, Elements(list))
    requires WellFormed(lg.l, lg.cache.disk) && Logged(lg.l, lg.cache.disk) == []
    ensures lg.Valid() && Unlocked(lg.cache.buf) <==> list == []
  {
    SoundExactly(lg.cache.buf, lg.cache.disk, Elements(list));
    assert lg.List() == [];
    if list == [] {
      assert Elements(list) == {};
      CleanBoot(lg.cache.buf, lg.cache.disk);
    } else {
      assert list[0] in Elements(list);
    }
  }
}
