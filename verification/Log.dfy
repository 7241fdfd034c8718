/**
 The logging layer of kernel/log.c over the buffer cache, as one kernel thread
 runs it while others keep the buffers they have.  Each method is proved against the block-write traces of RedoLog, so
 the crash theorems there apply to what the code writes.
 */
module Log {
  import opened BufferCache
  import opened Lists
  import LruRing
  import opened RedoLog
  import opened Sets
  import opened Storage

  lemma {:induction false} NotInElements(l: Layout, list: seq<nat>, slot: nat, i: nat)
    requires i <= |list| && l.InLog(slot)
    requires forall j :: 0 <= j < |list| ==> !l.InLog(list[j])
    ensures slot !in Remaining(list, i) && slot !in Elements(list)
  {
  }

  /** The contents a commit would copy into the log. */
  ghost function Views(bs: seq<Buf>, disk: Disk, list: seq<nat>): (v: seq<Block>)
    requires forall i :: 0 <= i < |list| ==> list[i] < |disk|
    ensures |v| == |list|
  {
    seq(|list|, i requires 0 <= i < |list| => View(bs, disk, list[i]))
  }

  lemma {:induction false} ViewsShow(bs: seq<Buf>, disk: Disk, list: seq<nat>)
    requires forall i :: 0 <= i < |list| ==> list[i] < |disk|
    ensures Shows(bs, disk, list, Views(bs, disk, list))
  {
  }

  /** The cache shows the given contents for the listed blocks. */
  ghost predicate Shows(bs: seq<Buf>, disk: Disk, list: seq<nat>, contents: seq<Block>) {
    && |contents| == |list|
    && forall i :: 0 <= i < |list| ==> list[i] < |disk| && View(bs, disk, list[i]) == contents[i]
  }

  lemma {:induction false} ShowsAt(bs: seq<Buf>, disk: Disk, list: seq<nat>, contents: seq<Block>, i: nat)
    requires Shows(bs, disk, list, contents) && i < |list|
    ensures |contents| == |list| && list[i] < |disk| && View(bs, disk, list[i]) == contents[i]
  {
  }

  lemma {:induction false} ShowsStays(l: Layout, bs: seq<Buf>, disk: Disk, bs': seq<Buf>, disk': Disk,
      list: seq<nat>, contents: seq<Block>)
    requires Shows(bs, disk, list, contents) && SameHomeView(l, bs, disk, bs', disk')
    requires forall i :: 0 <= i < |list| ==> !l.InLog(list[i])
    ensures Shows(bs', disk', list, contents)
  {
  }

  /** The cache shows the same home blocks. */
  ghost predicate SameHomeView(l: Layout, bs: seq<Buf>, disk: Disk, bs': seq<Buf>, disk': Disk) {
    && |disk| == |disk'|
    && forall b :: 0 <= b < |disk| && !l.InLog(b) ==> View(bs', disk', b) == View(bs, disk, b)
  }

  class Logger {
    const cache: Cache
    const l: Layout
    var n: nat
    var block: seq<nat>
    var outstanding: nat

    /** The fields initlog sets before it recovers. */
    constructor (c: Cache, layout: Layout)
      ensures cache == c && l == layout && n == 0 && |block| == LOGSIZE && outstanding == 0
    {
      cache, l, n, block, outstanding := c, layout, 0, seq(LOGSIZE, _ => 0), 0;
    }

    ghost function List(): seq<nat>
      reads this
      requires n <= |block|
    {
      block[..n]
    }

    /** The header in memory lists distinct home blocks that fit the log. */
    ghost predicate HeaderOk()
      reads this, cache
    {
      && n <= LOGSIZE == |block|
      && Fits(l, |cache.disk|, List())
      && Distinct(List())
    }

    /** Blocks the commit does not need: outside the log and not listed. */
    ghost predicate Aside(others: set<nat>)
      reads this
    {
      n <= |block| && forall b :: b in others ==> !l.InLog(b) && b !in List()
    }

    /** The header in memory lists the pinned blocks; the one on disk is empty. */
    ghost predicate Valid()
      reads this, cache, cache.lru
    {
      && HeaderOk()
      && cache.Valid()
      && Coherent(cache.buf, cache.disk, Elements(List()))
      && WellFormed(l, cache.disk)
      && Logged(l, cache.disk) == []
    }

    /**
     Record a locked buffer in the transaction: absorbed when listed already, otherwise
     appended and pinned.  false is the panic.
     */
    method LogWrite(r: nat) returns (ok: bool)
      requires Valid() && r < NBUF && cache.buf[r].locked && cache.buf[r].dev == ROOTDEV
      requires !l.InLog(cache.buf[r].blockno)
      modifies this`n, this`block, cache`buf
      ensures Valid()
      ensures ok <==> old(n) < LOGSIZE && old(n) < l.size - 1 && 1 <= outstanding
      ensures var b := old(cache.buf)[r].blockno;
              List() == if ok && b !in old(List()) then old(List()) + [b] else old(List())
      ensures SameView(old(cache.buf), cache.disk, cache.buf, cache.disk)
      ensures cache.buf[r].locked && cache.buf[r].data == old(cache.buf)[r].data
    {
      if n >= LOGSIZE || n >= l.size - 1 {
        return false;
      }
      if outstanding < 1 {
        return false;
      }
      var b := cache.buf[r].blockno;
      var i := 0;
      while i < n
        invariant i <= n
        invariant b !in block[..i]
      {
        if block[i] == b {
          break;
        }
        i := i + 1;
      }
      assert BufOk(cache.buf[r], cache.disk, Elements(List()));
      ghost var list := List();
      block := block[i := b];
      if i == n {
        assert block[..n] == list;
        PinKeeps(cache.buf, cache.disk, Elements(list), r);
        cache.Bpin(r);
        n := n + 1;
        assert List() == list + [b];
        assert Elements(List()) == Elements(list) + {b};
      } else {
        assert block == old(block);
      }
      return true;
    }

    /** k block writes of the commit of list have happened since the disk was d and the trace t. */
    ghost predicate Progress(t: seq<Disk>, d: Disk, list: seq<nat>, contents: seq<Block>, k: nat)
      reads cache
      requires Fits(l, |d|, list) && |contents| == |list|
    {
      && cache.disk == CommitState(l, d, list, contents, k)
      && cache.trace == t + CommitPrefix(l, d, list, contents, k)
    }

    /** One iteration of write_log: copy a pinned block into its log slot. */
    method WriteLogStep(slot: nat, home: nat, ghost pins: set<nat>, ghost others: set<nat>) returns (ok: bool)
      requires cache.Quiet(pins, others) && slot < |cache.disk| && home < |cache.disk|
      requires home in pins && slot !in pins && slot !in others && home !in others
      modifies cache, cache.lru
      ensures ok <==> |pins + others| < NBUF
      ensures !ok ==> cache.disk == old(cache.disk) && cache.trace == old(cache.trace) && cache.buf == old(cache.buf)
      ensures cache.Quiet(pins, others)
      ensures ok ==> cache.disk == old(cache.disk)[slot := View(old(cache.buf), old(cache.disk), home)]
      ensures ok ==> cache.trace == old(cache.trace) + [cache.disk]
      ensures ok ==> forall b :: 0 <= b < |cache.disk| && b != slot ==>
                View(cache.buf, cache.disk, b) == View(old(cache.buf), old(cache.disk), b)
    {
      hide Coherent, View, LockedFor, Holding, LruRing.Linked, LruRing.Onto;
      FreeExactly(cache.buf, cache.disk, pins, others, slot);
      var to, from := cache.ReadPair(slot, home, pins, others);
      if to == -1 {
        return false;
      }
      HoldingSwap(cache.buf, to, slot, from, home, others);
      cache.CopyWrite(from, to, home, slot, pins, others);
      cache.ReleasePair(from, to, home, slot, pins, others);
      return true;
    }

    /** The commit of this header has made k block writes since the disk was d and the trace t; home views are kept. */
    ghost predicate Midway(t: seq<Disk>, d: Disk, contents: seq<Block>, k: nat, pins: set<nat>, others: set<nat>)
      reads this, cache, cache.lru
    {
      && HeaderOk()
      && Aside(others)
      && |cache.disk| == |d|
      && |contents| == n
      && cache.Quiet(pins, others)
      && Progress(t, d, List(), contents, k)
      && Shows(cache.buf, cache.disk, List(), contents)
    }

    /** The loop body of write_log within a commit. */
    method WriteLogIteration(tail: nat, ghost t: seq<Disk>, ghost d: Disk, ghost contents: seq<Block>,
        ghost others: set<nat>)
      returns (ok: bool)
      requires tail < n && n <= |block| && Midway(t, d, contents, tail, Elements(List()), others)
      modifies cache, cache.lru
      ensures ok <==> n + |others| < NBUF
      ensures Midway(t, d, contents, if ok then tail + 1 else tail, Elements(List()), others)
      ensures SameHomeView(l, old(cache.buf), old(cache.disk), cache.buf, cache.disk)
    {
      hide CommitState, CommitPrefix, View, Cache.Quiet, Distinct, Elements, Remaining, Shows;
      ghost var list := List();
      DistinctSize(list);
      InElements(list, tail);
      NotInElements(l, list, l.Slot(tail), 0);
      CommitAdvances(l, d, list, contents, tail);
      CommitPrefixNext(l, d, list, contents, tail);
      ShowsAt(cache.buf, cache.disk, list, contents, tail);
      assert !l.InLog(block[tail]) && l.InLog(l.Slot(tail));
      UnionDisjoint(list, others);
      ok := WriteLogStep(l.Slot(tail), block[tail], Elements(list), others);
      ShowsStays(l, old(cache.buf), old(cache.disk), cache.buf, cache.disk, list, contents);
    }

    /** write_log: fails before its first write if the pinned blocks leave no buffer for a log block. */
    method WriteLog(ghost contents: seq<Block>, ghost others: set<nat>)
      returns (ok: bool)
      requires 0 < n <= |block| && Midway(cache.trace, cache.disk, contents, 0, Elements(List()), others)
      modifies cache, cache.lru
      ensures ok <==> n + |others| < NBUF
      ensures Midway(old(cache.trace), old(cache.disk), contents, if ok then n else 0, Elements(List()), others)
      ensures SameHomeView(l, old(cache.buf), old(cache.disk), cache.buf, cache.disk)
    {
      hide Midway, Elements, View, Cache.Quiet;
      ghost var t, d := cache.trace, cache.disk;
      var tail := 0;
      while tail < n
        invariant tail <= n && (tail > 0 ==> n + |others| < NBUF)
        invariant Midway(t, d, contents, tail, Elements(List()), others)
        invariant SameHomeView(l, old(cache.buf), d, cache.buf, cache.disk)
      {
        ok := WriteLogIteration(tail, t, d, contents, others);
        if !ok {
          return;
        }
        tail := tail + 1;
      }
      return true;
    }

    /** write_head, given the blocks that are pinned. */
    method WriteHead(ghost pins: set<nat>, ghost others: set<nat>)
      requires n <= LOGSIZE == |block| && l.start < |cache.disk| && l.start !in pins && l.start !in others
      requires cache.Quiet(pins, others) && |pins + others| < NBUF
      modifies cache, cache.lru
      ensures cache.Quiet(pins, others)
      ensures cache.disk == HeadWritten(l, old(cache.disk), List()) && cache.trace == old(cache.trace) + [cache.disk]
      ensures forall b :: 0 <= b < |cache.disk| && b != l.start ==>
                View(cache.buf, cache.disk, b) == View(old(cache.buf), old(cache.disk), b)
    {
      hide Coherent, View, LockedFor, LruRing.Linked, LruRing.Onto;
      FreeExactly(cache.buf, cache.disk, pins, others, l.start);
      CleanView(cache.buf, cache.disk, pins, l.start) by {
        LockedAt(cache.buf, others, l.start);
      }
      var h := cache.Bread(l.start);
      UpdateKeeps(old(cache.buf), cache.disk, pins, others, l.start, h, cache.buf,
          WithHeader(cache.disk[l.start], List()));
      cache.Store(h, WithHeader(cache.buf[h].data, block[..n]));
      cache.Bwrite(h);
      cache.Brelse(h);
    }

    /** One iteration of install_trans in a commit: write a log slot to its home block and unpin that. */
    method InstallStep(slot: nat, home: nat, ghost pins: set<nat>, ghost others: set<nat>)
      requires cache.Quiet(pins, others) && slot < |cache.disk| && home < |cache.disk|
      requires home in pins && slot !in pins && slot !in others && home !in others && |pins + others| < NBUF
      modifies cache, cache.lru
      ensures cache.Quiet(pins - {home}, others)
      ensures cache.disk == old(cache.disk)[home := old(cache.disk)[slot]]
      ensures cache.trace == old(cache.trace) + [cache.disk]
      ensures forall b :: 0 <= b < |cache.disk| ==>
                View(cache.buf, cache.disk, b) ==
                if b == home then old(cache.disk)[slot] else View(old(cache.buf), old(cache.disk), b)
    {
      hide Coherent, View, LockedFor, Holding, LruRing.Linked, LruRing.Onto;
      FreeExactly(cache.buf, cache.disk, pins, others, slot);
      CleanView(cache.buf, cache.disk, pins, slot) by {
        LockedAt(cache.buf, others, slot);
      }
      var lbuf, dbuf := cache.ReadPair(slot, home, pins, others);
      cache.CopyWrite(lbuf, dbuf, slot, home, pins, others);
      HoldingSwap(cache.buf, lbuf, slot, dbuf, home, others);
      cache.UnpinHeld(lbuf, dbuf, slot, home, pins, others);
      cache.ReleasePair(lbuf, dbuf, slot, home, pins - {home}, others);
    }

    /** The loop body of install_trans within a commit. */
    method InstallIteration(tail: nat, ghost t: seq<Disk>, ghost d: Disk, ghost contents: seq<Block>,
        ghost others: set<nat>)
      requires tail < n && n + |others| < NBUF && n <= |block| &&
                 Midway(t, d, contents, n + 1 + tail, Remaining(List(), tail), others)
      modifies cache, cache.lru
      ensures Midway(t, d, contents, n + 2 + tail, Remaining(List(), tail + 1), others)
      ensures SameHomeView(l, old(cache.buf), old(cache.disk), cache.buf, cache.disk)
    {
      hide CommitState, CommitPrefix, View, Cache.Quiet, Distinct, Elements, Remaining, Shows;
      ghost var list := List();
      RemainingNext(list, tail);
      NotInElements(l, list, l.Slot(tail), tail);
      SlotStays(l, d, list, contents, tail);
      CommitAdvances(l, d, list, contents, tail);
      CommitPrefixNext(l, d, list, contents, n + 1 + tail);
      ShowsAt(cache.buf, cache.disk, list, contents, tail);
      assert !l.InLog(block[tail]) && l.InLog(l.Slot(tail));
      RemainingDisjoint(list, tail, others);
      InstallStep(l.Slot(tail), block[tail], Remaining(list, tail), others);
      ShowsStays(l, old(cache.buf), old(cache.disk), cache.buf, cache.disk, list, contents);
    }

    /** install_trans in a commit: the disk catches up with the cache and every block is unpinned. */
    method InstallTrans(ghost t: seq<Disk>, ghost d: Disk, ghost contents: seq<Block>, ghost others: set<nat>)
      requires n + |others| < NBUF && n <= |block| && Midway(t, d, contents, n + 1, Elements(List()), others)
      modifies cache, cache.lru
      ensures Midway(t, d, contents, 2 * n + 1, {}, others)
      ensures SameHomeView(l, old(cache.buf), old(cache.disk), cache.buf, cache.disk)
    {
      hide Midway, Remaining, Elements, View, Cache.Quiet;
      RemainingEnds(List());
      var tail := 0;
      while tail < n
        invariant tail <= n <= |block|
        invariant Midway(t, d, contents, n + 1 + tail, Remaining(List(), tail), others)
        invariant SameHomeView(l, old(cache.buf), old(cache.disk), cache.buf, cache.disk)
      {
        InstallIteration(tail, t, d, contents, others);
        tail := tail + 1;
      }
    }

    /** The header write that commits. */
    method CommitHeader(ghost t: seq<Disk>, ghost d: Disk, ghost contents: seq<Block>, ghost others: set<nat>)
      requires n + |others| < NBUF && n <= |block| && Midway(t, d, contents, n, Elements(List()), others)
      modifies cache, cache.lru
      ensures Midway(t, d, contents, n + 1, Elements(List()), others)
      ensures SameHomeView(l, old(cache.buf), old(cache.disk), cache.buf, cache.disk)
    {
      hide CommitState, CommitPrefix, View, Cache.Quiet, Distinct, Elements, Shows;
      ghost var list := List();
      DistinctSize(list);
      NotInElements(l, list, l.start, 0);
      CommitAdvances(l, d, list, contents, 0);
      CommitPrefixNext(l, d, list, contents, n);
      UnionDisjoint(list, others);
      WriteHead(Elements(list), others);
      ShowsStays(l, old(cache.buf), old(cache.disk), cache.buf, cache.disk, list, contents);
    }

    /** The header write that erases the transaction. */
    method ClearHeader(ghost t: seq<Disk>, ghost d: Disk, ghost contents: seq<Block>, ghost others: set<nat>)
      requires 0 < n <= |block| && |others| < NBUF && Midway(t, d, contents, 2 * n + 1, {}, others)
      modifies this`n, cache, cache.lru
      ensures n == 0 && Valid() && LockedFor(cache.buf, others)
      ensures SameHomeView(l, old(cache.buf), old(cache.disk), cache.buf, cache.disk)
      ensures Fits(l, |d|, old(List())) && |contents| == |old(List())|
      ensures cache.trace == t + CommitTrace(l, d, old(List()), contents)
    {
      hide CommitState, CommitPrefix, View, Coherent, LockedFor, Distinct, LruRing.Linked, LruRing.Onto;
      ghost var list := List();
      CommitAdvances(l, d, list, contents, 0);
      CommitPrefixNext(l, d, list, contents, 2 * n + 1);
      n := 0;
      assert {} + others == others;
      WriteHead({}, others);
      EmptyDistinct();
      assert List() == [];
    }

    lemma CommitStarts(contents: seq<Block>, others: set<nat>)
      requires Valid() && LockedFor(cache.buf, others) && Aside(others)
      requires contents == Views(cache.buf, cache.disk, List())
      ensures n <= |block| && Fits(l, |cache.disk|, List()) && |contents| == |List()|
      ensures Midway(cache.trace, cache.disk, contents, 0, Elements(List()), others)
    {
      hide CommitState, CommitPrefix, View, Coherent, LockedFor, Distinct, Elements, Shows;
      var d, list := cache.disk, List();
      ViewsShow(cache.buf, d, list);
      CommitAdvances(l, d, list, contents, 0);
      CommitPrefixNext(l, d, list, contents, 0);
    }

    lemma NothingWritten(t: seq<Disk>, d: Disk, contents: seq<Block>, others: set<nat>)
      requires n <= |block| && Midway(t, d, contents, 0, Elements(List()), others)
      ensures cache.disk == d && cache.trace == t
    {
      hide View, Coherent, LockedFor, Distinct, Elements, Shows;
      CommitAdvances(l, d, List(), contents, 0);
      CommitPrefixNext(l, d, List(), contents, 0);
    }

    /** The four writes of a commit that has something to commit. */
    method CommitListed(ghost contents: seq<Block>, ghost others: set<nat>) returns (ok: bool)
      requires Valid() && 0 < n && LockedFor(cache.buf, others) && Aside(others)
      requires contents == Views(cache.buf, cache.disk, List())
      modifies this`n, cache, cache.lru
      ensures ok <==> old(n) + |others| < NBUF
      ensures |cache.disk| == |old(cache.disk)|
      ensures !ok ==> cache.disk == old(cache.disk) && cache.trace == old(cache.trace)
      ensures ok ==> Valid() && n == 0 && LockedFor(cache.buf, others)
      ensures ok ==> cache.trace == old(cache.trace) + CommitTrace(l, old(cache.disk), old(List()), contents)
      ensures ok ==> SameHomeView(l, old(cache.buf), old(cache.disk), cache.buf, cache.disk)
    {
      hide Midway, Valid, CommitTrace, View, LockedFor, Elements, Views;
      ghost var t, d := cache.trace, cache.disk;
      CommitStarts(contents, others);
      ok := WriteLog(contents, others);
      if !ok {
        NothingWritten(t, d, contents, others);
        return;
      }
      CommitHeader(t, d, contents, others);
      InstallTrans(t, d, contents, others);
      ClearHeader(t, d, contents, others);
    }

    /**
     commit, while other threads sit on the buffers of blocks it does not need.  It either
     panics before writing anything, because the pinned blocks and the others' fill the
     cache, or writes exactly the commit trace and leaves an empty log, nothing pinned and a
     disk that holds what the cache showed.
     */
    method Commit(ghost others: set<nat>) returns (ok: bool)
      requires Valid() && LockedFor(cache.buf, others) && Aside(others)
      modifies this`n, cache, cache.lru
      ensures ok <==> old(n) == 0 || old(n) + |others| < NBUF
      ensures |cache.disk| == |old(cache.disk)|
      ensures !ok ==> cache.disk == old(cache.disk) && cache.trace == old(cache.trace)
      ensures ok ==> Valid() && n == 0 && LockedFor(cache.buf, others)
      ensures ok ==>
                var contents := Views(old(cache.buf), old(cache.disk), old(List()));
                cache.trace == old(cache.trace) + CommitTrace(l, old(cache.disk), old(List()), contents)
      ensures ok ==> forall b :: 0 <= b < |cache.disk| && !l.InLog(b) && b !in others ==>
                cache.disk[b] == View(old(cache.buf), old(cache.disk), b)
    {
      hide CommitState, CommitPrefix, View, Coherent, LockedFor, Distinct, Elements, Shows, LruRing.Linked;
      hide LruRing.Onto;
      ok := true;
      if n > 0 {
        ok := CommitListed(Views(cache.buf, cache.disk, List()), others);
      }
      if ok {
        AllClean(others);
      }
    }

    /** With nothing pinned, the cache shows the disk for every block that is not locked. */
    lemma AllClean(others: set<nat>)
      requires Valid() && LockedFor(cache.buf, others) && n == 0
      ensures forall b :: 0 <= b < |cache.disk| && b !in others ==> View(cache.buf, cache.disk, b) == cache.disk[b]
    {
      forall b | 0 <= b < |cache.disk| && b !in others ensures View(cache.buf, cache.disk, b) == cache.disk[b] {
        LockedAt(cache.buf, others, b);
        CleanView(cache.buf, cache.disk, Elements(List()), b);
      }
    }
  }

  lemma {:induction false} UnionDisjoint(list: seq<nat>, others: set<nat>)
    requires Distinct(list) && forall b :: b in others ==> b !in list
    ensures |Elements(list) + others| == |list| + |others|
  {
    DistinctSize(list);
    assert Elements(list) !! others;
  }

  lemma {:induction false} RemainingDisjoint(list: seq<nat>, i: nat, others: set<nat>)
    requires Distinct(list) && i < |list| && |list| + |others| < NBUF
    ensures |Remaining(list, i) + others| < NBUF
  {
    RemainingNext(list, i);
    UnionSize(Remaining(list, i), others);
  }
}
