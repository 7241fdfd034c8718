/**
 The on-disk redo log of kernel/log.c, as a sequence of single-block writes.

 A commit and a recovery are traces of disk states, one state per block write.
 A crash keeps the state reached so far.  The theorems say that the home blocks
 seen after the next recovery are those from before the whole group of
 operations or those from after it, whatever write the crash follows and
 however often recovery itself is interrupted.
 */
module RedoLog {
  import opened Storage

  /** log.start and log.size: the header block, then the log slots. */
  datatype Layout = Layout(start: nat, size: nat) {
    predicate InLog(b: int) {
      start <= b < start + size
    }

    function Slot(i: int): int {
      start + 1 + i
    }
  }

  /** The blocks a transaction lists live outside the log and fit its slots. */
  predicate Fits(l: Layout, size: nat, list: seq<nat>) {
    && l.start + l.size <= size
    && |list| <= LOGSIZE
    && |list| < l.size
    && forall i :: 0 <= i < |list| ==> list[i] < size && !l.InLog(list[i])
  }

  /** The on-disk header lists a transaction that fits. */
  predicate WellFormed(l: Layout, d: Disk) {
    && l.start < |d|
    && WellFormedHeader(d[l.start])
    && Fits(l, |d|, HeaderList(d[l.start]))
  }

  function Logged(l: Layout, d: Disk): seq<nat>
    requires WellFormed(l, d)
  {
    HeaderList(d[l.start])
  }

  /** Agreement on every block outside the log. */
  ghost predicate SameHome(l: Layout, d: Disk, e: Disk) {
    && |d| == |e|
    && forall b :: 0 <= b < |d| && !l.InLog(b) ==> d[b] == e[b]
  }

  /** What block b holds once the first k listed updates are laid over its old contents. */
  function Overlay(list: seq<nat>, contents: seq<Block>, k: nat, b: int, below: Block): Block
    requires k <= |list| && k <= |contents|
  {
    if k == 0 then below
    else if list[k - 1] == b then contents[k - 1]
    else Overlay(list, contents, k - 1, b, below)
  }

  /** e holds the home blocks of d with a whole transaction applied. */
  ghost predicate Applied(l: Layout, d: Disk, list: seq<nat>, contents: seq<Block>, e: Disk)
    requires |contents| == |list|
  {
    && |e| == |d|
    && forall b :: 0 <= b < |d| && !l.InLog(b) ==> e[b] == Overlay(list, contents, |list|, b, d[b])
  }

  // ------------------------------------------------------------------
  // Block writes of the four phases

  /** write_log after k iterations. */
  function SlotsWritten(l: Layout, d: Disk, contents: seq<Block>, k: nat): (e: Disk)
    requires k <= |contents| && l.start + |contents| < |d|
    ensures |e| == |d|
  {
    if k == 0 then d
    else SlotsWritten(l, d, contents, k - 1)[l.Slot(k - 1) := contents[k - 1]]
  }

  /** write_head. */
  function HeadWritten(l: Layout, d: Disk, list: seq<nat>): (e: Disk)
    requires l.start < |d| && |list| <= LOGSIZE
    ensures |e| == |d|
  {
    d[l.start := WithHeader(d[l.start], list)]
  }

  /** install_trans after k iterations. */
  function Installed(l: Layout, d: Disk, list: seq<nat>, k: nat): (e: Disk)
    requires Fits(l, |d|, list) && k <= |list|
    ensures |e| == |d|
  {
    if k == 0 then d
    else
      var e := Installed(l, d, list, k - 1);
      e[list[k - 1] := e[l.Slot(k - 1)]]
  }

  /** recover_from_log: install what the header lists, then clear the header. */
  function Recovered(l: Layout, d: Disk): (e: Disk)
    requires WellFormed(l, d)
    ensures |e| == |d|
  {
    var list := Logged(l, d);
    HeadWritten(l, Installed(l, d, list, |list|), [])
  }

  /** The disk after k block writes of recovery. */
  function RecoveryState(l: Layout, d: Disk, k: nat): (e: Disk)
    requires WellFormed(l, d)
    ensures |e| == |d|
  {
    if k <= |Logged(l, d)| then Installed(l, d, Logged(l, d), k) else Recovered(l, d)
  }

  /** The disk after each of the first k block writes of recovery. */
  function RecoveryPrefix(l: Layout, d: Disk, k: nat): (t: seq<Disk>)
    requires WellFormed(l, d)
    ensures |t| == k
  {
    if k == 0 then [] else RecoveryPrefix(l, d, k - 1) + [RecoveryState(l, d, k)]
  }

  function RecoveryTrace(l: Layout, d: Disk): (t: seq<Disk>)
    requires WellFormed(l, d)
    ensures |t| == |Logged(l, d)| + 1
  {
    RecoveryPrefix(l, d, |Logged(l, d)| + 1)
  }

  /** The disk after k block writes of commit, given the contents write_log copies from the cache. */
  function CommitState(l: Layout, d: Disk, list: seq<nat>, contents: seq<Block>, k: nat): (e: Disk)
    requires Fits(l, |d|, list) && |contents| == |list|
    ensures |e| == |d|
  {
    var n := |list|;
    if k <= n then SlotsWritten(l, d, contents, k)
    else
      var committed := HeadWritten(l, SlotsWritten(l, d, contents, n), list);
      if k <= 2 * n + 1 then Installed(l, committed, list, k - n - 1)
      else HeadWritten(l, Installed(l, committed, list, n), [])
  }

  /** The disk after each of the first k block writes of commit. */
  function CommitPrefix(l: Layout, d: Disk, list: seq<nat>, contents: seq<Block>, k: nat): (t: seq<Disk>)
    requires Fits(l, |d|, list) && |contents| == |list|
    ensures |t| == k
  {
    if k == 0 then []
    else CommitPrefix(l, d, list, contents, k - 1) + [CommitState(l, d, list, contents, k)]
  }

  /** The number of block writes of a commit; an empty transaction writes nothing. */
  function CommitWrites(list: seq<nat>): nat {
    if list == [] then 0 else 2 * |list| + 2
  }

  function CommitTrace(l: Layout, d: Disk, list: seq<nat>, contents: seq<Block>): (t: seq<Disk>)
    requires Fits(l, |d|, list) && |contents| == |list|
    ensures |t| == CommitWrites(list)
  {
    CommitPrefix(l, d, list, contents, CommitWrites(list))
  }

  /** The disk left by a crash after the first k writes of a trace. */
  function CrashedAt(d: Disk, t: seq<Disk>, k: nat): Disk
    requires k <= |t|
  {
    if k == 0 then d else t[k - 1]
  }

  /** How each block write of a commit advances its state. */
  lemma {:induction false} CommitAdvances(l: Layout, d: Disk, list: seq<nat>, contents: seq<Block>, i: nat)
    requires Fits(l, |d|, list) && |contents| == |list| && i <= |list|
    ensures CommitState(l, d, list, contents, 0) == d
    ensures i < |list| ==>
              CommitState(l, d, list, contents, i + 1) == CommitState(l, d, list, contents, i)[l.Slot(i) := contents[i]]
    ensures CommitState(l, d, list, contents, |list| + 1) == HeadWritten(l,
              CommitState(l, d, list, contents, |list|), list)
    ensures i < |list| ==>
              CommitState(l, d, list, contents, |list| + 2 + i) ==
              CommitState(l, d, list, contents, |list| + 1 + i)[list[i] := contents[i]]
    ensures 0 < |list| ==>
              CommitState(l, d, list, contents, 2 * |list| + 2) ==
              HeadWritten(l, CommitState(l, d, list, contents, 2 * |list| + 1), [])
  {
    if i < |list| {
      SlotStays(l, d, list, contents, i);
    }
  }

  /** Installing home blocks leaves the log slots of the commit as write_log filled them. */
  lemma {:induction false} SlotStays(l: Layout, d: Disk, list: seq<nat>, contents: seq<Block>, i: nat)
    requires Fits(l, |d|, list) && |contents| == |list| && i < |list|
    ensures CommitState(l, d, list, contents, |list| + 1 + i)[l.Slot(i)] == contents[i]
  {
    var c := HeadWritten(l, SlotsWritten(l, d, contents, |list|), list);
    SlotsWrittenBlocks(l, d, contents, |list|);
    InstalledBlock(l, c, list, i, l.Slot(i));
    assert Slots(l, SlotsWritten(l, d, contents, |list|), |list|)[i] == contents[i];
  }

  lemma {:induction false} CommitPrefixNext(l: Layout, d: Disk, list: seq<nat>, contents: seq<Block>, k: nat)
    requires Fits(l, |d|, list) && |contents| == |list|
    ensures CommitPrefix(l, d, list, contents, 0) == []
    ensures CommitPrefix(l, d, list, contents, k + 1) ==
            CommitPrefix(l, d, list, contents, k) + [CommitState(l, d, list, contents, k + 1)]
  {
  }

  lemma {:induction false} CommitPrefixAt(l: Layout, d: Disk, list: seq<nat>, contents: seq<Block>, n: nat, k: nat)
    requires Fits(l, |d|, list) && |contents| == |list| && 0 < k <= n
    ensures CommitPrefix(l, d, list, contents, n)[k - 1] == CommitState(l, d, list, contents, k)
  {
    if k < n {
      CommitPrefixAt(l, d, list, contents, n - 1, k);
    }
  }

  lemma {:induction false} RecoveryPrefixAt(l: Layout, d: Disk, n: nat, k: nat)
    requires WellFormed(l, d) && 0 < k <= n
    ensures RecoveryPrefix(l, d, n)[k - 1] == RecoveryState(l, d, k)
  {
    if k < n {
      RecoveryPrefixAt(l, d, n - 1, k);
    }
  }

  // ------------------------------------------------------------------
  // What each phase leaves, block by block

  /** The first n log slots of a disk. */
  function Slots(l: Layout, d: Disk, n: nat): seq<Block>
    requires l.start + n < |d|
  {
    d[l.start + 1..l.start + 1 + n]
  }

  lemma {:induction false} SlotsWrittenBlocks(l: Layout, d: Disk, contents: seq<Block>, k: nat)
    requires k <= |contents| && l.start + |contents| < |d|
    ensures var e := SlotsWritten(l, d, contents, k);
            && Slots(l, e, k) == contents[..k]
            && (forall b :: 0 <= b < |d| && !(l.start < b <= l.start + k) ==> e[b] == d[b])
  {
    if k > 0 {
      SlotsWrittenBlocks(l, d, contents, k - 1);
      var p := SlotsWritten(l, d, contents, k - 1);
      var e := SlotsWritten(l, d, contents, k);
      assert Slots(l, e, k) == Slots(l, p, k - 1) + [contents[k - 1]];
    }
  }

  lemma {:induction false} InstalledBlock(l: Layout, d: Disk, list: seq<nat>, k: nat, b: int)
    requires Fits(l, |d|, list) && k <= |list| && 0 <= b < |d|
    ensures Installed(l, d, list, k)[b] == Overlay(list, Slots(l, d, |list|), k, b, d[b])
    ensures l.InLog(b) ==> Installed(l, d, list, k)[b] == d[b]
  {
    if k > 0 {
      InstalledBlock(l, d, list, k - 1, b);
      InstalledBlock(l, d, list, k - 1, l.Slot(k - 1));
    }
  }

  /** Laying a whole list over blocks that already hold part of it changes nothing more. */
  lemma {:induction false} OverlayTwice(list: seq<nat>, contents: seq<Block>, k: nat, n: nat, b: int, below: Block)
    requires k <= n <= |list| && n <= |contents|
    ensures Overlay(list, contents, n, b, Overlay(list, contents, k, b, below)) == Overlay(list, contents, n, b, below)
  {
    if n > k {
      OverlayTwice(list, contents, k, n - 1, b, below);
    } else {
      OverlayIdempotent(list, contents, n, b, below);
    }
  }

  lemma {:induction false} OverlayIdempotent(list: seq<nat>, contents: seq<Block>, n: nat, b: int, below: Block)
    requires n <= |list| && n <= |contents|
    ensures var o := Overlay(list, contents, n, b, below); Overlay(list, contents, n, b, o) == o
  {
    if n > 0 && list[n - 1] != b {
      OverlayIdempotent(list, contents, n - 1, b, below);
    }
  }

  lemma {:induction false} RecoveredBlock(l: Layout, d: Disk, b: int)
    requires WellFormed(l, d) && 0 <= b < |d| && b != l.start
    ensures var list := Logged(l, d);
            Recovered(l, d)[b] == Overlay(list, Slots(l, d, |list|), |list|, b, d[b])
  {
    InstalledBlock(l, d, Logged(l, d), |Logged(l, d)|, b);
  }

  /** A recovered disk has an empty log. */
  lemma {:induction false} RecoveredEmpty(l: Layout, d: Disk)
    requires WellFormed(l, d)
    ensures WellFormed(l, Recovered(l, d)) && Logged(l, Recovered(l, d)) == []
  {
  }

  /** Recovery of a disk with an empty log leaves every home block. */
  lemma {:induction false} RecoveredIdle(l: Layout, d: Disk)
    requires WellFormed(l, d) && Logged(l, d) == []
    ensures SameHome(l, Recovered(l, d), d)
  {
    forall b | 0 <= b < |d| && !l.InLog(b) ensures Recovered(l, d)[b] == d[b] {
      RecoveredBlock(l, d, b);
    }
  }

  // ------------------------------------------------------------------
  // Crashes during recovery

  lemma {:induction false} InstalledHeader(l: Layout, d: Disk, list: seq<nat>, k: nat)
    requires Fits(l, |d|, list) && k <= |list|
    ensures Installed(l, d, list, k)[l.start] == d[l.start]
    ensures Slots(l, Installed(l, d, list, k), |list|) == Slots(l, d, |list|)
  {
    InstalledBlock(l, d, list, k, l.start);
    forall i | 0 <= i < |list| ensures Slots(l, Installed(l, d, list, k), |list|)[i] == Slots(l, d, |list|)[i] {
      InstalledBlock(l, d, list, k, l.Slot(i));
    }
  }

  lemma {:induction false} InstalledPrefixRecovers(l: Layout, d: Disk, k: nat)
    requires WellFormed(l, d) && k <= |Logged(l, d)|
    ensures var e := Installed(l, d, Logged(l, d), k);
            && WellFormed(l, e) && Logged(l, e) == Logged(l, d)
            && SameHome(l, Recovered(l, e), Recovered(l, d))
  {
    var list := Logged(l, d);
    var e := Installed(l, d, list, k);
    InstalledHeader(l, d, list, k);
    forall b | 0 <= b < |d| && !l.InLog(b) ensures Recovered(l, e)[b] == Recovered(l, d)[b] {
      InstalledBlock(l, d, list, k, b);
      RecoveredBlock(l, e, b);
      RecoveredBlock(l, d, b);
      OverlayTwice(list, Slots(l, d, |list|), k, |list|, b, d[b]);
    }
  }

  /** A crash after any write of recovery loses nothing: the next recovery ends at the same home blocks. */
  lemma {:induction false} RecoveryCrash(l: Layout, d: Disk, k: nat)
    requires WellFormed(l, d) && k <= |RecoveryTrace(l, d)|
    ensures var e := CrashedAt(d, RecoveryTrace(l, d), k);
            WellFormed(l, e) && SameHome(l, Recovered(l, e), Recovered(l, d))
  {
    if k > 0 {
      RecoveryPrefixAt(l, d, |RecoveryTrace(l, d)|, k);
    }
    if k <= |Logged(l, d)| {
      InstalledPrefixRecovers(l, d, k);
    } else {
      RecoveredEmpty(l, d);
      RecoveredIdle(l, Recovered(l, d));
    }
  }

  /** Boots that follow one another, each cut short somewhere inside its recovery. */
  ghost predicate CrashChain(l: Layout, ds: seq<Disk>, ks: seq<nat>) {
    && |ds| == |ks| + 1
    && forall i :: 0 <= i < |ks| ==>
        && WellFormed(l, ds[i])
        && ks[i] <= |RecoveryTrace(l, ds[i])|
        && ds[i + 1] == CrashedAt(ds[i], RecoveryTrace(l, ds[i]), ks[i])
  }

  lemma {:induction false} RepeatedCrashes(l: Layout, ds: seq<Disk>, ks: seq<nat>)
    requires CrashChain(l, ds, ks) && WellFormed(l, ds[0])
    ensures var last := ds[|ks|];
            WellFormed(l, last) && SameHome(l, Recovered(l, last), Recovered(l, ds[0]))
    decreases |ks|
  {
    if |ks| > 0 {
      var m := |ks| - 1;
      RepeatedCrashes(l, ds[..|ds| - 1], ks[..m]);
      RecoveryCrash(l, ds[m], ks[m]);
    }
  }

  // ------------------------------------------------------------------
  // Crashes during a commit

  /** What a crash that leaves disk e after k block writes of a commit must guarantee. */
  ghost predicate Atomic(l: Layout, d: Disk, list: seq<nat>, contents: seq<Block>, k: nat, e: Disk)
    requires |contents| == |list|
  {
    && WellFormed(l, e)
    && (if k <= |list| then SameHome(l, Recovered(l, e), d)
        else Applied(l, d, list, contents, Recovered(l, e)))
    && (Logged(l, e) != [] <==> |list| < k < 2 * |list| + 2)
  }

  lemma {:induction false} BeforeTheHeader(l: Layout, d: Disk, list: seq<nat>, contents: seq<Block>, k: nat)
    requires WellFormed(l, d) && Logged(l, d) == []
    requires Fits(l, |d|, list) && |contents| == |list| && k <= |list|
    ensures Atomic(l, d, list, contents, k, SlotsWritten(l, d, contents, k))
  {
    SlotsWrittenBlocks(l, d, contents, k);
    RecoveredIdle(l, SlotsWritten(l, d, contents, k));
  }

  /** The disk once the header is written: the log holds the transaction, the home blocks are old. */
  lemma {:induction false} HeaderWritten(l: Layout, d: Disk, list: seq<nat>, contents: seq<Block>)
    requires Fits(l, |d|, list) && |contents| == |list|
    ensures var c := HeadWritten(l, SlotsWritten(l, d, contents, |list|), list);
            && WellFormed(l, c) && Logged(l, c) == list && Slots(l, c, |list|) == contents
            && (forall b :: 0 <= b < |d| && !l.InLog(b) ==> c[b] == d[b])
            && Applied(l, d, list, contents, Recovered(l, c))
  {
    var n := |list|;
    var w := SlotsWritten(l, d, contents, n);
    var c := HeadWritten(l, w, list);
    SlotsWrittenBlocks(l, d, contents, n);
    assert Slots(l, c, n) == Slots(l, w, n) == contents[..n] == contents;
    forall b | 0 <= b < |d| && !l.InLog(b) ensures Recovered(l, c)[b] == Overlay(list, contents, n, b, d[b]) {
      RecoveredBlock(l, c, b);
    }
  }

  lemma {:induction false} AfterTheHeader(l: Layout, d: Disk, list: seq<nat>, contents: seq<Block>, k: nat)
    requires Fits(l, |d|, list) && |contents| == |list| && k <= |list| && 0 < |list|
    ensures var c := HeadWritten(l, SlotsWritten(l, d, contents, |list|), list);
            Atomic(l, d, list, contents, |list| + 1 + k, Installed(l, c, list, k))
  {
    HeaderWritten(l, d, list, contents);
    InstalledPrefixRecovers(l, HeadWritten(l, SlotsWritten(l, d, contents, |list|), list), k);
  }

  lemma {:induction false} AfterClearing(l: Layout, d: Disk, list: seq<nat>, contents: seq<Block>)
    requires Fits(l, |d|, list) && |contents| == |list|
    ensures var c := HeadWritten(l, SlotsWritten(l, d, contents, |list|), list);
            Atomic(l, d, list, contents, 2 * |list| + 2, HeadWritten(l, Installed(l, c, list, |list|), []))
  {
    HeaderWritten(l, d, list, contents);
    var c := HeadWritten(l, SlotsWritten(l, d, contents, |list|), list);
    RecoveredEmpty(l, c);
    RecoveredIdle(l, Recovered(l, c));
  }

  lemma {:induction false} CommitStateAtomic(l: Layout, d: Disk, list: seq<nat>, contents: seq<Block>, k: nat)
    requires WellFormed(l, d) && Logged(l, d) == []
    requires Fits(l, |d|, list) && |contents| == |list| && 0 < |list|
    requires k <= 2 * |list| + 2
    ensures Atomic(l, d, list, contents, k, CommitState(l, d, list, contents, k))
  {
    var n := |list|;
    if k <= n {
      BeforeTheHeader(l, d, list, contents, k);
    } else if k <= 2 * n + 1 {
      AfterTheHeader(l, d, list, contents, k - n - 1);
    } else {
      AfterClearing(l, d, list, contents);
    }
  }

  /**
   Crash atomicity.  After k block writes of a commit, recovery yields the old home blocks
   when the header has not been written (k <= n) and the new ones from then on; the log on
   disk is non-empty exactly between the two header writes.
   */
  lemma {:induction false} CommitCrash(l: Layout, d: Disk, list: seq<nat>, contents: seq<Block>, k: nat)
    requires WellFormed(l, d) && Logged(l, d) == []
    requires Fits(l, |d|, list) && |contents| == |list|
    requires k <= |CommitTrace(l, d, list, contents)|
    ensures Atomic(l, d, list, contents, k, CrashedAt(d, CommitTrace(l, d, list, contents), k))
  {
    if list == [] {
      BeforeTheHeader(l, d, list, contents, 0);
    } else {
      CommitStateAtomic(l, d, list, contents, k);
      if k > 0 {
        CommitPrefixAt(l, d, list, contents, CommitWrites(list), k);
      }
    }
  }

  /** Crash atomicity with any number of later crashes inside recovery. */
  lemma {:induction false} CommitThenCrashes(
      l: Layout, d: Disk, list: seq<nat>, contents: seq<Block>, k: nat, ds: seq<Disk>, ks: seq<nat>)
    requires WellFormed(l, d) && Logged(l, d) == []
    requires Fits(l, |d|, list) && |contents| == |list|
    requires k <= |CommitTrace(l, d, list, contents)|
    requires CrashChain(l, ds, ks) && ds[0] == CrashedAt(d, CommitTrace(l, d, list, contents), k)
    ensures var last := ds[|ks|];
            && WellFormed(l, last)
            && (if k <= |list| then SameHome(l, Recovered(l, last), d)
                else Applied(l, d, list, contents, Recovered(l, last)))
  {
    CommitCrash(l, d, list, contents, k);
    RepeatedCrashes(l, ds, ks);
  }
}
