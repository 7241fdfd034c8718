/**
 Runs of the log that go wrong, from boot, with every operation within its ten blocks: one in
 which a reader leaves the commit no buffer, and one in which two operations pass the test of
 log_write together and the commit writes past the log.  With the second, the size of the
 log region from which on every run is crash safe is exact.
 */
module LogRuns {
  import opened BufferCache
  import opened LogProtocol
  import opened LogRefinement
  import opened RedoLog
  import opened Storage

  /** The blocks the operations 0, 1 and 2 have appended. */
  function Spent(steps: seq<Step>): (u: seq<nat>)
    ensures |u| == 3
  {
    if steps == [] then [0, 0, 0] else Spend(Spent(steps[..|steps| - 1]), steps[|steps| - 1])
  }

  function Spend(u: seq<nat>, step: Step): (u': seq<nat>)
    ensures |u'| == |u|
  {
    if step.AppendStep? && step.t < |u| then u[step.t := u[step.t] + 1] else u
  }

  /** A run from a fresh kernel over disk d, without a commit point, in which the operations append as u says. */
  ghost predicate Leads(l: Layout, d: Disk, ss: seq<State>, steps: seq<Step>, s: State, u: seq<nat>) {
    && Run(l, ss, steps) && ss[0].disk == d && s == ss[|steps|] && u == Spent(steps)
    && forall i :: 0 <= i < |steps| ==> !steps[i].CommitStep?
  }

  ghost predicate Reaches(l: Layout, d: Disk, s: State, u: seq<nat>) {
    exists ss, steps :: Leads(l, d, ss, steps, s, u)
  }

  lemma {:induction false} Extend(l: Layout, d: Disk, s: State, u: seq<nat>, step: Step, s': State)
    requires Reaches(l, d, s, u) && Next(l, s, step, s') && !step.CommitStep?
    ensures Reaches(l, d, s', Spend(u, step))
  {
    hide Next, Init;
    var ss, steps :| Leads(l, d, ss, steps, s, u);
    var ss', steps' := ss + [s'], steps + [step];
    forall i | 0 <= i < |steps'| ensures Next(l, ss'[i], steps'[i], ss'[i + 1]) && !steps'[i].CommitStep? {
      if i < |steps| {
        assert ss'[i] == ss[i] && ss'[i + 1] == ss[i + 1] && steps'[i] == steps[i];
      }
    }
    assert steps'[..|steps|] == steps;
    assert Leads(l, d, ss', steps', s', Spend(u, step));
  }

  /** One step of a running kernel that writes no block and appends nothing. */
  lemma {:induction false} Go(l: Layout, d: Disk, e: Disk, m: Mem, u: seq<nat>, step: Step, m': Mem)
    requires Reaches(l, d, Running(e, m), u) && RunNext(l, e, m, step, e, m') && !step.CommitStep? && !step.AppendStep?
    ensures Reaches(l, d, Running(e, m'), u)
  {
    hide Reaches, RunNext;
    assert Next(l, Running(e, m), step, Running(e, m')) by {
      IsNext(l, e, m, step, e, m');
    }
    Extend(l, d, Running(e, m), u, step, Running(e, m'));
  }

  lemma {:induction false} IsNext(l: Layout, e: Disk, m: Mem, step: Step, e': Disk, m': Mem)
    requires RunNext(l, e, m, step, e', m')
    ensures Next(l, Running(e, m), step, Running(e', m'))
  {
  }

  // ------------------------------------------------------------------
  // Three operations fill the log

  const EMPTY: Block := Block([0])
  const UNUSED: Buf := Buf(0, 0, false, 0, false, EMPTY)

  /** The i-th home block: past the log and the block after it. */
  function HomeAt(l: Layout, i: int): int {
    l.start + l.size + 1 + i
  }

  function EmptyDisk(l: Layout): (d: Disk)
    ensures |d| == HomeAt(l, NBUF)
  {
    seq(HomeAt(l, NBUF), _ => EMPTY)
  }

  /** A buffer the log has pinned. */
  function LoggedBuf(l: Layout, i: nat): Buf {
    Buf(ROOTDEV, HomeAt(l, i), true, 1, false, EMPTY)
  }

  function HomeList(l: Layout, k: nat): (s: seq<nat>)
    ensures |s| == k && forall i :: 0 <= i < k ==> s[i] == HomeAt(l, i)
  {
    seq(k, i requires 0 <= i < k => HomeAt(l, i))
  }

  function FilledBufs(l: Layout, k: nat): (bs: seq<Buf>)
    ensures |bs| == NBUF && forall i :: 0 <= i < NBUF ==> bs[i] == if i < k then LoggedBuf(l, i) else UNUSED
  {
    seq(NBUF, i requires 0 <= i < NBUF => if i < k then LoggedBuf(l, i) else UNUSED)
  }

  /** Three operations have logged k blocks between them. */
  function Filled(l: Layout, k: nat): Mem {
    Mem(FilledBufs(l, k), map[], map[], map[], map[], {}, {0, 1, 2}, HomeList(l, k), Idle, 0)
  }

  /** They take turns. */
  function Turns(k: nat): (u: seq<nat>)
    ensures |u| == 3
  {
    [(k + 2) / 3, (k + 1) / 3, k / 3]
  }

  lemma {:induction false} NextTurn(k: nat)
    ensures Turns(k)[k % 3 := Turns(k)[k % 3] + 1] == Turns(k + 1)
  {
  }

  lemma {:induction false} KernelStarts(l: Layout)
    requires 0 < l.size
    ensures Reaches(l, EmptyDisk(l), Running(EmptyDisk(l), Filled(l, 0).(ops := {})), Turns(0))
  {
    hide Next;
    var none: seq<Step> := [];
    var s := Running(EmptyDisk(l), Filled(l, 0).(ops := {}));
    assert Init(l, s);
    assert Leads(l, EmptyDisk(l), [s], none, s, Turns(0));
  }

  lemma {:induction false} OpsBegin(l: Layout)
    requires 0 < l.size
    ensures Reaches(l, EmptyDisk(l), Running(EmptyDisk(l), Filled(l, 0)), Turns(0))
  {
    hide Reaches, FilledBufs, EmptyDisk;
    KernelStarts(l);
    var d, m := EmptyDisk(l), Filled(l, 0);
    var m0, m1, m2 := m.(ops := {}), m.(ops := {0}), m.(ops := {0, 1});
    Go(l, d, d, m0, Turns(0), BeginStep(0), m1);
    Go(l, d, d, m1, Turns(0), BeginStep(1), m2);
    assert m2.ops + {2} == m.ops;
    Go(l, d, d, m2, Turns(0), BeginStep(2), m);
  }

  /** t reads in the block with number HomeAt(l, k), which is not cached, into the unused buffer k. */
  lemma {:induction false} ReadIn(l: Layout, m: Mem, u: seq<nat>, t: nat, k: nat) returns (m': Mem)
    requires Reaches(l, EmptyDisk(l), Running(EmptyDisk(l), m), u)
    requires t < NPROC && t !in m.waiting && t !in m.leaving && t !in m.passed && k < NBUF && k !in m.owner
    requires |m.bufs| == NBUF && m.bufs[k] == UNUSED && !IsCached(m.bufs, HomeAt(l, k))
    ensures Reaches(l, EmptyDisk(l), Running(EmptyDisk(l), m'), u)
    ensures m' == m.(bufs := m.bufs[k := Buf(ROOTDEV, HomeAt(l, k), true, 1, true, EMPTY)], owner := m.owner[k := t])
  {
    hide Reaches;
    var d, b := EmptyDisk(l), HomeAt(l, k);
    var m1 := Get(m, t, b, k);
    Go(l, d, d, m, u, GetStep(t, b, k), m1);
    var m2 := Acquire(m1, t);
    Go(l, d, d, m1, u, AcquireStep(t), m2);
    m' := Load(d, m2, k);
    Go(l, d, d, m2, u, LoadStep(t, k), m');
    assert m'.waiting == m.waiting;
  }

  /** t gives back a buffer it has logged. */
  lemma {:induction false} GiveBack(l: Layout, d: Disk, e: Disk, m: Mem, u: seq<nat>, t: nat, k: nat) returns (m': Mem)
    requires Reaches(l, d, Running(e, m), u)
    requires t < NPROC && t !in m.leaving && t !in m.passed && Owns(m, t, k) && m.bufs[k].valid && k !in m.dirty
    ensures Reaches(l, d, Running(e, m'), u)
    ensures m' == m.(owner := m.owner - {k},
                     bufs := m.bufs[k := m.bufs[k].(locked := false, refcnt := Dec(m.bufs[k].refcnt))])
  {
    hide Reaches;
    var m1 := Release(m, t, k);
    Go(l, d, e, m, u, ReleaseStep(t, k), m1);
    m' := Drop(m1, t);
    Go(l, d, e, m1, u, DropStep(t), m');
    assert m'.leaving == m.leaving;
  }

  lemma {:induction false} NotYetCached(l: Layout, k: nat)
    ensures forall j: nat :: k <= j ==> !IsCached(FilledBufs(l, k), HomeAt(l, j))
  {
  }

  /** t changes a block it has read in and passes the test for it. */
  lemma {:induction false} PassTest(l: Layout, m: Mem, u: seq<nat>, t: nat, k: nat, v: Block) returns (m': Mem)
    requires Reaches(l, EmptyDisk(l), Running(EmptyDisk(l), m), u) && CanTest(l, m, t, k)
    ensures Reaches(l, EmptyDisk(l), Running(EmptyDisk(l), m'), u)
    ensures m' == m.(bufs := m.bufs[k := m.bufs[k].(data := v)], dirty := m.dirty + {k}, passed := m.passed[t := k])
  {
    hide Reaches;
    var d := EmptyDisk(l);
    var m1 := Modify(m, k, v);
    Go(l, d, d, m, u, ModifyStep(t, k, v), m1);
    m' := Test(m1, t, k);
    Go(l, d, d, m1, u, TestStep(t, k), m');
  }

  lemma {:induction false} DoAppend(l: Layout, m: Mem, u: seq<nat>, t: nat)
    requires Reaches(l, EmptyDisk(l), Running(EmptyDisk(l), m), u) && CanAppend(m, t) && t < |u|
    ensures Reaches(l, EmptyDisk(l), Running(EmptyDisk(l), Append(m, t)), u[t := u[t] + 1])
  {
    hide Reaches;
    var d := EmptyDisk(l);
    Extend(l, d, Running(d, m), u, AppendStep(t), Running(d, Append(m, t)));
  }

  lemma {:induction false} OneMore(l: Layout, k: nat)
    requires k < LOGSIZE && k < l.size - 1
    requires Reaches(l, EmptyDisk(l), Running(EmptyDisk(l), Filled(l, k)), Turns(k))
    ensures Reaches(l, EmptyDisk(l), Running(EmptyDisk(l), Filled(l, k + 1)), Turns(k + 1))
  {
    hide Reaches, EmptyDisk, Turns;
    var t, d := k % 3, EmptyDisk(l);
    NotYetCached(l, k);
    var m1 := ReadIn(l, Filled(l, k), Turns(k), t, k);
    var m2 := PassTest(l, m1, Turns(k), t, k, EMPTY);
    DoAppend(l, m2, Turns(k), t);
    NextTurn(k);
    var m4 := GiveBack(l, d, d, Append(m2, t), Turns(k + 1), t, k);
    assert m4.bufs == FilledBufs(l, k + 1);
    assert m4.list == HomeList(l, k + 1);
    assert m4 == Filled(l, k + 1);
  }

  lemma {:induction false} FilledReached(l: Layout, k: nat)
    requires k <= LOGSIZE && k < l.size
    ensures Reaches(l, EmptyDisk(l), Running(EmptyDisk(l), Filled(l, k)), Turns(k))
  {
    hide Reaches, EmptyDisk, Turns;
    if k == 0 {
      OpsBegin(l);
    } else {
      FilledReached(l, k - 1);
      OneMore(l, k - 1);
    }
  }

  /** The operations end and the last of them starts the commit. */
  lemma {:induction false} AllEnd(l: Layout, d: Disk, e: Disk, m: Mem, u: seq<nat>) returns (m': Mem)
    requires Reaches(l, d, Running(e, m), u) && m.ops == {0, 1, 2} && m.list != []
    requires forall t :: 0 <= t < 3 ==> t !in m.leaving && t !in m.passed
    requires forall i :: i in m.owner ==> m.owner[i] > 2
    ensures Reaches(l, d, Running(e, m'), u) && m' == m.(ops := {}, ct := 2, pc := Copy(0))
  {
    hide Reaches;
    var m1 := LogProtocol.End(m, 0);
    Go(l, d, e, m, u, EndStep(0), m1);
    var m2 := LogProtocol.End(m1, 1);
    Go(l, d, e, m1, u, EndStep(1), m2);
    m' := LogProtocol.End(m2, 2);
    Go(l, d, e, m2, u, EndStep(2), m');
  }

  /**
   A commit can panic with fewer than NBUF blocks pinned: operations log as many blocks as the log
   of mkfs takes, a reader outside any operation has one more buffer, and write_log finds none.
   */
  lemma {:induction false} ReaderStopsCommit() returns (l: Layout, m: Mem)
    ensures l.size == LOGSIZE && Reaches(l, EmptyDisk(l), Running(EmptyDisk(l), m), Turns(LOGSIZE - 1))
    ensures m.pc == Copy(0) && |m.list| == LOGSIZE - 1 < NBUF
    ensures forall i :: !CanGet(EmptyDisk(l), m, m.ct, l.Slot(0), i)
  {
    hide Reaches, EmptyDisk;
    l := Layout(2, LOGSIZE);
    var k := LOGSIZE - 1;
    FilledReached(l, k);
    NotYetCached(l, k);
    var m1 := ReadIn(l, Filled(l, k), Turns(k), 3, k);
    m := AllEnd(l, EmptyDisk(l), EmptyDisk(l), m1, Turns(k));
    forall i ensures !CanGet(EmptyDisk(l), m, m.ct, l.Slot(0), i) {
      assert 0 <= i < k ==> m.bufs[i] == LoggedBuf(l, i);
    }
  }

  // ------------------------------------------------------------------
  // Two operations pass the test together

  const CHANGED: Block := Block([0, 1])

  /** What the i-th of n logged buffers holds: the last one was changed. */
  function RacedBuf(l: Layout, n: nat, i: nat): Buf {
    LoggedBuf(l, i).(data := if i + 1 == n then CHANGED else EMPTY)
  }

  /** The buffers when n blocks are logged and buffer n, if it was used, had the slot before the k-th. */
  function RacedBufs(l: Layout, n: nat, k: nat): (bs: seq<Buf>)
    ensures |bs| == NBUF
    ensures forall i :: 0 <= i < NBUF ==>
              bs[i] == if i < n then RacedBuf(l, n, i) else if i == n then SlotBuf(l, k) else UNUSED
  {
    seq(NBUF, i requires 0 <= i < NBUF => if i < n then RacedBuf(l, n, i) else if i == n then SlotBuf(l, k) else UNUSED)
  }

  function SlotBuf(l: Layout, k: nat): Buf {
    if k == 0 then UNUSED else Buf(ROOTDEV, l.Slot(k - 1), true, 0, false, EMPTY)
  }

  /** The commit of n blocks has copied k of them. */
  function Copying(l: Layout, n: nat, k: nat): Mem {
    Mem(RacedBufs(l, n, k), map[], map[], map[], map[], {}, {}, HomeList(l, n), Copy(k), 2)
  }

  /** With room for one more block, two operations log one each. */
  lemma {:induction false} BothPass(l: Layout, n: nat) returns (m: Mem)
    requires 2 <= n == l.size < LOGSIZE
    ensures Reaches(l, EmptyDisk(l), Running(EmptyDisk(l), m), Turns(n))
    ensures m == Filled(l, n).(bufs := RacedBufs(l, n, 0))
  {
    hide Reaches, EmptyDisk, Turns;
    var k, d := n - 2, EmptyDisk(l);
    var t, t' := k % 3, (k + 1) % 3;
    FilledReached(l, k);
    var m1 := BothRead(l, n);
    var m2 := PassTest(l, m1, Turns(k), t, k, EMPTY);
    var m3 := PassTest(l, m2, Turns(k), t', k + 1, CHANGED);
    DoAppend(l, m3, Turns(k), t);
    NextTurn(k);
    m := BothAppended(l, n, m3);
  }

  lemma {:induction false} BothRead(l: Layout, n: nat) returns (m: Mem)
    requires 2 <= n == l.size < LOGSIZE
    requires Reaches(l, EmptyDisk(l), Running(EmptyDisk(l), Filled(l, n - 2)), Turns(n - 2))
    ensures Reaches(l, EmptyDisk(l), Running(EmptyDisk(l), m), Turns(n - 2))
    ensures m == Filled(l, n - 2).(bufs := BothReadBufs(l, n), owner := map[n - 2 := (n - 2) % 3, n - 1 := (n - 1) % 3])
  {
    hide Reaches, EmptyDisk, Turns;
    var k := n - 2;
    NotYetCached(l, k);
    var m1 := ReadIn(l, Filled(l, k), Turns(k), k % 3, k);
    assert !IsCached(m1.bufs, HomeAt(l, k + 1));
    m := ReadIn(l, m1, Turns(k), (k + 1) % 3, k + 1);
    assert m.bufs == BothReadBufs(l, n);
  }

  function ReadBuf(l: Layout, i: nat): Buf {
    Buf(ROOTDEV, HomeAt(l, i), true, 1, true, EMPTY)
  }

  function BothReadBufs(l: Layout, n: nat): (bs: seq<Buf>)
    requires 2 <= n <= NBUF
    ensures |bs| == NBUF
  {
    FilledBufs(l, n - 2)[n - 2 := ReadBuf(l, n - 2)][n - 1 := ReadBuf(l, n - 1)]
  }

  lemma {:induction false} BothAppended(l: Layout, n: nat, m3: Mem) returns (m: Mem)
    requires 2 <= n == l.size < LOGSIZE
    requires m3 == Filled(l, n - 2).(
               bufs := BothReadBufs(l, n)[n - 2 := ReadBuf(l, n - 2)][n - 1 := ReadBuf(l, n - 1).(data := CHANGED)],
               owner := map[n - 2 := (n - 2) % 3, n - 1 := (n - 1) % 3], dirty := {n - 2, n - 1},
               passed := map[(n - 2) % 3 := n - 2, (n - 1) % 3 := n - 1])
    requires Reaches(l, EmptyDisk(l), Running(EmptyDisk(l), Append(m3, (n - 2) % 3)), Turns(n - 1))
    ensures Reaches(l, EmptyDisk(l), Running(EmptyDisk(l), m), Turns(n))
    ensures m == Filled(l, n).(bufs := RacedBufs(l, n, 0))
  {
    hide Reaches, EmptyDisk, Turns;
    var k, d := n - 2, EmptyDisk(l);
    var m4 := Append(m3, k % 3);
    DoAppend(l, m4, Turns(k + 1), (k + 1) % 3);
    NextTurn(k + 1);
    var m5 := Append(m4, (k + 1) % 3);
    var m6 := GiveBack(l, d, d, m5, Turns(n), k % 3, k);
    m := GiveBack(l, d, d, m6, Turns(n), (k + 1) % 3, k + 1);
    assert m.bufs == RacedBufs(l, n, 0);
    assert m.list == HomeList(l, n);
  }

  /** The committing thread gets the buffers of the k-th slot and the k-th listed block. */
  lemma {:induction false} GetsPair(l: Layout, n: nat, k: nat, u: seq<nat>) returns (m: Mem)
    requires k < n == l.size < LOGSIZE && Reaches(l, EmptyDisk(l), Running(EmptyDisk(l), Copying(l, n, k)), u)
    ensures Reaches(l, EmptyDisk(l), Running(EmptyDisk(l), m), u)
    ensures m == Copying(l, n, k).(owner := map[n := 2, k := 2],
                                   bufs := RacedBufs(l, n, k)[n := Buf(ROOTDEV, l.Slot(k), true, 1, true, EMPTY)]
                                                             [k := RacedBuf(l, n, k).(refcnt := 2, locked := true)])
  {
    hide Reaches;
    var d, b, m0 := EmptyDisk(l), l.Slot(k), Copying(l, n, k);
    assert !IsCached(m0.bufs, b);
    var m1 := Get(m0, 2, b, n);
    Go(l, d, d, m0, u, GetStep(2, b, n), m1);
    var m2 := Acquire(m1, 2);
    Go(l, d, d, m1, u, AcquireStep(2), m2);
    var m3 := Load(d, m2, n);
    Go(l, d, d, m2, u, LoadStep(2, n), m3);
    m := GetsHome(l, n, k, u, m3);
  }

  lemma {:induction false} GetsHome(l: Layout, n: nat, k: nat, u: seq<nat>, m3: Mem) returns (m: Mem)
    requires k < n == l.size < LOGSIZE && Reaches(l, EmptyDisk(l), Running(EmptyDisk(l), m3), u)
    requires m3 == Copying(l, n, k).(owner := map[n := 2],
                                     bufs := RacedBufs(l, n, k)[n := Buf(ROOTDEV, l.Slot(k), true, 1, true, EMPTY)])
    ensures Reaches(l, EmptyDisk(l), Running(EmptyDisk(l), m), u)
    ensures m == m3.(owner := map[n := 2, k := 2],
              bufs := m3.bufs[k := RacedBuf(l, n, k).(refcnt := 2, locked := true)])
  {
    hide Reaches;
    var d, b := EmptyDisk(l), HomeAt(l, k);
    var m4 := Get(m3, 2, b, k);
    Go(l, d, d, m3, u, GetStep(2, b, k), m4);
    m := Acquire(m4, 2);
    Go(l, d, d, m4, u, AcquireStep(2), m);
  }

  /** A slot inside the log gets the unchanged contents of its block, and the disk stays as it is. */
  lemma {:induction false} CopiesOne(l: Layout, n: nat, k: nat, u: seq<nat>)
    requires k + 1 < n == l.size < LOGSIZE && Reaches(l, EmptyDisk(l), Running(EmptyDisk(l), Copying(l, n, k)), u)
    ensures Reaches(l, EmptyDisk(l), Running(EmptyDisk(l), Copying(l, n, k + 1)), u)
  {
    hide Reaches;
    var d := EmptyDisk(l);
    var m := GetsPair(l, n, k, u);
    var m1 := CopyStep(m, n, k);
    assert d[l.Slot(k) := EMPTY] == d;
    Go(l, d, d, m, u, CopyBlockStep(n, k), m1);
    var m2 := GiveBack(l, d, d, m1, u, 2, k);
    var m3 := GiveBack(l, d, d, m2, u, 2, n);
    assert m3.bufs == RacedBufs(l, n, k + 1);
    assert m3 == Copying(l, n, k + 1);
  }

  lemma {:induction false} CopyingReached(l: Layout, n: nat, k: nat)
    requires 2 <= n == l.size < LOGSIZE && k < n
    ensures Reaches(l, EmptyDisk(l), Running(EmptyDisk(l), Copying(l, n, k)), Turns(n))
  {
    hide Reaches, EmptyDisk, Turns, RacedBufs;
    if k == 0 {
      var m := BothPass(l, n);
      var m' := AllEnd(l, EmptyDisk(l), EmptyDisk(l), m, Turns(n));
    } else {
      CopyingReached(l, n, k - 1);
      CopiesOne(l, n, k - 1, Turns(n));
    }
  }

  /**
   On a log region of 2 up to LOGSIZE - 1 blocks, two operations that pass the test together list one block
   more than there are slots.  Before anything is committed, write_log overwrites the block after the log,
   and recovery leaves it so.
   */
  lemma {:induction false} TestRaced(l: Layout) returns (d: Disk, s: State)
    requires 2 <= l.size < LOGSIZE
    ensures Reaches(l, d, s, Turns(l.size)) && (forall t :: 0 <= t < 3 ==> Turns(l.size)[t] <= MAXOPBLOCKS)
    ensures WellFormed(l, s.disk) && Logged(l, s.disk) == [] && l.start + l.size < |d| == |s.disk|
    ensures Recovered(l, s.disk)[l.start + l.size] == CHANGED != d[l.start + l.size]
  {
    hide Reaches;
    var n := l.size;
    CopyingReached(l, n, n - 1);
    d := EmptyDisk(l);
    var m := GetsPair(l, n, n - 1, Turns(n));
    var m1, e := CopyStep(m, n, n - 1), d[l.Slot(n - 1) := CHANGED];
    Extend(l, d, Running(d, m), Turns(n), CopyBlockStep(n, n - 1), Running(e, m1));
    s := Running(e, m1);
    RecoveredIdle(l, e);
  }

  // ------------------------------------------------------------------
  // The size from which on every run is crash safe

  /** Recovering the disk of state n yields what was shown at the latest commit point. */
  ghost predicate SafeAt(l: Layout, ss: seq<State>, steps: seq<Step>, n: nat)
    requires |ss| == |steps| + 1 && n <= |steps|
  {
    WellFormed(l, ss[n].disk) && Home(l, Recovered(l, ss[n].disk)) == LastCommitted(l, ss, steps, n)
  }

  ghost predicate CrashSafe(l: Layout) {
    forall ss, steps, n: nat :: Run(l, ss, steps) && n <= |steps| ==> SafeAt(l, ss, steps, n)
  }

  lemma {:induction false} NothingCommitted(l: Layout, ss: seq<State>, steps: seq<Step>, n: nat)
    requires |ss| == |steps| + 1 && n <= |steps| && forall i :: 0 <= i < |steps| ==> !steps[i].CommitStep?
    ensures LastCommitted(l, ss, steps, n) == Home(l, ss[0].disk)
  {
    if n > 0 {
      NothingCommitted(l, ss, steps, n - 1);
    }
  }

  /** Every run is crash safe exactly when the log region has no slot, or a slot for all that can be logged. */
  lemma {:induction false} CrashSafeExactly(l: Layout)
    requires 0 < l.size
    ensures CrashSafe(l) <==> l.size == 1 || l.size >= LOGSIZE
  {
    hide Recovered, Next, Init, Spent;
    if LargeEnough(l) {
      forall ss, steps, n: nat | Run(l, ss, steps) && n <= |steps| ensures SafeAt(l, ss, steps, n) {
        CrashSafety(l, ss, steps, n);
      }
    } else {
      var d, s := TestRaced(l);
      var ss, steps :| Leads(l, d, ss, steps, s, Turns(l.size));
      NothingCommitted(l, ss, steps, |steps|);
      HomeDiffers(l, Recovered(l, s.disk), d, l.start + l.size);
      assert !SafeAt(l, ss, steps, |steps|);
    }
  }

  lemma {:induction false} HomeDiffers(l: Layout, d: Disk, e: Disk, b: int)
    requires 0 <= b < |d| == |e| && !l.InLog(b) && d[b] != e[b]
    ensures Home(l, d) != Home(l, e)
  {
    assert Home(l, d)[b] == d[b] && Home(l, e)[b] == e[b];
  }
}
