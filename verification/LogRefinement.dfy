/**
 The runs of the log and the buffer cache, with crashes at any point, refine an
 atomic store.
 */
module LogRefinement {
  import opened BufferCache
  import opened Lists
  import opened LogProtocol
  import opened RedoLog
  import opened Storage

  /**
   A running kernel; a boot that has made k block writes of recovery from a disk; or a boot
   that recovered a non-empty log, whose reference counts have wrapped (see Recovery), and
   from which only a crash is considered.
   */
  datatype State =
    | Running(disk: Disk, m: Mem)
    | Booting(disk: Disk, from: Disk, k: nat)
    | Degraded(disk: Disk)

  datatype Step =
    | GetStep(t: nat, b: nat, i: int)
    | AcquireStep(t: nat)
    | LoadStep(t: nat, i: int)
    | ModifyStep(t: nat, i: int, v: Block)
    | TestStep(t: nat, i: int)
    | AppendStep(t: nat)
    | ReleaseStep(t: nat, i: int)
    | DropStep(t: nat)
    | BeginStep(t: nat)
    | EndStep(t: nat)
    | CopyBlockStep(to: int, from: int)
    | CommitStep(h: int)
    | InstallBlockStep(lb: int, db: int)
    | UnpinBlockStep(db: int)
    | ClearHeadStep(h: int)
    | FinishStep
    | CrashStep
    | RecoverStep
    | BootStep

  /** The memory of a kernel that has just booted. */
  predicate Fresh(m: Mem) {
    && |m.bufs| == NBUF
    && (forall i :: 0 <= i < |m.bufs| ==>
        m.bufs[i].dev == 0 && m.bufs[i].refcnt == 0 && !m.bufs[i].locked && !m.bufs[i].valid)
    && m.owner == map[] && m.waiting == map[] && m.leaving == map[] && m.passed == map[] && m.dirty == {} && m.ops == {}
    && m.list == [] && m.pc == Idle
  }

  /** One atomic action of one thread on a running kernel. */
  ghost predicate RunNext(l: Layout, d: Disk, m: Mem, step: Step, d': Disk, m': Mem) {
    match step
    case GetStep(t, b, i) => CanGet(d, m, t, b, i) && d' == d && m' == Get(m, t, b, i)
    case AcquireStep(t) => CanAcquire(m, t) && d' == d && m' == Acquire(m, t)
    case LoadStep(t, i) => CanLoad(d, m, t, i) && d' == d && m' == Load(d, m, i)
    case ModifyStep(t, i, v) => CanModify(l, m, t, i) && d' == d && m' == Modify(m, i, v)
    case TestStep(t, i) => CanTest(l, m, t, i) && d' == d && m' == Test(m, t, i)
    case AppendStep(t) => CanAppend(m, t) && d' == d && m' == Append(m, t)
    case ReleaseStep(t, i) => CanRelease(m, t, i) && d' == d && m' == Release(m, t, i)
    case DropStep(t) => CanDrop(m, t) && d' == d && m' == Drop(m, t)
    case BeginStep(t) => CanBegin(m, t) && d' == d && m' == m.(ops := m.ops + {t})
    case EndStep(t) => CanEnd(m, t) && d' == d && m' == LogProtocol.End(m, t)
    case CopyBlockStep(to, from) =>
      CanCopy(l, d, m, to, from) && d' == d[l.Slot(m.pc.k) := m.bufs[from].data] && m' == CopyStep(m, to, from)
    case CommitStep(h) =>
      CanHead(l, d, m, h) && d' == d[l.start := WithHeader(m.bufs[h].data, m.list)] && m' == HeadStep(m, h)
    case InstallBlockStep(lb, db) =>
      CanInstall(l, d, m, lb, db) && d' == d[m.list[m.pc.k] := m.bufs[lb].data] && m' == InstallStep(m, lb, db)
    case UnpinBlockStep(db) => CanUnpin(m, db) && d' == d && m' == UnpinStep(m, db)
    case ClearHeadStep(h) =>
      CanClear(l, d, m, h) && d' == d[l.start := WithHeader(m.bufs[h].data, [])] && m' == ClearStep(m, h)
    case FinishStep => m.pc.Done? && d' == d && m' == m.(pc := Idle)
    case _ => false
  }

  ghost predicate Next(l: Layout, s: State, step: Step, s': State) {
    match step
    case CrashStep => s' == Booting(s.disk, s.disk, 0)
    case RecoverStep =>
      s.Booting? && WellFormed(l, s.from) && s.k <= |Logged(l, s.from)| &&
      s' == Booting(RecoveryState(l, s.from, s.k + 1), s.from, s.k + 1)
    case BootStep =>
      s.Booting? && WellFormed(l, s.from) && s.k == |Logged(l, s.from)| + 1 && s'.disk == s.disk &&
      if Logged(l, s.from) == [] then s'.Running? && Fresh(s'.m) else s'.Degraded?
    case _ => s.Running? && s'.Running? && RunNext(l, s.disk, s.m, step, s'.disk, s'.m)
  }

  ghost predicate Init(l: Layout, s: State) {
    s.Running? && Fresh(s.m) && 0 < l.size && WellFormed(l, s.disk) && Logged(l, s.disk) == []
  }

  /** The header lists distinct blocks, and leaves a buffer for a log block when all of them are in the cache. */
  predicate Recoverable(l: Layout, d: Disk) {
    WellFormed(l, d) && Distinct(Logged(l, d)) && |Logged(l, d)| < NBUF
  }

  ghost predicate StateInv(l: Layout, s: State) {
    && LargeEnough(l)
    && Recoverable(l, s.disk)
    && match s
       case Running(d, m) => Inv(l, d, m)
       case Booting(d, from, k) => Recoverable(l, from) && k <= |Logged(l, from)| + 1 && d == RecoveryState(l, from, k)
       case Degraded(d) => true
  }

  // ------------------------------------------------------------------
  // The atomic store

  /** Committed and current contents of the home blocks, and the operations in progress. */
  datatype Store = Store(committed: seq<Block>, current: seq<Block>, ops: set<nat>)

  datatype StoreStep = Stutter | Begin(t: nat) | End(t: nat) | Write(t: nat, b: nat, v: Block) | Commit | Crash

  /**
   An atomic store: a write belongs to an operation in progress, a commit takes everything at once
   between operations.
   */
  predicate StoreNext(a: Store, step: StoreStep, a': Store) {
    match step
    case Stutter => a' == a
    case Begin(t) => a' == a.(ops := a.ops + {t})
    case End(t) => a' == a.(ops := a.ops - {t})
    case Write(t, b, v) => t in a.ops && b < |a.current| && a' == a.(current := a.current[b := v])
    case Commit => a.ops == {} && a' == a.(committed := a.current)
    case Crash => a' == Store(a.committed, a.committed, {})
  }

  /** What a step of the kernel is to the store. */
  function AbsStep(s: State, step: Step): StoreStep {
    match step
    case BeginStep(t) => Begin(t)
    case EndStep(t) => End(t)
    case ModifyStep(t, i, v) => if s.Running? && 0 <= i < |s.m.bufs| then Write(t, s.m.bufs[i].blockno, v) else Stutter
    case CommitStep(h) => Commit
    case CrashStep => Crash
    case _ => Stutter
  }

  /** The home blocks of a disk; log blocks are masked. */
  function Home(l: Layout, d: Disk): (h: seq<Block>)
    ensures |h| == |d|
  {
    seq(|d|, b requires 0 <= b < |d| => if l.InLog(b) then Block([]) else d[b])
  }

  /** The home blocks the cache shows. */
  ghost function Shown(l: Layout, d: Disk, m: Mem): (h: seq<Block>)
    ensures |h| == |d|
  {
    seq(|d|, b requires 0 <= b < |d| => if l.InLog(b) then Block([]) else View(m.bufs, d, b))
  }

  ghost function Abs(l: Layout, s: State): Store
    requires StateInv(l, s)
  {
    var committed := Home(l, Recovered(l, s.disk));
    if s.Running? then Store(committed, Shown(l, s.disk, s.m), s.m.ops)
    else Store(committed, committed, {})
  }

  lemma {:induction false} HomeEqual(l: Layout, d: Disk, e: Disk)
    requires SameHome(l, d, e)
    ensures Home(l, d) == Home(l, e)
  {
  }

  lemma {:induction false} ShownEqual(l: Layout, d: Disk, m: Mem, d': Disk, m': Mem)
    requires SameShown(l, d, m, d', m')
    ensures Shown(l, d, m) == Shown(l, d', m')
  {
    hide View;
  }

  // ------------------------------------------------------------------
  // What is committed

  /** While the on-disk log is empty, the home blocks themselves are committed. */
  lemma {:induction false} CommittedIdle(l: Layout, d: Disk)
    requires WellFormed(l, d) && Logged(l, d) == []
    ensures Home(l, Recovered(l, d)) == Home(l, d)
  {
    RecoveredIdle(l, d);
    HomeEqual(l, Recovered(l, d), d);
  }

  predicate Installing(m: Mem) {
    m.pc.Install? || m.pc.Unpin? || m.pc.Clear?
  }

  lemma {:induction false} OverlayShown(l: Layout, d: Disk, m: Mem, k: nat, b: int)
    requires SlotsShow(l, d, m, |m.list|) && k <= |m.list| && 0 <= b < |d|
    ensures Overlay(m.list, Slots(l, d, |m.list|), k, b, View(m.bufs, d, b)) == View(m.bufs, d, b)
  {
    hide View;
    if k > 0 {
      OverlayShown(l, d, m, k - 1, b);
      assert Slots(l, d, |m.list|)[k - 1] == d[l.Slot(k - 1)];
    }
  }

  lemma {:induction false} OverlayListed(list: seq<nat>, contents: seq<Block>, k: nat, b: int, x: Block, y: Block)
    requires k <= |list| && k <= |contents|
    requires b in list[..k] || x == y
    ensures Overlay(list, contents, k, b, x) == Overlay(list, contents, k, b, y)
  {
    if k > 0 && list[k - 1] != b {
      assert list[..k] == list[..k - 1] + [list[k - 1]];
      OverlayListed(list, contents, k - 1, b, x, y);
    }
  }

  /** An unlisted block agrees with the disk while nothing is dirty. */
  lemma {:induction false} UnlistedShown(l: Layout, d: Disk, m: Mem, b: int)
    requires Inv(l, d, m) && Installing(m) && 0 <= b < |d| && b !in m.list
    ensures View(m.bufs, d, b) == d[b]
  {
    CommitClean(l, d, m);
    if i :| 0 <= i < |m.bufs| && For(m.bufs[i], b) && m.bufs[i].valid {
      assert BufInv(l, d, m, i);
      ViewOf(m.bufs, d, i);
    }
  }

  /** Between the two header writes, what the cache shows is what is committed. */
  lemma {:induction false} CommittedInstalling(l: Layout, d: Disk, m: Mem)
    requires Inv(l, d, m) && Installing(m)
    ensures Home(l, Recovered(l, d)) == Shown(l, d, m)
  {
    forall b | 0 <= b < |d| && !l.InLog(b) ensures Recovered(l, d)[b] == View(m.bufs, d, b) {
      CommittedBlock(l, d, m, b);
    }
  }

  lemma {:induction false} CommittedBlock(l: Layout, d: Disk, m: Mem, b: int)
    requires Inv(l, d, m) && Installing(m) && 0 <= b < |d| && !l.InLog(b)
    ensures Recovered(l, d)[b] == View(m.bufs, d, b)
  {
    hide View, CacheInv, Pins, Distinct;
    var n, slots := |m.list|, Slots(l, d, |m.list|);
    RecoveredBlock(l, d, b);
    OverlayShown(l, d, m, n, b);
    if b !in m.list {
      UnlistedShown(l, d, m, b);
    }
    assert m.list[..n] == m.list;
    OverlayListed(m.list, slots, n, b, d[b], View(m.bufs, d, b));
  }

  // ------------------------------------------------------------------
  // Every step keeps the invariant and is a step of the store

  /** The abstraction of a running kernel. */
  ghost function RunAbs(l: Layout, d: Disk, m: Mem): Store
    requires WellFormed(l, d)
  {
    Store(Home(l, Recovered(l, d)), Shown(l, d, m), m.ops)
  }

  /** Cache actions: the disk, the list and the committing position stand still. */
  lemma {:induction false} CacheAction(l: Layout, d: Disk, m: Mem, step: Step, d': Disk, m': Mem)
    requires Inv(l, d, m) && RunNext(l, d, m, step, d', m')
    requires step.GetStep? || step.AcquireStep? || step.LoadStep? || step.ReleaseStep? || step.DropStep?
    ensures d' == d && Inv(l, d, m') && RunAbs(l, d, m') == RunAbs(l, d, m)
  {
    hide CacheInv, View, Pins, Distinct, PhaseInv, Fits;
    CacheUnique(l, d, m);
    match step {
      case GetStep(t, b, i) =>
        GetKeeps(l, d, m, t, b, i);
        GetShows(l, d, m, t, b, i);
      case AcquireStep(t) =>
        AcquireKeeps(l, d, m, t);
        SameDataShows(l, d, m, m');
      case LoadStep(t, i) =>
        LoadKeeps(l, d, m, t, i);
        LoadShows(l, d, m, t, i);
      case ReleaseStep(t, i) =>
        ReleaseKeepsCache(l, d, m, t, i);
        SameDataShows(l, d, m, m');
      case DropStep(t) =>
        DropKeepsCache(l, d, m, t);
        SameDataShows(l, d, m, m');
    }
    LogFrame(l, d, m, m');
    PassedFrame(l, d, m, step, d', m');
    ShownEqual(l, d, m, d, m');
  }

  /** A thread inside log_write keeps its buffer: it has it locked, and does nothing else meanwhile. */
  lemma {:induction false} PassedFrame(l: Layout, d: Disk, m: Mem, step: Step, d': Disk, m': Mem)
    requires CacheInv(l, d, m) && PassedInv(l, m) && RunNext(l, d, m, step, d', m')
    requires step.GetStep? || step.AcquireStep? || step.LoadStep? || step.ReleaseStep? || step.DropStep?
    ensures m'.passed == m.passed && PassedInv(l, m')
  {
    hide Pins;
    forall t | t in m.passed ensures Writable(l, m', t, m.passed[t]) {
      assert Writable(l, m, t, m.passed[t]);
      OwnedUsed(l, d, m, t, m.passed[t]);
    }
  }

  lemma {:induction false} ModifyAction(l: Layout, d: Disk, m: Mem, t: nat, i: int, v: Block)
    requires Inv(l, d, m) && CanModify(l, m, t, i)
    ensures Inv(l, d, Modify(m, i, v))
    ensures StoreNext(RunAbs(l, d, m), Write(t, m.bufs[i].blockno, v), RunAbs(l, d, Modify(m, i, v)))
  {
    hide CacheInv, View, Pins, Distinct, Recovered;
    ModifyKeepsCache(l, d, m, t, i, v);
    ModifyShows(l, d, m, t, i, v);
    var m', b := Modify(m, i, v), m.bufs[i].blockno;
    assert Shown(l, d, m') == Shown(l, d, m)[b := v];
  }

  /** log_write: the test, made without the lock, and the append. */
  lemma {:induction false} TestAction(l: Layout, d: Disk, m: Mem, t: nat, i: int)
    requires Inv(l, d, m) && CanTest(l, m, t, i)
    ensures Inv(l, d, Test(m, t, i)) && RunAbs(l, d, Test(m, t, i)) == RunAbs(l, d, m)
  {
    hide View, Recovered, BufInv;
    var m' := Test(m, t, i);
    SamePins(m, m');
    forall j | 0 <= j < NBUF ensures BufInv(l, d, m', j) {
      TestBuf(l, d, m, m', j);
    }
  }

  lemma {:induction false} TestBuf(l: Layout, d: Disk, m: Mem, m': Mem, j: int)
    requires 0 <= j < |m.bufs| && BufInv(l, d, m, j) && m' == m.(passed := m'.passed)
    ensures BufInv(l, d, m', j)
  {
    SamePins(m, m');
  }

  lemma {:induction false} AppendAction(l: Layout, d: Disk, m: Mem, t: nat)
    requires Inv(l, d, m) && CanAppend(m, t)
    ensures Inv(l, d, Append(m, t)) && RunAbs(l, d, Append(m, t)) == RunAbs(l, d, m)
  {
    hide CacheInv, View, Pins, Recovered;
    var i, m' := m.passed[t], Append(m, t);
    assert Writable(l, m, t, i);
    CacheUnique(l, d, m);
    OwnedUsed(l, d, m, t, i);
    AppendKeeps(l, d, m, t);
    SameDataShows(l, d, m, m');
    ShownEqual(l, d, m, d, m');
  }

  /** begin_op and end_op; the last end_op of a group hands over to the commit. */
  lemma {:induction false} OpAction(l: Layout, d: Disk, m: Mem, step: Step, d': Disk, m': Mem)
    requires Inv(l, d, m) && RunNext(l, d, m, step, d', m')
    requires step.BeginStep? || step.EndStep? || step.FinishStep?
    ensures d' == d && Inv(l, d, m')
    ensures RunAbs(l, d, m') == RunAbs(l, d, m).(ops := m'.ops)
  {
    hide CacheInv, LogInv, PassedInv, View, Recovered, Pins, RunNext;
    CacheUnique(l, d, m);
    OpFrame(l, d, m, step, d', m');
    OpLog(l, d, m, step, d', m');
    OpPassed(l, d, m, step, d', m');
    OpsKeep(l, d, m, m');
    SameDataShows(l, d, m, m');
    ShownEqual(l, d, m, d, m');
    OpWellFormed(l, d, m, m');
  }

  lemma {:induction false} OpFrame(l: Layout, d: Disk, m: Mem, step: Step, d': Disk, m': Mem)
    requires RunNext(l, d, m, step, d', m') && (step.BeginStep? || step.EndStep? || step.FinishStep?)
    ensures d' == d && m' == m.(ops := m'.ops, pc := m'.pc, ct := m'.ct)
    ensures forall i :: i in m.dirty && i in m.owner && m.owner[i] in m.ops ==> m.owner[i] in m'.ops
  {
  }

  lemma {:induction false} OpPassed(l: Layout, d: Disk, m: Mem, step: Step, d': Disk, m': Mem)
    requires PassedInv(l, m) && RunNext(l, d, m, step, d', m')
    requires step.BeginStep? || step.EndStep? || step.FinishStep?
    ensures PassedInv(l, m')
  {
    forall t | t in m'.passed ensures Writable(l, m', t, m'.passed[t]) {
      assert Writable(l, m, t, m.passed[t]);
    }
  }

  lemma {:induction false} OpLog(l: Layout, d: Disk, m: Mem, step: Step, d': Disk, m': Mem)
    requires LogInv(l, d, m) && RunNext(l, d, m, step, d', m')
    requires step.BeginStep? || step.EndStep? || step.FinishStep?
    ensures LogInv(l, d, m') && Pins(m') == Pins(m)
  {
    hide LogInv, Pins;
    match step {
      case BeginStep(t) => OpsOnly(l, d, m, m');
      case EndStep(t) => EndLog(l, d, m, t);
      case FinishStep => FinishLog(l, d, m);
    }
  }

  lemma {:induction false} OpsOnly(l: Layout, d: Disk, m: Mem, m': Mem)
    requires LogInv(l, d, m) && m' == m.(ops := m'.ops) && (m.pc.Idle? || m'.ops == m.ops)
    ensures LogInv(l, d, m') && Pins(m') == Pins(m)
  {
    hide View, Distinct, Fits, WellFormed, Logged;
  }

  lemma {:induction false} EndLog(l: Layout, d: Disk, m: Mem, t: nat)
    requires LogInv(l, d, m) && t in m.ops
    ensures LogInv(l, d, LogProtocol.End(m, t)) && Pins(LogProtocol.End(m, t)) == Pins(m)
  {
    hide View, Distinct, Fits, WellFormed, Logged, HomesInstalled;
    var m' := LogProtocol.End(m, t);
    assert m.pc.Idle?;
    if m'.ops != {} {
      OpsOnly(l, d, m, m');
    }
  }

  lemma {:induction false} FinishLog(l: Layout, d: Disk, m: Mem)
    requires LogInv(l, d, m) && m.pc.Done?
    ensures LogInv(l, d, m.(pc := Idle)) && Pins(m.(pc := Idle)) == Pins(m)
  {
    hide View, Distinct, Fits, WellFormed, Logged, HomesInstalled, SlotsShow;
  }

  lemma {:induction false} OpWellFormed(l: Layout, d: Disk, m: Mem, m': Mem)
    requires LogInv(l, d, m) && Shown(l, d, m') == Shown(l, d, m)
    ensures WellFormed(l, d) && RunAbs(l, d, m') == RunAbs(l, d, m).(ops := m'.ops)
  {
    hide View, Recovered, Shown, Home;
  }

  /** Block writes of a commit other than the commit point, and unpinning. */
  lemma {:induction false} CommitAction(l: Layout, d: Disk, m: Mem, step: Step, d': Disk, m': Mem)
    requires Inv(l, d, m) && RunNext(l, d, m, step, d', m')
    requires step.CopyBlockStep? || step.InstallBlockStep? || step.UnpinBlockStep? || step.ClearHeadStep?
    ensures Inv(l, d', m') && RunAbs(l, d', m') == RunAbs(l, d, m)
  {
    hide CacheInv, View, Pins, Distinct, Recovered, SlotsShow, HomesInstalled, Fits;
    match step {
      case CopyBlockStep(to, from) =>
        CopyKeeps(l, d, m, to, from);
        CommittedIdle(l, d);
        CommittedIdle(l, d');
        HomeEqual(l, d, d');
      case InstallBlockStep(lb, db) =>
        InstallKeeps(l, d, m, lb, db);
        CommittedInstalling(l, d, m);
        CommittedInstalling(l, d', m');
      case UnpinBlockStep(db) =>
        UnpinKeepsInv(l, d, m, db);
      case ClearHeadStep(h) =>
        ClearKeeps(l, d, m, h);
        CommittedInstalling(l, d, m);
        ClearCommitted(l, d, m, d');
    }
    ShownEqual(l, d, m, d', m');
  }

  /** Once every block is installed, the home blocks are what the cache shows. */
  lemma {:induction false} ClearCommitted(l: Layout, d: Disk, m: Mem, d': Disk)
    requires Inv(l, d, m) && m.pc.Clear? && d' == HeadWritten(l, d, []) && WellFormed(l, d') && Logged(l, d') == []
    ensures Home(l, Recovered(l, d')) == Shown(l, d, m)
  {
    hide CacheInv, View, Pins, Distinct, Recovered;
    CommittedIdle(l, d');
    forall b | 0 <= b < |d| && !l.InLog(b) ensures d'[b] == View(m.bufs, d, b) {
      if b in m.list {
        var j :| 0 <= j < |m.list| && m.list[j] == b;
        assert d[m.list[j]] == d[l.Slot(j)];
      } else {
        UnlistedShown(l, d, m, b);
      }
    }
  }

  /** The commit point makes everything shown committed, with no operation in progress. */
  lemma {:induction false} CommitPoint(l: Layout, d: Disk, m: Mem, h: int, d': Disk)
    requires Inv(l, d, m) && CanHead(l, d, m, h) && d' == d[l.start := WithHeader(m.bufs[h].data, m.list)]
    ensures Inv(l, d', HeadStep(m, h))
    ensures StoreNext(RunAbs(l, d, m), Commit, RunAbs(l, d', HeadStep(m, h)))
  {
    hide CacheInv, View, Pins, Distinct, Recovered, SlotsShow, HomesInstalled, Fits;
    HeadKeeps(l, d, m, h);
    CommittedInstalling(l, d', HeadStep(m, h));
    ShownEqual(l, d, m, d', HeadStep(m, h));
  }

  lemma {:induction false} FreshInv(l: Layout, d: Disk, m: Mem)
    requires Fresh(m) && LargeEnough(l) && WellFormed(l, d) && Logged(l, d) == []
    ensures Inv(l, d, m) && Shown(l, d, m) == Home(l, d)
  {
    forall i | 0 <= i < NBUF ensures BufInv(l, d, m, i) {
      assert Waiters(m.waiting, i) == {};
    }
    assert Pins(m) == {};
  }

  /** A crash or a step of recovery. */
  lemma {:induction false} BootAction(l: Layout, s: State, step: Step, s': State)
    requires StateInv(l, s) && Next(l, s, step, s')
    requires step.CrashStep? || step.RecoverStep? || step.BootStep?
    ensures StateInv(l, s') && StoreNext(Abs(l, s), AbsStep(s, step), Abs(l, s'))
  {
    hide Inv, View, Recovered, Installed;
    match step {
      case CrashStep =>
        BootPrefix(l, s.disk, 0);
        assert RecoveryState(l, s.disk, 0) == s.disk by {
          BootStart(l, s.disk);
        }
      case RecoverStep =>
        BootPrefix(l, s.from, s.k);
        BootPrefix(l, s.from, s.k + 1);
      case BootStep =>
        BootPrefix(l, s.from, s.k);
        RecoveredEmpty(l, s.from);
        CommittedIdle(l, s.disk);
        if s'.Running? {
          FreshInv(l, s'.disk, s'.m);
        }
    }
  }

  lemma {:induction false} BootStart(l: Layout, d: Disk)
    requires WellFormed(l, d)
    ensures RecoveryState(l, d, 0) == d
  {
  }

  lemma {:induction false} BootPrefix(l: Layout, from: Disk, k: nat)
    requires Recoverable(l, from) && k <= |Logged(l, from)| + 1
    ensures var d := RecoveryState(l, from, k);
            Recoverable(l, d) && Home(l, Recovered(l, d)) == Home(l, Recovered(l, from))
  {
    BootLogged(l, from, k);
    RecoveryCrash(l, from, k);
    if k > 0 {
      RecoveryPrefixAt(l, from, |RecoveryTrace(l, from)|, k);
    }
    HomeEqual(l, Recovered(l, RecoveryState(l, from, k)), Recovered(l, from));
  }

  lemma {:induction false} BootLogged(l: Layout, from: Disk, k: nat)
    requires Recoverable(l, from) && k <= |Logged(l, from)| + 1
    ensures Recoverable(l, RecoveryState(l, from, k))
  {
    if k <= |Logged(l, from)| {
      InstalledHeader(l, from, Logged(l, from), k);
    } else {
      RecoveredEmpty(l, from);
      EmptyDistinct();
    }
  }

  lemma {:induction false} InstalledHeader(l: Layout, d: Disk, list: seq<nat>, k: nat)
    requires Fits(l, |d|, list) && k <= |list| && l.start < |d|
    ensures Installed(l, d, list, k)[l.start] == d[l.start]
  {
    if k > 0 {
      InstalledHeader(l, d, list, k - 1);
    }
  }

  /** Every step, from every state that satisfies the invariant, is a step of the atomic store. */
  lemma {:induction false} StepRefines(l: Layout, s: State, step: Step, s': State)
    requires StateInv(l, s) && Next(l, s, step, s')
    ensures StateInv(l, s') && StoreNext(Abs(l, s), AbsStep(s, step), Abs(l, s'))
  {
    hide Inv, Recovered, View, WellFormed, Shown, Home, CanModify, CanHead;
    match step {
      case CrashStep => BootAction(l, s, step, s');
      case RecoverStep => BootAction(l, s, step, s');
      case BootStep => BootAction(l, s, step, s');
      case _ => RunRefines(l, s, step, s');
    }
  }

  lemma {:induction false} RunRefines(l: Layout, s: State, step: Step, s': State)
    requires StateInv(l, s) && s.Running? && s'.Running? && RunNext(l, s.disk, s.m, step, s'.disk, s'.m)
    requires !step.CrashStep?
    ensures StateInv(l, s') && StoreNext(Abs(l, s), AbsStep(s, step), Abs(l, s'))
  {
    hide CacheInv, PhaseInv, Fits, Distinct, Recovered, View;
    var d, m, d', m' := s.disk, s.m, s'.disk, s'.m;
    match step {
      case GetStep(t, b, i) => CacheAction(l, d, m, step, d', m');
      case AcquireStep(t) => CacheAction(l, d, m, step, d', m');
      case LoadStep(t, i) => CacheAction(l, d, m, step, d', m');
      case ReleaseStep(t, i) => CacheAction(l, d, m, step, d', m');
      case DropStep(t) => CacheAction(l, d, m, step, d', m');
      case ModifyStep(t, i, v) => ModifyAction(l, d, m, t, i, v);
      case TestStep(t, i) => TestAction(l, d, m, t, i);
      case AppendStep(t) => AppendAction(l, d, m, t);
      case BeginStep(t) => OpAction(l, d, m, step, d', m');
      case EndStep(t) => OpAction(l, d, m, step, d', m');
      case FinishStep => OpAction(l, d, m, step, d', m');
      case CommitStep(h) => CommitPoint(l, d, m, h, d');
      case CopyBlockStep(to, from) => CommitAction(l, d, m, step, d', m');
      case InstallBlockStep(lb, db) => CommitAction(l, d, m, step, d', m');
      case UnpinBlockStep(db) => CommitAction(l, d, m, step, d', m');
      case ClearHeadStep(h) => CommitAction(l, d, m, step, d', m');
    }
    RunRecoverable(l, d', m');
  }

  /** A running kernel's disk lists nothing, or blocks that left a buffer for a log block. */
  lemma {:induction false} RunRecoverable(l: Layout, d: Disk, m: Mem)
    requires Inv(l, d, m)
    ensures Recoverable(l, d)
  {
    hide CacheInv;
    EmptyDistinct();
  }

  // ------------------------------------------------------------------
  // Whole runs

  ghost predicate Run(l: Layout, ss: seq<State>, steps: seq<Step>) {
    && |ss| == |steps| + 1
    && Init(l, ss[0])
    && forall i :: 0 <= i < |steps| ==> Next(l, ss[i], steps[i], ss[i + 1])
  }

  lemma {:induction false} RunInv(l: Layout, ss: seq<State>, steps: seq<Step>, n: nat)
    requires LargeEnough(l) && Run(l, ss, steps) && n <= |steps|
    ensures StateInv(l, ss[n])
  {
    hide Next, StateInv, Inv;
    if n == 0 {
      InitInv(l, ss[0]);
    } else {
      RunInv(l, ss, steps, n - 1);
      StepRefines(l, ss[n - 1], steps[n - 1], ss[n]);
    }
  }

  lemma {:induction false} InitInv(l: Layout, s: State)
    requires LargeEnough(l) && Init(l, s)
    ensures StateInv(l, s) && Abs(l, s) == Store(Home(l, s.disk), Home(l, s.disk), {})
  {
    FreshInv(l, s.disk, s.m);
    CommittedIdle(l, s.disk);
  }

  /** What the cache showed at the latest commit point before state n, or the initial contents. */
  ghost function LastCommitted(l: Layout, ss: seq<State>, steps: seq<Step>, n: nat): seq<Block>
    requires |ss| == |steps| + 1 && n <= |steps|
  {
    if n == 0 then Home(l, ss[0].disk)
    else if steps[n - 1].CommitStep? && ss[n - 1].Running? then Shown(l, ss[n - 1].disk, ss[n - 1].m)
    else LastCommitted(l, ss, steps, n - 1)
  }

  /**
   Crash safety of every run.  Whatever the interleaving and however many crashes, recovering
   the disk of any state yields exactly what was shown at the latest commit point.
   */
  lemma {:induction false} CrashSafety(l: Layout, ss: seq<State>, steps: seq<Step>, n: nat)
    requires LargeEnough(l) && Run(l, ss, steps) && n <= |steps|
    ensures WellFormed(l, ss[n].disk)
    ensures Home(l, Recovered(l, ss[n].disk)) == LastCommitted(l, ss, steps, n)
  {
    hide Next, Inv, WellFormed, Recovered, Home, Shown;
    RunInv(l, ss, steps, n);
    if n == 0 {
      InitInv(l, ss[0]);
    } else {
      CrashSafety(l, ss, steps, n - 1);
      RunInv(l, ss, steps, n - 1);
      StepRefines(l, ss[n - 1], steps[n - 1], ss[n]);
      if steps[n - 1].CommitStep? {
        CommitRuns(l, ss[n - 1], steps[n - 1], ss[n]);
      }
    }
  }

  lemma {:induction false} CommitRuns(l: Layout, s: State, step: Step, s': State)
    requires StateInv(l, s) && Next(l, s, step, s') && step.CommitStep?
    ensures s.Running? && s.m.ops == {} && s.m.dirty == {}
  {
    CommitClean(l, s.disk, s.m);
  }

  /** Whatever the size of the log: a commit runs between operations, and an unlogged change is in one. */
  predicate OpsInv(m: Mem) {
    && (!m.pc.Idle? ==> m.ops == {})
    && forall i :: i in m.dirty ==> i in m.owner && m.owner[i] in m.ops
  }

  lemma {:induction false} OpsStep(l: Layout, s: State, step: Step, s': State)
    requires Next(l, s, step, s') && (s.Running? ==> OpsInv(s.m))
    ensures s'.Running? ==> OpsInv(s'.m)
  {
  }

  lemma {:induction false} OpsRun(l: Layout, ss: seq<State>, steps: seq<Step>, n: nat)
    requires Run(l, ss, steps) && n <= |steps| && ss[n].Running?
    ensures OpsInv(ss[n].m)
  {
    hide Next, OpsInv;
    if n == 0 {
      FreshOps(ss[0].m);
    } else {
      if ss[n - 1].Running? {
        OpsRun(l, ss, steps, n - 1);
      }
      OpsStep(l, ss[n - 1], steps[n - 1], ss[n]);
    }
  }

  lemma {:induction false} FreshOps(m: Mem)
    requires Fresh(m)
    ensures OpsInv(m)
  {
  }

  lemma {:induction false} CommitsRunning(l: Layout, s: State, step: Step, s': State)
    requires Next(l, s, step, s') && step.CommitStep?
    ensures s.Running? && s.m.pc.Head?
  {
  }

  /** Every commit point of every run falls between operations, with no unlogged change in the cache. */
  lemma {:induction false} CommitBetweenOps(l: Layout, ss: seq<State>, steps: seq<Step>, n: nat)
    requires Run(l, ss, steps) && n < |steps| && steps[n].CommitStep?
    ensures ss[n].Running? && ss[n].m.ops == {} && ss[n].m.dirty == {}
  {
    hide Next;
    CommitsRunning(l, ss[n], steps[n], ss[n + 1]);
    OpsRun(l, ss, steps, n);
    assert forall i :: i !in ss[n].m.dirty;
  }

  /**
   On every disk of every run, crashes included, recovery finds a buffer for each log block:
   a transaction that would leave none panics before its header is written.
   */
  lemma {:induction false} RecoveryHasBuffers(l: Layout, ss: seq<State>, steps: seq<Step>, n: nat)
    requires LargeEnough(l) && Run(l, ss, steps) && n <= |steps|
    ensures WellFormed(l, ss[n].disk) && Distinct(Logged(l, ss[n].disk)) && |Logged(l, ss[n].disk)| < NBUF
  {
    hide Next, Inv;
    RunInv(l, ss, steps, n);
  }

  /** In every run, end_op never finds a commit under way. */
  lemma {:induction false} EndNeverCommits(l: Layout, ss: seq<State>, steps: seq<Step>, n: nat, t: nat)
    requires Run(l, ss, steps) && n <= |steps| && ss[n].Running? && t in ss[n].m.ops
    ensures ss[n].m.pc.Idle?
  {
    OpsRun(l, ss, steps, n);
  }

  /**
   In every run, a logged block that is not installed has one buffer, which holds its contents and
   cannot be recycled.
   */
  lemma {:induction false} LoggedStaysCached(l: Layout, ss: seq<State>, steps: seq<Step>, n: nat, b: nat)
    requires LargeEnough(l) && Run(l, ss, steps) && n <= |steps| && ss[n].Running? && b in Pins(ss[n].m)
    ensures var bs := ss[n].m.bufs;
            && (exists i :: 0 <= i < |bs| && For(bs[i], b) && bs[i].valid && bs[i].refcnt > 0)
            && (forall i, j :: 0 <= i < |bs| && 0 <= j < |bs| && For(bs[i], b) && For(bs[j], b) ==> i == j)
  {
    RunInv(l, ss, steps, n);
    var m := ss[n].m;
    assert IsCached(m.bufs, b);
    var i :| 0 <= i < NBUF && For(m.bufs[i], b);
    assert BufInv(l, ss[n].disk, m, i);
  }
}
