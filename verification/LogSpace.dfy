/**
 Space reservation in kernel/log.c: begin_op admits an operation only if the
 log has room for every block all admitted operations may still append.

 Over every interleaving the blocks logged and the unused reservations together
 fit LOGSIZE.  log_write tests a tighter bound than begin_op reserves for, so
 whether an admitted operation can panic depends on the size of the log region,
 and the exact size is given.
 */
module LogSpace {
  import LogProtocol
  import LogRefinement
  import RedoLog
  import opened Storage

  /** lh.n, the blocks each operation in progress has appended, those past the test of log_write, and log.committing. */
  datatype Space = Space(n: nat, used: map<nat, nat>, passed: set<nat>, committing: bool)

  datatype Step = Begin(t: nat) | Test(t: nat) | Append(t: nat) | Absorb(t: nat) | End(t: nat) | Commit

  /** The test begin_op makes before it admits one more operation. */
  predicate Admits(n: nat, outstanding: nat) {
    n + (outstanding + 1) * MAXOPBLOCKS <= LOGSIZE
  }

  /** The test log_write makes first, without the lock, for an appended block and an absorbed one alike. */
  predicate Panics(size: int, n: nat) {
    n >= LOGSIZE || n >= size - 1
  }

  /** Operations append at most MAXOPBLOCKS blocks each. */
  predicate WithinBudget(s: Space, t: nat) {
    t in s.used && s.used[t] < MAXOPBLOCKS
  }

  predicate Next(size: int, s: Space, step: Step, s': Space) {
    match step
    case Begin(t) =>
      t !in s.used && !s.committing && Admits(s.n, |s.used|) && s' == s.(used := s.used[t := 0])
    case Test(t) =>
      t in s.used && t !in s.passed && !Panics(size, s.n) && s' == s.(passed := s.passed + {t})
    case Append(t) =>
      WithinBudget(s, t) && t in s.passed &&
      s' == s.(n := s.n + 1, used := s.used[t := s.used[t] + 1], passed := s.passed - {t})
    case Absorb(t) =>
      t in s.used && t in s.passed && s' == s.(passed := s.passed - {t})
    case End(t) =>
      t in s.used && t !in s.passed && s' == s.(used := s.used - {t}, committing := s.used.Keys == {t})
    case Commit =>
      s.committing && s' == s.(n := 0, committing := false)
  }

  const START: Space := Space(0, map[], {}, false)

  ghost predicate Run(size: int, ss: seq<Space>, steps: seq<Step>) {
    && |ss| == |steps| + 1
    && ss[0] == START
    && forall i :: 0 <= i < |steps| ==> Next(size, ss[i], steps[i], ss[i + 1])
  }

  ghost predicate Reachable(size: int, s: Space) {
    exists ss, steps :: Run(size, ss, steps) && s == ss[|steps|]
  }

  // ------------------------------------------------------------------
  // Unused reservations

  ghost function Reserved(used: map<nat, nat>): int {
    if used == map[] then 0
    else
      var t :| t in used;
      MAXOPBLOCKS - used[t] + Reserved(used - {t})
  }

  lemma {:induction false} ReservedRemove(used: map<nat, nat>, t: nat)
    requires t in used
    ensures Reserved(used) == MAXOPBLOCKS - used[t] + Reserved(used - {t})
    decreases |used|
  {
    var u :| u in used && Reserved(used) == MAXOPBLOCKS - used[u] + Reserved(used - {u});
    if u != t {
      ReservedRemove(used - {u}, t);
      ReservedRemove(used - {t}, u);
      assert used - {u} - {t} == used - {t} - {u};
    }
  }

  lemma {:induction false} ReservedUpdate(used: map<nat, nat>, t: nat, k: nat)
    ensures Reserved(used[t := k]) == Reserved(used - {t}) + MAXOPBLOCKS - k
  {
    ReservedRemove(used[t := k], t);
    assert used[t := k] - {t} == used - {t};
  }

  lemma {:induction false} ReservedBounds(used: map<nat, nat>)
    requires forall t :: t in used ==> used[t] <= MAXOPBLOCKS
    ensures 0 <= Reserved(used) <= |used| * MAXOPBLOCKS
    decreases |used|
  {
    if used != map[] {
      var t :| t in used && Reserved(used) == MAXOPBLOCKS - used[t] + Reserved(used - {t});
      ReservedBounds(used - {t});
      assert |used - {t}| == |used| - 1 by {
        assert used.Keys == (used - {t}).Keys + {t};
      }
    }
  }

  ghost predicate SpaceInv(s: Space) {
    && (forall t :: t in s.used ==> s.used[t] <= MAXOPBLOCKS)
    && s.n + Reserved(s.used) <= LOGSIZE
    && (s.committing ==> s.used == map[])
  }

  lemma {:induction false} BeginKeeps(s: Space, t: nat)
    requires SpaceInv(s) && t !in s.used && !s.committing && Admits(s.n, |s.used|)
    ensures SpaceInv(s.(used := s.used[t := 0]))
  {
    hide Reserved;
    ReservedBounds(s.used);
    ReservedUpdate(s.used, t, 0);
    assert s.used - {t} == s.used;
  }

  lemma {:induction false} AppendKeeps(s: Space, t: nat)
    requires SpaceInv(s) && WithinBudget(s, t)
    ensures SpaceInv(s.(n := s.n + 1, used := s.used[t := s.used[t] + 1], passed := s.passed - {t}))
  {
    hide Reserved;
    ReservedUpdate(s.used, t, s.used[t] + 1);
    ReservedRemove(s.used, t);
  }

  lemma {:induction false} EndKeeps(s: Space, t: nat)
    requires SpaceInv(s) && t in s.used
    ensures SpaceInv(s.(used := s.used - {t}, committing := s.used.Keys == {t}))
  {
    hide Reserved;
    ReservedRemove(s.used, t);
  }

  lemma {:induction false} StepKeeps(size: int, s: Space, step: Step, s': Space)
    requires SpaceInv(s) && Next(size, s, step, s')
    ensures SpaceInv(s')
  {
    hide Reserved, Admits, WithinBudget, Panics;
    ReservedBounds(s.used);
    match step {
      case Begin(t) => BeginKeeps(s, t);
      case Test(t) =>
      case Append(t) => AppendKeeps(s, t);
      case Absorb(t) =>
      case End(t) => EndKeeps(s, t);
      case Commit =>
    }
  }

  /** In every run, the blocks logged and the unused reservations fit the log. */
  lemma {:induction false} SpaceFits(size: int, ss: seq<Space>, steps: seq<Step>, n: nat)
    requires Run(size, ss, steps) && n <= |steps|
    ensures SpaceInv(ss[n])
  {
    if n > 0 {
      SpaceFits(size, ss, steps, n - 1);
      StepKeeps(size, ss[n - 1], steps[n - 1], ss[n]);
    }
  }

  /** An operation within its budget finds fewer than LOGSIZE blocks logged. */
  lemma {:induction false} AppendHasRoom(size: int, s: Space, t: nat)
    requires Reachable(size, s) && WithinBudget(s, t)
    ensures s.n < LOGSIZE
  {
    var ss, steps :| Run(size, ss, steps) && s == ss[|steps|];
    SpaceFits(size, ss, steps, |steps|);
    ReservedRemove(s.used, t);
    ReservedBounds(s.used - {t});
  }

  // ------------------------------------------------------------------
  // When an admitted operation can panic

  /** Three operations have appended k blocks, the first two up to their budget. */
  function Filled(k: nat): Space {
    var a := if k <= 10 then k else 10;
    var b := if k <= 10 then 0 else if k <= 20 then k - 10 else 10;
    var c := if k <= 20 then 0 else k - 20;
    Space(k, map[0 := a, 1 := b, 2 := c], {}, false)
  }

  lemma {:induction false} Extend(size: int, s: Space, step: Step, s': Space)
    requires Reachable(size, s) && Next(size, s, step, s')
    ensures Reachable(size, s')
  {
    var ss, steps :| Run(size, ss, steps) && s == ss[|steps|];
    var ss', steps' := ss + [s'], steps + [step];
    forall i | 0 <= i < |steps'| ensures Next(size, ss'[i], steps'[i], ss'[i + 1]) {
      if i < |steps| {
        assert ss'[i] == ss[i] && ss'[i + 1] == ss[i + 1] && steps'[i] == steps[i];
      }
    }
    assert Run(size, ss', steps') && s' == ss'[|steps'|];
  }

  lemma {:induction false} StartReachable(size: int)
    ensures Reachable(size, START)
  {
    var none: seq<Step> := [];
    assert Run(size, [START], none) && START == [START][|none|];
  }

  lemma {:induction false} ThreeBegin(size: int)
    ensures Reachable(size, Filled(0))
  {
    hide Reachable;
    StartReachable(size);
    var s1, s2 := Space(0, map[0 := 0], {}, false), Space(0, map[0 := 0, 1 := 0], {}, false);
    Extend(size, START, Begin(0), s1);
    assert |s1.used| == 1;
    Extend(size, s1, Begin(1), s2);
    assert |s2.used| == 2 by {
      assert s2.used.Keys == {0, 1};
    }
    Extend(size, s2, Begin(2), Filled(0));
  }

  /** One call of log_write without interruption. */
  lemma {:induction false} OneAppend(size: int, s: Space, t: nat)
    requires Reachable(size, s) && WithinBudget(s, t) && t !in s.passed && !Panics(size, s.n)
    ensures Reachable(size, s.(n := s.n + 1, used := s.used[t := s.used[t] + 1]))
  {
    hide Reachable, Panics;
    var tested := s.(passed := s.passed + {t});
    Extend(size, s, Test(t), tested);
    assert tested.passed - {t} == s.passed;
    Extend(size, tested, Append(t), s.(n := s.n + 1, used := s.used[t := s.used[t] + 1]));
  }

  lemma {:induction false} FilledNext(k: nat) returns (t: nat)
    requires k < LOGSIZE
    ensures WithinBudget(Filled(k), t)
    ensures Filled(k + 1) == Filled(k).(n := k + 1, used := Filled(k).used[t := Filled(k).used[t] + 1])
  {
    t := if k < 10 then 0 else if k < 20 then 1 else 2;
  }

  lemma {:induction false} FilledIs(k: nat)
    ensures Filled(k).n == k && Filled(k).passed == {}
  {
  }

  lemma {:induction false} FilledReachable(size: int, k: nat)
    requires k < size && k <= LOGSIZE
    ensures Reachable(size, Filled(k))
  {
    hide Reachable, Filled;
    if k == 0 {
      ThreeBegin(size);
    } else {
      FilledReachable(size, k - 1);
      var t := FilledNext(k - 1);
      FilledIs(k - 1);
      OneAppend(size, Filled(k - 1), t);
    }
  }

  /** Some operation within its budget panics. */
  ghost predicate BudgetPanic(size: int) {
    exists s, t :: Reachable(size, s) && WithinBudget(s, t) && t !in s.passed && Panics(size, s.n)
  }

  /** Operations within their budget never panic exactly when the log region has LOGSIZE + 1 blocks or more. */
  lemma {:induction false} PanicExactly(size: int)
    requires size >= 1
    ensures BudgetPanic(size) <==> size < LOGSIZE + 1
  {
    if size < LOGSIZE + 1 {
      FilledReachable(size, size - 1);
      assert WithinBudget(Filled(size - 1), 2);
    } else if s, t :| Reachable(size, s) && WithinBudget(s, t) && t !in s.passed && Panics(size, s.n) {
      AppendHasRoom(size, s, t);
      assert false;
    }
  }

  /** The image mkfs builds has nlog = LOGSIZE, one block short. */
  lemma {:induction false} MkfsImagePanics()
    ensures BudgetPanic(LOGSIZE)
  {
    PanicExactly(LOGSIZE);
  }

  /** A rewrite of a logged block needs no space, yet on a log of any size some such write panics. */
  lemma {:induction false} AbsorbedCanPanic(size: int)
    requires size >= 2
    ensures exists s, t :: Reachable(size, s) && t in s.used && t !in s.passed && s.n > 0 && Panics(size, s.n)
  {
    var k := if size - 1 <= LOGSIZE then size - 1 else LOGSIZE;
    FilledReachable(size, k);
    assert 0 in Filled(k).used;
  }

  // ------------------------------------------------------------------
  // The same in the runs of the cache and the log

  /** The blocks each operation in progress has appended, one step later. */
  function Charge(used: map<nat, nat>, s: LogRefinement.State, step: LogRefinement.Step,
      s': LogRefinement.State): map<nat, nat> {
    if !s.Running? || !s'.Running? || step.BootStep? then map[]
    else
      match step
      case BeginStep(t) => used[t := 0]
      case EndStep(t) => used - {t}
      case AppendStep(t) => if t in used && |s.m.list| < |s'.m.list| then used[t := used[t] + 1] else used
      case _ => used
  }

  ghost function Charged(ss: seq<LogRefinement.State>, steps: seq<LogRefinement.Step>, n: nat): map<nat, nat>
    requires |ss| == |steps| + 1 && n <= |steps|
  {
    if n == 0 then map[] else Charge(Charged(ss, steps, n - 1), ss[n - 1], steps[n - 1], ss[n])
  }

  /** Nobody has appended more than MAXOPBLOCKS. */
  ghost predicate InBudget(used: map<nat, nat>) {
    forall t :: t in used ==> used[t] <= MAXOPBLOCKS
  }

  ghost predicate KernelInv(m: LogProtocol.Mem, used: map<nat, nat>) {
    && used.Keys == m.ops && m.passed.Keys <= m.ops
    && SpaceInv(Space(|m.list|, used, m.passed.Keys, !m.pc.Idle?))
  }

  lemma {:induction false} FreshSpace(m: LogProtocol.Mem)
    requires LogRefinement.Fresh(m)
    ensures KernelInv(m, map[])
  {
  }

  lemma {:induction false} KernelBegins(m: LogProtocol.Mem, used: map<nat, nat>, t: nat)
    requires KernelInv(m, used) && LogProtocol.CanBegin(m, t)
    ensures KernelInv(m.(ops := m.ops + {t}), used[t := 0])
  {
    hide Reserved;
    assert |used| == |used.Keys|;
    BeginKeeps(Space(|m.list|, used, m.passed.Keys, !m.pc.Idle?), t);
    assert used[t := 0].Keys == used.Keys + {t};
  }

  lemma {:induction false} KernelAppends(m: LogProtocol.Mem, used: map<nat, nat>, t: nat)
    requires KernelInv(m, used) && LogProtocol.CanAppend(m, t)
    ensures t in used
    ensures var m' := LogProtocol.Append(m, t);
            if |m.list| < |m'.list| then used[t] < MAXOPBLOCKS ==> KernelInv(m', used[t := used[t] + 1])
            else KernelInv(m', used)
  {
    hide Reserved;
    var m' := LogProtocol.Append(m, t);
    assert m'.passed.Keys == m.passed.Keys - {t};
    assert t in m.passed.Keys && t in used.Keys;
    if |m.list| < |m'.list| && used[t] < MAXOPBLOCKS {
      AppendKeeps(Space(|m.list|, used, m.passed.Keys, !m.pc.Idle?), t);
      assert used[t := used[t] + 1].Keys == used.Keys;
    }
  }

  lemma {:induction false} KernelEnds(m: LogProtocol.Mem, used: map<nat, nat>, t: nat)
    requires KernelInv(m, used) && LogProtocol.CanEnd(m, t)
    ensures KernelInv(LogProtocol.End(m, t), used - {t})
  {
    hide Reserved;
    EndKeeps(Space(|m.list|, used, m.passed.Keys, !m.pc.Idle?), t);
    assert (used - {t}).Keys == used.Keys - {t};
    assert t !in m.passed.Keys;
    if m.ops - {t} == {} {
      assert used.Keys == {t};
      assert used - {t} == map[];
    }
  }

  lemma {:induction false} KernelStep(l: RedoLog.Layout, s: LogRefinement.State, step: LogRefinement.Step,
      s': LogRefinement.State, used: map<nat, nat>)
    requires LogRefinement.Next(l, s, step, s') && (s.Running? ==> KernelInv(s.m, used))
    requires InBudget(Charge(used, s, step, s'))
    ensures s'.Running? ==> KernelInv(s'.m, Charge(used, s, step, s'))
  {
    hide Reserved, KernelInv, LogProtocol.CanBegin, LogProtocol.CanEnd, LogProtocol.CanAppend, LogProtocol.End;
    if !s'.Running? {
      return;
    }
    match step {
      case BootStep => FreshSpace(s'.m);
      case BeginStep(t) => KernelBegins(s.m, used, t);
      case EndStep(t) => KernelEnds(s.m, used, t);
      case AppendStep(t) =>
        KernelAppends(s.m, used, t);
        assert |s.m.list| < |s'.m.list| ==> t in Charge(used, s, step, s');
      case _ => OtherStep(l, s, step, s', used);
    }
  }

  /** A step that only tests, or that leaves the operations and the list, or the step that empties the list. */
  lemma {:induction false} OtherStep(l: RedoLog.Layout, s: LogRefinement.State, step: LogRefinement.Step,
      s': LogRefinement.State, used: map<nat, nat>)
    requires LogRefinement.Next(l, s, step, s') && s.Running? && s'.Running? && KernelInv(s.m, used)
    requires !step.BootStep? && !step.BeginStep? && !step.EndStep? && !step.AppendStep?
    ensures KernelInv(s'.m, used)
  {
    hide Reserved;
    assert s'.m.passed.Keys <= s.m.passed.Keys + s.m.ops;
    ReservedBounds(used);
  }

  /**
   In every run of the cache and the log in which no operation appends more than MAXOPBLOCKS
   blocks, whatever the size of the region: the blocks logged and what the operations in
   progress may still append fit LOGSIZE.
   */
  lemma {:induction false} RunFits(l: RedoLog.Layout, ss: seq<LogRefinement.State>, steps: seq<LogRefinement.Step>,
      n: nat)
    requires LogRefinement.Run(l, ss, steps) && n <= |steps|
    requires forall k :: 0 <= k <= n ==> InBudget(Charged(ss, steps, k))
    ensures ss[n].Running? ==>
              var m, used := ss[n].m, Charged(ss, steps, n);
              used.Keys == m.ops && |m.list| + Reserved(used) <= LOGSIZE && 0 <= Reserved(used)
  {
    hide LogRefinement.Next, Reserved, Charge, InBudget;
    KernelRun(l, ss, steps, n);
    if ss[n].Running? {
      ReservedBounds(Charged(ss, steps, n));
    }
  }

  lemma {:induction false} KernelRun(l: RedoLog.Layout, ss: seq<LogRefinement.State>, steps: seq<LogRefinement.Step>,
      n: nat)
    requires LogRefinement.Run(l, ss, steps) && n <= |steps|
    requires forall k :: 0 <= k <= n ==> InBudget(Charged(ss, steps, k))
    ensures ss[n].Running? ==> KernelInv(ss[n].m, Charged(ss, steps, n))
  {
    hide LogRefinement.Next, Reserved, Charge, InBudget, KernelInv;
    if n == 0 {
      FreshSpace(ss[0].m);
    } else {
      KernelRun(l, ss, steps, n - 1);
      assert InBudget(Charged(ss, steps, n));
      KernelStep(l, ss[n - 1], steps[n - 1], ss[n], Charged(ss, steps, n - 1));
    }
  }

  /** So an operation that has appended fewer finds the list not full. */
  lemma {:induction false} RunHasRoom(l: RedoLog.Layout, ss: seq<LogRefinement.State>, steps: seq<LogRefinement.Step>,
      n: nat, t: nat)
    requires LogRefinement.Run(l, ss, steps) && n <= |steps| && ss[n].Running? && t in ss[n].m.ops
    requires forall k :: 0 <= k <= n ==> InBudget(Charged(ss, steps, k))
    ensures t in Charged(ss, steps, n) && (Charged(ss, steps, n)[t] < MAXOPBLOCKS ==> |ss[n].m.list| < LOGSIZE)
  {
    hide LogRefinement.Next, Reserved, Charge, Charged, LogRefinement.Init;
    RunFits(l, ss, steps, n);
    var used := Charged(ss, steps, n);
    assert InBudget(used);
    assert t in used.Keys;
    ReservedRemove(used, t);
    ReservedBounds(used - {t});
  }
}
