/**
 Processes on CPUs: the scheduler, sched and everything that calls it in kernel/proc.c,
 with the spinlocks of kernel/spinlock.c.

 A step is what one CPU does between two points where another CPU could see the
 difference.  The lock of process p is lock p; other spinlocks have other
 numbers.  swtch is one transfer of control.
 */
module Scheduler {
  import Sets

  datatype State = Unused | Sleeping | Runnable | Running | Zombie

  /**
   What a CPU executes: its scheduler (idle, with a process's lock before or after
   running it, or just switched back to from it), or the kernel thread of a
   process, which has marked itself as no longer running once it is leaving.
   */
  datatype Cur = Idle | Has(p: int) | Back(p: int) | Done(p: int) | Thread(p: int) | Leaving(p: int)

  datatype Cpu = Cpu(cur: Cur, proc: int, noff: int, intena: bool, intr: bool)

  const NO_PROC: int := -1

  /** saved is sched's local copy of intena; want is whether a thread had interrupts on before its first lock. */
  datatype Proc = Proc(state: State, started: bool, saved: bool, want: bool)

  datatype Machine = Machine(cpus: seq<Cpu>, procs: seq<Proc>, holder: map<int, int>)

  /** The locks CPU c holds. */
  ghost function Held(m: Machine, c: int): set<int> {
    set l | l in m.holder && m.holder[l] == c
  }

  predicate IsCpu(m: Machine, c: int) {
    0 <= c < |m.cpus|
  }

  predicate IsProc(m: Machine, p: int) {
    0 <= p < |m.procs|
  }

  // ------------------------------------------------------------------
  // Steps

  datatype Step =
    | SetIntr(on: bool)
    | Pick(p: int)
    | Dispatch
    | Clear
    | Drop
    | Acquire(l: int)
    | Release(l: int)
    | Leave(to: State)
    | Change(q: int, to: State)
    | Switch

  /** acquire: push_off saves whether interrupts were on when it is the first lock. */
  function Locked(m: Machine, c: int, l: int, cur: Cur): Machine
    requires IsCpu(m, c)
  {
    var u := m.cpus[c];
    var u' := u.(cur := cur, noff := u.noff + 1, intr := false, intena := if u.noff == 0 then u.intr else u.intena);
    m.(cpus := m.cpus[c := u'], holder := m.holder[l := c])
  }

  /** release: pop_off turns interrupts back on with the last lock if they were on before the first. */
  function Unlocked(m: Machine, c: int, l: int, cur: Cur): Machine
    requires IsCpu(m, c)
  {
    var u := m.cpus[c];
    var u' := u.(cur := cur, noff := u.noff - 1, intr := if u.noff == 1 && u.intena then true else u.intr);
    m.(cpus := m.cpus[c := u'], holder := m.holder - {l})
  }

  function WithProc(m: Machine, p: int, q: Proc): Machine
    requires IsProc(m, p)
  {
    m.(procs := m.procs[p := q])
  }

  predicate Holds(m: Machine, c: int, l: int) {
    l in m.holder && m.holder[l] == c
  }

  /** The changes one process makes to another's state while holding its lock: wakeup and kill, fork, wait. */
  predicate MayChange(from: State, to: State) {
    (from == Sleeping && to == Runnable) || (from == Unused && to == Runnable) || (from == Zombie && to == Unused)
  }

  ghost predicate Enabled(m: Machine, c: int, st: Step) {
    && IsCpu(m, c)
    && var u := m.cpus[c];
       match st
       case SetIntr(on) => u.noff == 0 && (u.cur == Idle || u.cur.Thread?)
       case Pick(p) => u.cur == Idle && IsProc(m, p) && p !in m.holder
       case Dispatch => u.cur.Has? && IsProc(m, u.cur.p) && m.procs[u.cur.p].state == Runnable
       case Clear => u.cur.Back?
       case Drop => u.cur.Done? || (u.cur.Has? && IsProc(m, u.cur.p) && m.procs[u.cur.p].state != Runnable)
       case Acquire(l) => u.cur.Thread? && IsProc(m, u.cur.p) && l !in m.holder
       case Release(l) => Holds(m, c, l) && (u.cur.Thread? || (u.cur.Leaving? && l != u.cur.p))
       case Leave(to) => u.cur.Thread? && IsProc(m, u.cur.p) && Holds(m, c, u.cur.p) &&
           (to == Runnable || to == Sleeping || to == Zombie)
       case Change(q, to) => u.cur.Thread? && q != u.cur.p && IsProc(m, q) && Holds(m, c, q) &&
           MayChange(m.procs[q].state, to)
       case Switch => u.cur.Leaving? && IsProc(m, u.cur.p) && SchedChecks(m, c, u.cur.p)
  }

  /** The four conditions sched panics without. */
  ghost predicate SchedChecks(m: Machine, c: int, p: int) {
    && IsCpu(m, c) && IsProc(m, p)
    && Holds(m, c, p) && m.cpus[c].noff == 1 && m.procs[p].state != Running && !m.cpus[c].intr
  }

  ghost function Apply(m: Machine, c: int, st: Step): Machine
    requires Enabled(m, c, st)
  {
    var u := m.cpus[c];
    match st
    case SetIntr(on) => m.(cpus := m.cpus[c := u.(intr := on)])
    case Pick(p) => Locked(m, c, p, Has(p))
    case Dispatch =>
      var p := u.cur.p;
      var q := m.procs[p];
      var u' := u.(cur := Thread(p), proc := p, intena := if q.started then q.saved else u.intena);
      WithProc(m.(cpus := m.cpus[c := u']), p,
          q.(state := Running, started := true, want := if q.started then q.want else u.intena))
    case Clear => m.(cpus := m.cpus[c := u.(cur := Done(u.cur.p), proc := NO_PROC)])
    case Drop => Unlocked(m, c, u.cur.p, Idle)
    case Acquire(l) =>
      var m' := Locked(m, c, l, u.cur);
      if u.noff == 0 then WithProc(m', u.cur.p, m.procs[u.cur.p].(want := u.intr)) else m'
    case Release(l) => Unlocked(m, c, l, u.cur)
    case Leave(to) => WithProc(m.(cpus := m.cpus[c := u.(cur := Leaving(u.cur.p))]), u.cur.p,
        m.procs[u.cur.p].(state := to))
    case Change(q, to) => WithProc(m, q,
        m.procs[q].(state := to, started := if m.procs[q].state == Unused then false else m.procs[q].started))
    case Switch => WithProc(m.(cpus := m.cpus[c := u.(cur := Back(u.cur.p))]), u.cur.p,
        m.procs[u.cur.p].(saved := u.intena))
  }

  // ------------------------------------------------------------------
  // The invariant

  ghost predicate CpuAt(m: Machine, c: int) {
    IsCpu(m, c) ==>
      var u := m.cpus[c];
      && u.noff == |Held(m, c)|
      && (u.intr ==> u.noff == 0)
      && match u.cur {
           case Idle => u.proc == NO_PROC && Held(m, c) == {}
           case Has(p) => u.proc == NO_PROC && IsProc(m, p) && Held(m, c) == {p}
           case Done(p) => u.proc == NO_PROC && IsProc(m, p) && Held(m, c) == {p}
           case Back(p) => u.proc == p && IsProc(m, p) && Held(m, c) == {p} && m.procs[p].state != Running
           case Thread(p) => u.proc == p && IsProc(m, p) && m.procs[p].state == Running && m.procs[p].started
           case Leaving(p) => u.proc == p && IsProc(m, p) && m.procs[p].state != Running && p in Held(m, c)
                              && m.procs[p].started && m.procs[p].state != Unused
         }
      && ((u.cur.Thread? || u.cur.Leaving?) && 0 < u.noff ==> IsProc(m, u.cur.p) && u.intena == m.procs[u.cur.p].want)
  }

  /** CPU c executes the thread of process p. */
  predicate On(m: Machine, c: int, p: int) {
    IsCpu(m, c) && (m.cpus[c].cur == Thread(p) || m.cpus[c].cur == Leaving(p))
  }

  ghost predicate ProcAt(m: Machine, p: int) {
    IsProc(m, p) ==>
      && (m.procs[p].state == Running ==> exists c :: IsCpu(m, c) && m.cpus[c].cur == Thread(p))
      && (m.procs[p].started && m.procs[p].state != Unused && (forall c :: !On(m, c, p)) ==>
          m.procs[p].saved == m.procs[p].want)
  }

  predicate OneCpu(m: Machine, c: int, d: int) {
    IsCpu(m, c) && IsCpu(m, d) && c != d && m.cpus[c].proc != NO_PROC ==> m.cpus[c].proc != m.cpus[d].proc
  }

  ghost predicate Inv(m: Machine) {
    && (forall c :: CpuAt(m, c))
    && (forall p :: ProcAt(m, p))
    && (forall c, d :: OneCpu(m, c, d))
    && (forall l :: l in m.holder ==> IsCpu(m, m.holder[l]))
  }

  lemma {:induction false} LockedHeld(m: Machine, c: int, l: int, cur: Cur)
    requires IsCpu(m, c) && l !in m.holder
    ensures var m' := Locked(m, c, l, cur);
            && (forall d :: Held(m', d) == if d == c then Held(m, d) + {l} else Held(m, d))
            && |Held(m', c)| == |Held(m, c)| + 1
  {
  }

  lemma {:induction false} UnlockedHeld(m: Machine, c: int, l: int, cur: Cur)
    requires IsCpu(m, c) && Holds(m, c, l)
    ensures var m' := Unlocked(m, c, l, cur);
            && (forall d :: Held(m', d) == if d == c then Held(m, d) - {l} else Held(m, d))
            && |Held(m', c)| == |Held(m, c)| - 1
  {
    assert l in Held(m, c);
  }

  lemma {:induction false} SameHeld(m: Machine, m': Machine)
    requires m'.holder == m.holder
    ensures forall d :: Held(m', d) == Held(m, d)
  {
  }

  lemma {:induction false} HeldIs(m: Machine, c: int, l: int)
    ensures l in Held(m, c) <==> Holds(m, c, l)
  {
  }

  // ------------------------------------------------------------------
  // Every step keeps the invariant

  lemma {:induction false} SetIntrKeeps(m: Machine, c: int, on: bool)
    requires Inv(m) && Enabled(m, c, SetIntr(on))
    ensures Inv(Apply(m, c, SetIntr(on)))
  {
    hide Held;
    var m' := Apply(m, c, SetIntr(on));
    SameHeld(m, m');
    forall d ensures CpuAt(m', d) {
      assert CpuAt(m, d);
    }
    forall p ensures ProcAt(m', p) {
      assert ProcAt(m, p);
      SameOn(m, m', p);
    }
    forall d, e ensures OneCpu(m', d, e) {
      assert OneCpu(m, d, e);
    }
  }

  lemma {:induction false} SameOn(m: Machine, m': Machine, p: int)
    requires |m'.cpus| == |m.cpus| && forall c :: IsCpu(m, c) ==> m'.cpus[c].cur == m.cpus[c].cur
    ensures forall c :: On(m', c, p) <==> On(m, c, p)
  {
  }

  /** The scheduler takes a process's lock, or gives it back. */
  lemma {:induction false} PickKeeps(m: Machine, c: int, p: int)
    requires Inv(m) && Enabled(m, c, Pick(p))
    ensures Inv(Apply(m, c, Pick(p)))
  {
    hide Held;
    var m' := Apply(m, c, Pick(p));
    LockedHeld(m, c, p, Has(p));
    assert CpuAt(m, c);
    forall d ensures CpuAt(m', d) {
      assert CpuAt(m, d);
    }
    forall q ensures ProcAt(m', q) {
      assert ProcAt(m, q);
      assert forall d :: On(m', d, q) <==> On(m, d, q);
      RunsStill(m, m', c, q);
    }
    forall d, e ensures OneCpu(m', d, e) {
      assert OneCpu(m, d, e);
    }
  }

  lemma {:induction false} DropKeeps(m: Machine, c: int)
    requires Inv(m) && Enabled(m, c, Drop)
    ensures Inv(Apply(m, c, Drop))
  {
    hide Held;
    var m', p := Apply(m, c, Drop), m.cpus[c].cur.p;
    assert CpuAt(m, c);
    HeldIs(m, c, p);
    UnlockedHeld(m, c, p, Idle);
    forall d ensures CpuAt(m', d) {
      assert CpuAt(m, d);
    }
    forall q ensures ProcAt(m', q) {
      assert ProcAt(m, q);
      assert forall d :: On(m', d, q) <==> On(m, d, q);
      RunsStill(m, m', c, q);
    }
    forall d, e ensures OneCpu(m', d, e) {
      assert OneCpu(m, d, e);
    }
  }

  lemma {:induction false} ClearKeeps(m: Machine, c: int)
    requires Inv(m) && Enabled(m, c, Clear)
    ensures Inv(Apply(m, c, Clear))
  {
    hide Held;
    var m' := Apply(m, c, Clear);
    SameHeld(m, m');
    assert CpuAt(m, c);
    forall d ensures CpuAt(m', d) {
      assert CpuAt(m, d);
    }
    forall q ensures ProcAt(m', q) {
      assert ProcAt(m, q);
      assert forall d :: On(m', d, q) <==> On(m, d, q);
      RunsStill(m, m', c, q);
    }
    forall d, e ensures OneCpu(m', d, e) {
      assert OneCpu(m, d, e);
    }
  }

  /** A process whose lock another CPU holds is on no CPU unless it is running there. */
  lemma {:induction false} Elsewhere(m: Machine, c: int, d: int, p: int)
    requires Inv(m) && IsCpu(m, c) && IsCpu(m, d) && c != d && Holds(m, c, p) && IsProc(m, p) &&
               m.procs[p].state != Running
    ensures m.cpus[d].proc != p
  {
    assert CpuAt(m, d);
    HeldIs(m, d, p);
  }

  lemma {:induction false} DispatchKeeps(m: Machine, c: int)
    requires Inv(m) && Enabled(m, c, Dispatch)
    ensures Inv(Apply(m, c, Dispatch))
  {
    hide Held;
    var m', p := Apply(m, c, Dispatch), m.cpus[c].cur.p;
    SameHeld(m, m');
    assert CpuAt(m, c) && ProcAt(m, p);
    HeldIs(m, c, p);
    assert forall d :: !On(m, d, p) by {
      forall d ensures !On(m, d, p) {
        if IsCpu(m, d) && d != c {
          Elsewhere(m, c, d, p);
          assert CpuAt(m, d);
        }
      }
    }
    forall d ensures CpuAt(m', d) {
      assert CpuAt(m, d);
      if IsCpu(m, d) && d != c {
        Elsewhere(m, c, d, p);
        HeldIs(m, d, p);
      }
    }
    forall q ensures ProcAt(m', q) {
      assert ProcAt(m, q);
      assert m'.cpus[c].cur == Thread(p) && On(m', c, p);
      assert forall d :: q != p ==> (On(m', d, q) <==> On(m, d, q));
      RunsStill(m, m', c, q);
    }
    forall d, e ensures OneCpu(m', d, e) {
      assert OneCpu(m, d, e);
      if IsCpu(m, d) && d != c {
        Elsewhere(m, c, d, p);
      }
      if IsCpu(m, e) && e != c {
        Elsewhere(m, c, e, p);
      }
    }
  }

  /** A process running on another CPU runs there still. */
  lemma {:induction false} RunsStill(m: Machine, m': Machine, c: int, q: int)
    requires Inv(m) && |m'.cpus| == |m.cpus| && IsCpu(m, c) &&
               (forall d :: IsCpu(m, d) && d != c ==> m'.cpus[d].cur == m.cpus[d].cur)
    requires IsProc(m, q) && m.procs[q].state == Running ==> m.cpus[c].cur != Thread(q) || m'.cpus[c].cur == Thread(q)
    ensures IsProc(m, q) && m.procs[q].state == Running ==> exists d :: IsCpu(m', d) && m'.cpus[d].cur == Thread(q)
  {
    assert ProcAt(m, q);
    if IsProc(m, q) && m.procs[q].state == Running {
      var d :| IsCpu(m, d) && m.cpus[d].cur == Thread(q);
      assert IsCpu(m', d) && m'.cpus[d].cur == Thread(q);
    }
  }

  lemma {:induction false} AcquireKeeps(m: Machine, c: int, l: int)
    requires Inv(m) && Enabled(m, c, Acquire(l))
    ensures Inv(Apply(m, c, Acquire(l)))
  {
    hide Held;
    var m', p := Apply(m, c, Acquire(l)), m.cpus[c].cur.p;
    LockedHeld(m, c, l, m.cpus[c].cur);
    SameHeld(Locked(m, c, l, m.cpus[c].cur), m');
    assert CpuAt(m, c);
    forall d ensures CpuAt(m', d) {
      assert CpuAt(m, d) && OneCpu(m, c, d);
    }
    forall q ensures ProcAt(m', q) {
      assert ProcAt(m, q);
      SameOn(m, m', q);
      RunsStill(m, m', c, q);
      assert On(m, c, p);
    }
    forall d, e ensures OneCpu(m', d, e) {
      assert OneCpu(m, d, e);
    }
  }

  lemma {:induction false} ReleaseKeeps(m: Machine, c: int, l: int)
    requires Inv(m) && Enabled(m, c, Release(l))
    ensures Inv(Apply(m, c, Release(l)))
  {
    hide Held;
    var m' := Apply(m, c, Release(l));
    UnlockedHeld(m, c, l, m.cpus[c].cur);
    assert CpuAt(m, c);
    forall d ensures CpuAt(m', d) {
      assert CpuAt(m, d);
    }
    forall q ensures ProcAt(m', q) {
      assert ProcAt(m, q);
      SameOn(m, m', q);
      RunsStill(m, m', c, q);
    }
    forall d, e ensures OneCpu(m', d, e) {
      assert OneCpu(m, d, e);
    }
  }

  lemma {:induction false} LeaveKeeps(m: Machine, c: int, to: State)
    requires Inv(m) && Enabled(m, c, Leave(to))
    ensures Inv(Apply(m, c, Leave(to)))
  {
    hide Held;
    var m', p := Apply(m, c, Leave(to)), m.cpus[c].cur.p;
    SameHeld(m, m');
    assert CpuAt(m, c);
    HeldIs(m, c, p);
    forall d ensures CpuAt(m', d) {
      assert CpuAt(m, d) && OneCpu(m, c, d);
    }
    forall q ensures ProcAt(m', q) {
      assert ProcAt(m, q);
      assert forall d :: On(m', d, q) <==> On(m, d, q);
      assert On(m, c, p);
      if q != p {
        RunsStill(m, m', c, q);
      }
    }
    forall d, e ensures OneCpu(m', d, e) {
      assert OneCpu(m, d, e);
    }
  }

  lemma {:induction false} ChangeKeeps(m: Machine, c: int, q: int, to: State)
    requires Inv(m) && Enabled(m, c, Change(q, to))
    ensures Inv(Apply(m, c, Change(q, to)))
  {
    hide Held;
    var m' := Apply(m, c, Change(q, to));
    SameHeld(m, m');
    assert CpuAt(m, c);
    forall d ensures CpuAt(m', d) {
      assert CpuAt(m, d);
      if IsCpu(m, d) && d != c {
        Elsewhere(m, c, d, q);
        HeldIs(m, d, q);
      }
    }
    forall r ensures ProcAt(m', r) {
      assert ProcAt(m, r);
      SameOn(m, m', r);
      RunsStill(m, m', c, r);
    }
    forall d, e ensures OneCpu(m', d, e) {
      assert OneCpu(m, d, e);
    }
  }

  lemma {:induction false} SwitchKeeps(m: Machine, c: int)
    requires Inv(m) && Enabled(m, c, Switch)
    ensures Inv(Apply(m, c, Switch))
  {
    hide Held;
    var m', p := Apply(m, c, Switch), m.cpus[c].cur.p;
    SameHeld(m, m');
    assert CpuAt(m, c);
    HeldIs(m, c, p);
    OnlyItsLock(m, c, p);
    forall d ensures CpuAt(m', d) {
      assert CpuAt(m, d) && OneCpu(m, c, d);
    }
    forall q ensures ProcAt(m', q) {
      assert ProcAt(m, q);
      assert forall d :: q != p ==> (On(m', d, q) <==> On(m, d, q));
      RunsStill(m, m', c, q);
    }
    forall d, e ensures OneCpu(m', d, e) {
      assert OneCpu(m, d, e);
    }
  }

  lemma {:induction false} OnlyItsLock(m: Machine, c: int, p: int)
    requires CpuAt(m, c) && IsCpu(m, c) && m.cpus[c].noff == 1 && p in Held(m, c)
    ensures Held(m, c) == {p}
  {
    assert |Held(m, c) - {p}| == 0;
  }

  lemma {:induction false} StepKeeps(m: Machine, c: int, st: Step)
    requires Inv(m) && Enabled(m, c, st)
    ensures Inv(Apply(m, c, st))
  {
    hide Inv, Held;
    match st
    case SetIntr(on) => SetIntrKeeps(m, c, on);
    case Pick(p) => PickKeeps(m, c, p);
    case Dispatch => DispatchKeeps(m, c);
    case Clear => ClearKeeps(m, c);
    case Drop => DropKeeps(m, c);
    case Acquire(l) => AcquireKeeps(m, c, l);
    case Release(l) => ReleaseKeeps(m, c, l);
    case Leave(to) => LeaveKeeps(m, c, to);
    case Change(q, to) => ChangeKeeps(m, c, q, to);
    case Switch => SwitchKeeps(m, c);
  }

  // ------------------------------------------------------------------
  // Runs

  datatype Event = Event(c: int, st: Step)

  ghost predicate Leads(m: Machine, run: seq<Event>, m': Machine)
    decreases |run|
  {
    if run == [] then m == m'
    else Enabled(m, run[0].c, run[0].st) && Leads(Apply(m, run[0].c, run[0].st), run[1..], m')
  }

  /** Nothing is running and no lock is held; processes are unused or made ready before the CPUs start. */
  ghost predicate Start(m: Machine) {
    && m.holder == map[]
    && (forall c :: IsCpu(m, c) ==> m.cpus[c].cur == Idle && m.cpus[c].proc == NO_PROC && m.cpus[c].noff == 0)
    && (forall p :: IsProc(m, p) ==>
        !m.procs[p].started && (m.procs[p].state == Unused || m.procs[p].state == Runnable))
  }

  lemma {:induction false} StartKeeps(m: Machine)
    requires Start(m)
    ensures Inv(m)
  {
    forall c ensures CpuAt(m, c) {
      assert Held(m, c) == {};
    }
  }

  lemma {:induction false} RunKeeps(m: Machine, run: seq<Event>, m': Machine)
    requires Inv(m) && Leads(m, run, m')
    ensures Inv(m')
    decreases |run|
  {
    hide Inv, Enabled, Apply;
    if run != [] {
      StepKeeps(m, run[0].c, run[0].st);
      RunKeeps(Apply(m, run[0].c, run[0].st), run[1..], m');
    }
  }

  /**
   In every state of every run: a running process is on exactly one CPU, a CPU whose
   process is not running holds that process's lock, and noff is the number of
   locks a CPU holds.
   */
  lemma {:induction false} OneCpuEach(m0: Machine, run: seq<Event>, m: Machine, p: int, c: int)
    requires Start(m0) && Leads(m0, run, m) && IsProc(m, p) && IsCpu(m, c)
    ensures m.procs[p].state == Running ==>
              exists d :: IsCpu(m, d) && m.cpus[d].proc == p && forall e :: IsCpu(m, e) && m.cpus[e].proc == p ==>
                  e == d
    ensures m.cpus[c].proc == p && m.procs[p].state != Running ==> Holds(m, c, p)
    ensures m.cpus[c].noff == |Held(m, c)| && (m.cpus[c].intr ==> Held(m, c) == {})
  {
    StartKeeps(m0);
    RunKeeps(m0, run, m);
    assert CpuAt(m, c) && ProcAt(m, p);
    HeldIs(m, c, p);
    if m.procs[p].state == Running {
      var d :| IsCpu(m, d) && m.cpus[d].cur == Thread(p);
      assert CpuAt(m, d) && m.cpus[d].proc == p;
      forall e | IsCpu(m, e) && m.cpus[e].proc == p ensures e == d {
        assert OneCpu(m, d, e);
      }
    }
  }

  /** A thread that has given up running passes the checks of sched exactly when it holds no lock but its own. */
  lemma {:induction false} ChecksExactly(m: Machine, c: int)
    requires Inv(m) && IsCpu(m, c) && m.cpus[c].cur.Leaving?
    ensures SchedChecks(m, c, m.cpus[c].cur.p) <==> Held(m, c) == {m.cpus[c].cur.p}
  {
    var p := m.cpus[c].cur.p;
    assert CpuAt(m, c);
    HeldIs(m, c, p);
    if m.cpus[c].noff == 1 {
      OnlyItsLock(m, c, p);
    }
  }

  /** Releasing its last lock, a thread has interrupts as they were before its first, on whichever CPU it now is. */
  lemma {:induction false} IntrFollowsThread(m: Machine, c: int, l: int)
    requires Inv(m) && Enabled(m, c, Release(l)) && m.cpus[c].noff == 1 && m.cpus[c].cur.Thread?
    ensures IsProc(m, m.cpus[c].cur.p) && Apply(m, c, Release(l)).cpus[c].intr == m.procs[m.cpus[c].cur.p].want
  {
    assert CpuAt(m, c);
  }

  /** What a thread had before its first lock changes only when it takes a first lock. */
  lemma {:induction false} WantStays(m: Machine, c: int, st: Step, p: int)
    requires Inv(m) && Enabled(m, c, st) && IsProc(m, p) && m.procs[p].started
    ensures var m' := Apply(m, c, st);
            && IsProc(m', p)
            && (m'.procs[p].want == m.procs[p].want ||
                (st.Acquire? && m.cpus[c].cur == Thread(p) && Held(m, c) == {} && m'.procs[p].want == m.cpus[c].intr))
  {
    assert CpuAt(m, c);
  }

  // ------------------------------------------------------------------
  // What becomes of a process that gives up its CPU

  predicate Dispatches(m: Machine, e: Event, p: int) {
    e.st == Dispatch && IsCpu(m, e.c) && m.cpus[e.c].cur == Has(p)
  }

  /** No step of the run dispatches process p. */
  ghost predicate NeverDispatched(m: Machine, run: seq<Event>, p: int)
    decreases |run|
  {
    run == [] ||
    (!Dispatches(m, run[0], p) && Enabled(m, run[0].c, run[0].st) &&
        NeverDispatched(Apply(m, run[0].c, run[0].st), run[1..], p))
  }

  /** A process changes state when it is dispatched, leaves or is changed by another, and in no other way. */
  lemma {:induction false} StateStep(m: Machine, e: Event, p: int)
    requires Inv(m) && Enabled(m, e.c, e.st) && IsProc(m, p)
    ensures var m' := Apply(m, e.c, e.st);
            && IsProc(m', p)
            && (m'.procs[p].state == m.procs[p].state || Dispatches(m, e, p) || (e.st.Change? && e.st.q == p)
                || (e.st.Leave? && m.cpus[e.c].cur == Thread(p)))
  {
  }

  lemma {:induction false} StateStays(m: Machine, e: Event, p: int)
    requires Inv(m) && Enabled(m, e.c, e.st) && IsProc(m, p)
    ensures var s, s' := m.procs[p].state, Apply(m, e.c, e.st).procs[p].state;
            && (s == Zombie && e.st != Change(p, Unused) ==> s' == Zombie)
            && (s == Unused && e.st != Change(p, Runnable) ==> s' == Unused)
            && (s == Sleeping && e.st != Change(p, Runnable) ==> s' == Sleeping)
            && (s == Runnable && !Dispatches(m, e, p) ==> s' == Runnable)
            && (e.st == Change(p, Unused) ==> s' == Unused)
            && (e.st == Change(p, Runnable) ==> s' == Runnable)
  {
    hide Apply;
    assert CpuAt(m, e.c);
    StateStep(m, e, p);
    if e.st.Change? && e.st.q == p {
      ChangedTo(m, e, p);
    }
  }

  lemma ChangedTo(m: Machine, e: Event, p: int)
    requires Enabled(m, e.c, e.st) && e.st.Change? && e.st.q == p
    ensures Apply(m, e.c, e.st).procs[p].state == e.st.to
  {
  }

  lemma {:induction false} OnStays(m: Machine, e: Event, p: int)
    requires Inv(m) && Enabled(m, e.c, e.st) && !Dispatches(m, e, p)
    ensures forall d :: On(Apply(m, e.c, e.st), d, p) ==> On(m, d, p)
    ensures e.st == Switch ==> !On(Apply(m, e.c, e.st), e.c, p)
  {
  }

  /** The step that ends the wait of a process that left as an exited or a sleeping one. */
  function Ends(p: int, to: State): Step {
    Change(p, if to == Zombie then Unused else Runnable)
  }

  /**
   From the step in which process p exits or goes to sleep, until another process reaps it or
   wakes it: it has that state, nobody can dispatch it, and it is on no CPU once its own has switched.
   */
  lemma {:induction false} GoneUntilChanged(m: Machine, c: int, p: int, to: State, run: seq<Event>, m': Machine)
    requires Inv(m) && Enabled(m, c, Leave(to)) && m.cpus[c].cur == Thread(p) && (to == Zombie || to == Sleeping)
    requires Leads(Apply(m, c, Leave(to)), run, m') && forall e :: e in run ==> e.st != Ends(p, to)
    ensures IsProc(m', p) && m'.procs[p].state == to
    ensures forall d :: Enabled(m', d, Dispatch) ==> m'.cpus[d].cur != Has(p)
    ensures forall d :: On(m', d, p) ==> d == c && Event(c, Switch) !in run
  {
    var m1 := Apply(m, c, Leave(to));
    StepKeeps(m, c, Leave(to));
    forall d | On(m1, d, p) ensures d == c {
      assert CpuAt(m1, c) && CpuAt(m1, d) && OneCpu(m1, c, d);
    }
    Gone(m1, c, p, to, run, m');
  }

  lemma {:induction false} Gone(m: Machine, c: int, p: int, to: State, run: seq<Event>, m': Machine)
    requires Inv(m) && IsProc(m, p) && m.procs[p].state == to && (to == Zombie || to == Sleeping)
    requires forall d :: On(m, d, p) ==> d == c
    requires Leads(m, run, m') && forall e :: e in run ==> e.st != Ends(p, to)
    ensures IsProc(m', p) && m'.procs[p].state == to
    ensures forall d :: On(m', d, p) ==> On(m, d, p) && Event(c, Switch) !in run
    decreases |run|
  {
    hide Inv, Enabled, Apply, On;
    if run != [] {
      var e, m1 := run[0], Apply(m, run[0].c, run[0].st);
      StepKeeps(m, e.c, e.st);
      assert !Dispatches(m, e, p) by { NotReady(m, e, p); }
      StateStays(m, e, p);
      StateStep(m, e, p);
      OnStays(m, e, p);
      assert run == [e] + run[1..];
      Gone(m1, c, p, to, run[1..], m');
    }
  }

  lemma NotReady(m: Machine, e: Event, p: int)
    requires Enabled(m, e.c, e.st) && IsProc(m, p) && m.procs[p].state != Runnable
    ensures !Dispatches(m, e, p)
  {
  }

  /** A process that slept or was unused can be dispatched only after a step that made it ready. */
  lemma {:induction false} ReadyAfterChange(m: Machine, p: int, run: seq<Event>, m': Machine) returns (b: nat)
    requires Inv(m) && IsProc(m, p) && (m.procs[p].state == Sleeping || m.procs[p].state == Unused)
    requires Leads(m, run, m') && IsProc(m', p) && m'.procs[p].state == Runnable
    ensures b < |run| && run[b].st == Change(p, Runnable)
    decreases |run|
  {
    hide Inv, Enabled, Apply;
    var e := run[0];
    if e.st == Change(p, Runnable) {
      return 0;
    }
    StepKeeps(m, e.c, e.st);
    StateStays(m, e, p);
    StateStep(m, e, p);
    b := ReadyAfterChange(Apply(m, e.c, e.st), p, run[1..], m');
    b := b + 1;
  }

  lemma {:induction false} ReadyAfterReuse(m: Machine, p: int, run: seq<Event>, m': Machine) returns (a: nat, b: nat)
    requires Inv(m) && IsProc(m, p) && m.procs[p].state == Zombie
    requires Leads(m, run, m') && IsProc(m', p) && m'.procs[p].state == Runnable
    ensures a < b < |run| && run[a].st == Change(p, Unused) && run[b].st == Change(p, Runnable)
    decreases |run|
  {
    hide Inv, Enabled, Apply;
    var e := run[0];
    StepKeeps(m, e.c, e.st);
    StateStays(m, e, p);
    StateStep(m, e, p);
    if e.st == Change(p, Unused) {
      b := ReadyAfterChange(Apply(m, e.c, e.st), p, run[1..], m');
      return 0, b + 1;
    }
    a, b := ReadyAfterReuse(Apply(m, e.c, e.st), p, run[1..], m');
    a, b := a + 1, b + 1;
  }

  /** An exited process is not dispatched until its slot was freed and then made ready again, by others. */
  lemma {:induction false} ExitedUntilReused(m: Machine, c: int, p: int, run: seq<Event>, m': Machine, d: int)
    requires Inv(m) && Enabled(m, c, Leave(Zombie)) && m.cpus[c].cur == Thread(p)
    requires Leads(Apply(m, c, Leave(Zombie)), run, m') && Dispatches(m', Event(d, Dispatch), p)
    requires Enabled(m', d, Dispatch)
    ensures exists a, b :: 0 <= a < b < |run| && run[a].st == Change(p, Unused) && run[b].st == Change(p, Runnable)
  {
    StepKeeps(m, c, Leave(Zombie));
    var a, b := ReadyAfterReuse(Apply(m, c, Leave(Zombie)), p, run, m');
  }

  /** A process that went to sleep is not dispatched until somebody has woken it. */
  lemma {:induction false} SleepsUntilWoken(m: Machine, c: int, p: int, run: seq<Event>, m': Machine, d: int)
    requires Inv(m) && Enabled(m, c, Leave(Sleeping)) && m.cpus[c].cur == Thread(p)
    requires Leads(Apply(m, c, Leave(Sleeping)), run, m') && Dispatches(m', Event(d, Dispatch), p)
    requires Enabled(m', d, Dispatch)
    ensures exists b :: 0 <= b < |run| && run[b].st == Change(p, Runnable)
  {
    StepKeeps(m, c, Leave(Sleeping));
    var b := ReadyAfterChange(Apply(m, c, Leave(Sleeping)), p, run, m');
  }

  /** The step makes process p ready: it yields, or another process wakes it or has made it. */
  predicate MakesReady(m: Machine, e: Event, p: int) {
    e.st == Change(p, Runnable) || (e.st == Leave(Runnable) && IsCpu(m, e.c) && m.cpus[e.c].cur == Thread(p))
  }

  /**
   From a step that made process p ready until it is dispatched: whichever CPU has its lock in
   its scheduler can dispatch it, and an idle one that finds the lock free can take it and then do so.
   */
  lemma {:induction false} ReadyUntilDispatched(m: Machine, e: Event, p: int, run: seq<Event>, m': Machine, d: int)
    requires Inv(m) && Enabled(m, e.c, e.st) && IsProc(m, p) && MakesReady(m, e, p)
    requires var m1 := Apply(m, e.c, e.st); Leads(m1, run, m') && NeverDispatched(m1, run, p)
    ensures IsCpu(m', d) && m'.cpus[d].cur == Has(p) ==> Enabled(m', d, Dispatch)
    ensures IsCpu(m', d) && m'.cpus[d].cur == Idle && p !in m'.holder ==>
              Enabled(m', d, Pick(p)) && Enabled(Apply(m', d, Pick(p)), d, Dispatch)
              && On(Apply(Apply(m', d, Pick(p)), d, Dispatch), d, p)
  {
    StepKeeps(m, e.c, e.st);
    StateStays(m, e, p);
    Ready(Apply(m, e.c, e.st), p, run, m');
  }

  lemma {:induction false} Ready(m: Machine, p: int, run: seq<Event>, m': Machine)
    requires Inv(m) && IsProc(m, p) && m.procs[p].state == Runnable
    requires Leads(m, run, m') && NeverDispatched(m, run, p)
    ensures IsProc(m', p) && m'.procs[p].state == Runnable && m'.procs[p].started == m.procs[p].started
    decreases |run|
  {
    hide Inv, Enabled, Apply;
    if run != [] {
      var e := run[0];
      StepKeeps(m, e.c, e.st);
      StateStays(m, e, p);
      StateStep(m, e, p);
      StartedStays(m, e, p);
      Ready(Apply(m, e.c, e.st), p, run[1..], m');
    }
  }

  lemma {:induction false} StartedStays(m: Machine, e: Event, p: int)
    requires Enabled(m, e.c, e.st) && IsProc(m, p) && m.procs[p].state == Runnable && !Dispatches(m, e, p)
    ensures IsProc(Apply(m, e.c, e.st), p) && Apply(m, e.c, e.st).procs[p].started == m.procs[p].started
  {
  }

  /** A new process starts with the interrupt state its CPU's scheduler had before taking the lock. */
  lemma {:induction false} NewThreadIntr(m: Machine, e: Event, p: int, run: seq<Event>, m': Machine, d: int)
    requires Inv(m) && Enabled(m, e.c, e.st) && IsProc(m, p) && m.procs[p].state == Unused
    requires e.st == Change(p, Runnable)
    requires var m1 := Apply(m, e.c, e.st); Leads(m1, run, m') && NeverDispatched(m1, run, p)
    requires Enabled(m', d, Dispatch) && m'.cpus[d].cur == Has(p)
    ensures Apply(m', d, Dispatch).procs[p].want == m'.cpus[d].intena
  {
    StepKeeps(m, e.c, e.st);
    StateStays(m, e, p);
    assert !Apply(m, e.c, e.st).procs[p].started;
    Ready(Apply(m, e.c, e.st), p, run, m');
  }
}
