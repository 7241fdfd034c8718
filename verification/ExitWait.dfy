/**
 exit, wait, reparent and fork of kernel/proc.c under every interleaving: who is whose
 parent, who reaps whom, and that a parent asleep in wait has nothing to reap.

 A step is what a process does between two lock operations.  Looking at another
 process's parent without its lock, and then taking the lock, are two steps.
 */
module ExitWait {

  const INIT: int := 0
  const NONE: int := -1

  /** Live covers every state but these: asleep in wait, exited but not reaped, unused. */
  datatype Status = Unused | Live | Asleep | Zombie

  /**
   How far a process is in wait (scanning the table, having seen a child, having
   its lock, asleep) or in exit (with its parent noted, with that parent's lock,
   scanning for children, having seen one, having woken the parent).
   */
  datatype Phase =
    | Idle
    | Scan(j: int, kids: bool) | Saw(j: int) | Has(j: int) | Waiting
    | Noted(op: int) | Up(op: int) | Giving(op: int, j: int) | Found(op: int, j: int) | Woke(op: int)

  datatype Table = Table(status: seq<Status>, parent: seq<int>, phase: seq<Phase>, lock: seq<int>)

  predicate Sized(t: Table) {
    |t.status| == |t.parent| == |t.phase| == |t.lock| && 0 < |t.status|
  }

  predicate IsProc(t: Table, p: int) {
    0 <= p < |t.status|
  }

  datatype Step =
    | Fork(np: int)
    | Kill(q: int)
    | WaitStart
    | WaitLook
    | WaitLock
    | WaitReap
    | WaitFault
    | WaitNext
    | WaitQuit
    | WaitSleep
    | WaitWake
    | ExitWakeInit
    | ExitNote
    | ExitLockParent
    | ExitLockSelf
    | ExitLook
    | ExitGive
    | ExitWake
    | ExitZombie

  predicate ChildOf(t: Table, i: int, p: int)
    requires Sized(t)
  {
    IsProc(t, i) && t.parent[i] == p
  }

  predicate Free(t: Table, l: int)
    requires Sized(t)
  {
    IsProc(t, l) && t.lock[l] == NONE
  }

  predicate Enabled(t: Table, p: int, st: Step) {
    && Sized(t) && IsProc(t, p) && t.status[p] == Live
    && var ph := t.phase[p];
       match st
       case Fork(np) => ph == Idle && Free(t, np) && t.status[np] == Unused
       case Kill(q) => ph == Idle && Free(t, q) && t.status[q] == Asleep
       case WaitStart => ph == Idle && Free(t, p)
       case WaitLook => ph.Scan? && IsProc(t, ph.j)
       case WaitLock => ph.Saw? && Free(t, ph.j)
       case WaitReap => ph.Has? && IsProc(t, ph.j) && t.status[ph.j] == Zombie
       case WaitFault => ph.Has? && IsProc(t, ph.j) && t.status[ph.j] == Zombie
       case WaitNext => ph.Has? && IsProc(t, ph.j) && t.status[ph.j] != Zombie
       case WaitQuit => ph.Scan? && ph.j == |t.status|
       case WaitSleep => ph.Scan? && ph.j == |t.status| && ph.kids
       case WaitWake => ph == Waiting && Free(t, p)
       case ExitWakeInit => ph == Idle && p != INIT && Free(t, INIT)
       case ExitNote => ph == Idle && p != INIT && Free(t, p)
       case ExitLockParent => ph.Noted? && Free(t, ph.op)
       case ExitLockSelf => ph.Up? && Free(t, p)
       case ExitLook => ph.Giving? && IsProc(t, ph.j)
       case ExitGive => ph.Found? && Free(t, ph.j)
       case ExitWake => ph.Giving? && ph.j == |t.status|
       case ExitZombie => ph.Woke? && IsProc(t, ph.op)
  }

  function WithPhase(t: Table, p: int, ph: Phase): Table
    requires Sized(t) && IsProc(t, p)
  {
    t.(phase := t.phase[p := ph])
  }

  function WithLock(t: Table, l: int, p: int): Table
    requires Sized(t) && IsProc(t, l)
  {
    t.(lock := t.lock[l := p])
  }

  function WithStatus(t: Table, q: int, s: Status): Table
    requires Sized(t) && IsProc(t, q)
  {
    t.(status := t.status[q := s])
  }

  /** wakeup1: q is made runnable if it sleeps in wait. */
  function Woken(t: Table, q: int): Table
    requires Sized(t) && IsProc(t, q)
  {
    if t.status[q] == Asleep then WithStatus(t, q, Live) else t
  }

  function Apply(t: Table, p: int, st: Step): Table
    requires Enabled(t, p, st)
  {
    var ph := t.phase[p];
    match st
    case Fork(np) => t.(status := t.status[np := Live], parent := t.parent[np := p], phase := t.phase[np := Idle])
    case Kill(q) => Woken(t, q)
    case WaitStart => WithPhase(WithLock(t, p, p), p, Scan(0, false))
    case WaitLook => if t.parent[ph.j] == p then WithPhase(t, p, Saw(ph.j))
        else WithPhase(t, p, Scan(ph.j + 1, ph.kids))
    case WaitLock => WithPhase(WithLock(t, ph.j, p), p, Has(ph.j))
    case WaitReap =>
      var t1 := t.(status := t.status[ph.j := Unused], parent := t.parent[ph.j := NONE]);
      WithPhase(WithLock(WithLock(t1, ph.j, NONE), p, NONE), p, Idle)
    case WaitFault => WithPhase(WithLock(WithLock(t, ph.j, NONE), p, NONE), p, Idle)
    case WaitNext => WithPhase(WithLock(t, ph.j, NONE), p, Scan(ph.j + 1, true))
    case WaitQuit => WithPhase(WithLock(t, p, NONE), p, Idle)
    case WaitSleep => WithPhase(WithLock(WithStatus(t, p, Asleep), p, NONE), p, Waiting)
    case WaitWake => WithPhase(WithLock(t, p, p), p, Scan(0, false))
    case ExitWakeInit => Woken(t, INIT)
    case ExitNote => WithPhase(t, p, Noted(t.parent[p]))
    case ExitLockParent => WithPhase(WithLock(t, ph.op, p), p, Up(ph.op))
    case ExitLockSelf => WithPhase(WithLock(t, p, p), p, Giving(ph.op, 0))
    case ExitLook => if t.parent[ph.j] == p then WithPhase(t, p, Found(ph.op, ph.j))
        else WithPhase(t, p, Giving(ph.op, ph.j + 1))
    case ExitGive => WithPhase(t.(parent := t.parent[ph.j := INIT]), p, Giving(ph.op, ph.j + 1))
    case ExitWake => if IsProc(t, ph.op) then WithPhase(Woken(t, ph.op), p, Woke(ph.op)) else t
    case ExitZombie => WithPhase(WithLock(WithLock(WithStatus(t, p, Zombie), ph.op, NONE), p, NONE), p, Idle)
  }

  // ------------------------------------------------------------------
  // The invariant

  predicate Alive(s: Status) {
    s == Live || s == Asleep
  }

  /** A process's parent has not exited; an unused entry has none. */
  predicate ParentAt(t: Table, q: int)
    requires Sized(t)
  {
    IsProc(t, q) ==>
      && (t.status[q] == Unused ==> t.parent[q] == NONE)
      && (q == INIT ==> t.parent[q] == NONE && Alive(t.status[q]))
      && (q != INIT && t.status[q] != Unused ==>
          IsProc(t, t.parent[q]) && t.parent[q] != q && Alive(t.status[t.parent[q]]))
  }

  predicate NoZombieChild(status: seq<Status>, parent: seq<int>, p: int, n: int) {
    forall i :: 0 <= i < n && i < |status| && i < |parent| ==> !(parent[i] == p && status[i] == Zombie)
  }

  predicate NoChild(parent: seq<int>, p: int, n: int) {
    forall i :: 0 <= i < n && i < |parent| ==> parent[i] != p
  }

  /** The parent noted in exit is the parent still, unless that one has given the process to init. */
  predicate OpOk(t: Table, p: int, op: int)
    requires Sized(t) && IsProc(t, p)
  {
    p != INIT && IsProc(t, op) && op != p && (t.parent[p] == op || t.parent[p] == INIT)
  }

  predicate PhaseAt(t: Table, p: int)
    requires Sized(t)
  {
    IsProc(t, p) ==>
      && (t.status[p] == Asleep ==> t.phase[p] == Waiting)
      && (t.status[p] == Zombie || t.status[p] == Unused ==> t.phase[p] == Idle)
      && (t.status[p] == Asleep && p != INIT ==> NoZombieChild(t.status, t.parent, p, |t.status|))
      && match t.phase[p] {
           case Idle => true
           case Scan(j, kids) => 0 <= j <= |t.status| && t.lock[p] == p &&
               (p != INIT ==> NoZombieChild(t.status, t.parent, p, j))
           case Saw(j) => IsProc(t, j) && t.lock[p] == p && t.parent[j] == p &&
               (p != INIT ==> NoZombieChild(t.status, t.parent, p, j))
           case Has(j) => IsProc(t, j) && t.lock[p] == p && t.lock[j] == p && t.parent[j] == p &&
               (p != INIT ==> NoZombieChild(t.status, t.parent, p, j))
           case Waiting => true
           case Noted(op) => OpOk(t, p, op)
           case Up(op) => OpOk(t, p, op) && t.lock[op] == p
           case Giving(op, j) => OpOk(t, p, op) && t.lock[op] == p && t.lock[p] == p && 0 <= j <= |t.status| &&
               NoChild(t.parent, p, j)
           case Found(op, j) => OpOk(t, p, op) && t.lock[op] == p && t.lock[p] == p && IsProc(t, j) &&
               NoChild(t.parent, p, j) && t.parent[j] == p
           case Woke(op) => OpOk(t, p, op) && t.lock[op] == p && t.lock[p] == p &&
               NoChild(t.parent, p, |t.status|) && t.status[op] != Asleep
         }
  }

  ghost predicate Inv(t: Table) {
    && Sized(t)
    && (forall q :: ParentAt(t, q))
    && (forall p :: PhaseAt(t, p))
  }

  // ------------------------------------------------------------------
  // Every step keeps the invariant

  /** A process that moves on without touching anything shared. */
  lemma {:induction false} PhaseOnly(t: Table, p: int, ph: Phase)
    requires Inv(t) && IsProc(t, p) && PhaseAt(WithPhase(t, p, ph), p)
    ensures Inv(WithPhase(t, p, ph))
  {
    var t' := WithPhase(t, p, ph);
    forall q ensures ParentAt(t', q) {
      assert ParentAt(t, q);
    }
    forall q ensures PhaseAt(t', q) {
      assert PhaseAt(t, q);
    }
  }

  /** The locks a process holds in a phase. */
  predicate Claims(ph: Phase, p: int, l: int) {
    || (l == p && (ph.Scan? || ph.Saw? || ph.Has? || ph.Giving? || ph.Found? || ph.Woke?))
    || (ph.Has? && l == ph.j)
    || ((ph.Up? || ph.Giving? || ph.Found? || ph.Woke?) && l == ph.op)
  }

  lemma {:induction false} LockKeeps(t: Table, l: int, p: int)
    requires Inv(t) && Free(t, l)
    ensures Inv(WithLock(t, l, p))
  {
    var t' := WithLock(t, l, p);
    forall q ensures ParentAt(t', q) {
      assert ParentAt(t, q);
    }
    forall q ensures PhaseAt(t', q) {
      assert PhaseAt(t, q);
    }
  }

  lemma {:induction false} UnlockKeeps(t: Table, l: int, p: int)
    requires Inv(t) && IsProc(t, p) && IsProc(t, l) && t.lock[l] == p && !Claims(t.phase[p], p, l)
    ensures Inv(WithLock(t, l, NONE))
  {
    var t' := WithLock(t, l, NONE);
    forall q ensures ParentAt(t', q) {
      assert ParentAt(t, q);
    }
    forall q ensures PhaseAt(t', q) {
      assert PhaseAt(t, q);
    }
  }

  /** wakeup1 and kill. */
  lemma {:induction false} WokenKeeps(t: Table, k: int)
    requires Inv(t) && IsProc(t, k)
    ensures Inv(Woken(t, k))
  {
    var t' := Woken(t, k);
    assert PhaseAt(t, k);
    forall q ensures ParentAt(t', q) {
      assert ParentAt(t, q);
    }
    forall q ensures PhaseAt(t', q) {
      assert PhaseAt(t, q);
    }
  }

  lemma {:induction false} ForkKeeps(t: Table, p: int, np: int)
    requires Inv(t) && Enabled(t, p, Fork(np))
    ensures Inv(Apply(t, p, Fork(np)))
  {
    var t' := Apply(t, p, Fork(np));
    assert ParentAt(t, np) && PhaseAt(t, np);
    forall q ensures ParentAt(t', q) {
      assert ParentAt(t, q);
    }
    forall q ensures PhaseAt(t', q) {
      assert PhaseAt(t, q) && ParentAt(t, q);
    }
  }

  /** Reaping: a zombie has no children, so its entry can be cleared. */
  lemma {:induction false} ReapKeeps(t: Table, p: int)
    requires Inv(t) && Enabled(t, p, WaitReap)
    ensures var j := t.phase[p].j;
              Inv(WithPhase(t.(status := t.status[j := Unused], parent := t.parent[j := NONE]), p, Idle))
  {
    hide PhaseAt;
    var j := t.phase[p].j;
    var t' := WithPhase(t.(status := t.status[j := Unused], parent := t.parent[j := NONE]), p, Idle);
    HasLocks(t, p);
    assert ParentAt(t, j);
    forall q ensures ParentAt(t', q) {
      assert ParentAt(t, q);
    }
    forall q ensures PhaseAt(t', q) {
      ReapPhase(t, p, q);
    }
  }

  lemma {:induction false} ReapPhase(t: Table, p: int, q: int)
    requires Inv(t) && Enabled(t, p, WaitReap)
    ensures var j := t.phase[p].j;
              PhaseAt(WithPhase(t.(status := t.status[j := Unused], parent := t.parent[j := NONE]), p, Idle), q)
  {
    hide ParentAt;
    assert PhaseAt(t, p) && PhaseAt(t, t.phase[p].j) && PhaseAt(t, q);
  }

  /** Going to sleep after a whole scan: no child is a zombie, and none can have become one meanwhile. */
  lemma {:induction false} SleepKeeps(t: Table, p: int)
    requires Inv(t) && Enabled(t, p, WaitSleep)
    ensures Inv(WithPhase(WithStatus(t, p, Asleep), p, Waiting))
  {
    var t' := WithPhase(WithStatus(t, p, Asleep), p, Waiting);
    assert PhaseAt(t, p);
    forall q ensures ParentAt(t', q) {
      assert ParentAt(t, q);
    }
    forall q ensures PhaseAt(t', q) {
      assert PhaseAt(t, q);
    }
  }

  lemma {:induction false} GiveKeeps(t: Table, p: int)
    requires Inv(t) && Enabled(t, p, ExitGive)
    ensures Inv(Apply(t, p, ExitGive))
  {
    var t', j := Apply(t, p, ExitGive), t.phase[p].j;
    assert PhaseAt(t, p) && ParentAt(t, INIT) && ParentAt(t, j);
    forall q ensures ParentAt(t', q) {
      assert ParentAt(t, q);
    }
    GiveOwn(t, p);
    forall q ensures PhaseAt(t', q) {
      if q != p {
        GiveOther(t, p, q);
      }
    }
  }

  lemma {:induction false} GiveOwn(t: Table, p: int)
    requires Inv(t) && Enabled(t, p, ExitGive)
    ensures PhaseAt(Apply(t, p, ExitGive), p)
  {
    assert PhaseAt(t, p);
  }

  lemma {:induction false} GiveOther(t: Table, p: int, q: int)
    requires Inv(t) && Enabled(t, p, ExitGive) && q != p
    ensures PhaseAt(Apply(t, p, ExitGive), q)
  {
    assert PhaseAt(t, p) && PhaseAt(t, q);
  }

  /** Becoming a zombie, with the noted parent awake and locked and no children left. */
  lemma {:induction false} ZombieKeeps(t: Table, p: int)
    requires Inv(t) && Enabled(t, p, ExitZombie)
    ensures Inv(WithPhase(WithStatus(t, p, Zombie), p, Idle))
  {
    hide PhaseAt;
    var t' := WithPhase(WithStatus(t, p, Zombie), p, Idle);
    ZombieChildless(t, p);
    forall q ensures ParentAt(t', q) {
      assert ParentAt(t, q);
    }
    forall q ensures PhaseAt(t', q) {
      ZombiePhase(t, p, q);
    }
  }

  lemma {:induction false} ZombieChildless(t: Table, p: int)
    requires Inv(t) && Enabled(t, p, ExitZombie)
    ensures p != INIT && forall i :: IsProc(t, i) ==> t.parent[i] != p
  {
    assert PhaseAt(t, p);
  }

  lemma {:induction false} ZombiePhase(t: Table, p: int, q: int)
    requires Inv(t) && Enabled(t, p, ExitZombie)
    ensures PhaseAt(WithPhase(WithStatus(t, p, Zombie), p, Idle), q)
  {
    assert PhaseAt(t, p) && PhaseAt(t, q) && PhaseAt(t, t.phase[p].op) && ParentAt(t, INIT) && ParentAt(t, p);
  }

  lemma {:induction false} WaitKeeps(t: Table, p: int, st: Step)
    requires Inv(t) && Enabled(t, p, st)
    requires st.WaitStart? || st.WaitLook? || st.WaitLock? || st.WaitNext? || st.WaitWake? || st.WaitQuit? ||
               st.WaitFault?
    ensures Inv(Apply(t, p, st))
  {
    hide Inv, NoZombieChild;
    assert PhaseAt(t, p) && ParentAt(t, p) && Sized(t) by { InvIs(t, p); }
    var ph := t.phase[p];
    match st {
      case WaitStart => ScanNone(t, p); LockKeeps(t, p, p); PhaseOnly(WithLock(t, p, p), p, Scan(0, false));
      case WaitWake => ScanNone(t, p); LockKeeps(t, p, p); PhaseOnly(WithLock(t, p, p), p, Scan(0, false));
      case WaitLook =>
        ScanNext(t, p, ph.j);
        PhaseOnly(t, p, if t.parent[ph.j] == p then Saw(ph.j) else Scan(ph.j + 1, ph.kids));
      case WaitLock => LockKeeps(t, ph.j, p); PhaseOnly(WithLock(t, ph.j, p), p, Has(ph.j));
      case WaitNext =>
        ScanNext(t, p, ph.j);
        PhaseOnly(t, p, Scan(ph.j + 1, true));
        var t1 := WithPhase(t, p, Scan(ph.j + 1, true));
        UnlockKeeps(t1, ph.j, p);
      case WaitQuit => PhaseOnly(t, p, Idle); UnlockKeeps(WithPhase(t, p, Idle), p, p);
      case WaitFault =>
        PhaseOnly(t, p, Idle);
        UnlockKeeps(WithPhase(t, p, Idle), ph.j, p);
        UnlockKeeps(WithLock(WithPhase(t, p, Idle), ph.j, NONE), p, p);
    }
  }

  lemma {:induction false} InvIs(t: Table, p: int)
    requires Inv(t)
    ensures Sized(t) && PhaseAt(t, p) && ParentAt(t, p)
  {
  }

  lemma {:induction false} ScanNone(t: Table, p: int)
    requires Sized(t)
    ensures NoZombieChild(t.status, t.parent, p, 0)
  {
  }

  lemma {:induction false} ScanNext(t: Table, p: int, j: nat)
    requires Sized(t) && IsProc(t, j)
    ensures NoZombieChild(t.status, t.parent, p, j) && !(t.parent[j] == p && t.status[j] == Zombie) ==>
              NoZombieChild(t.status, t.parent, p, j + 1)
  {
  }

  lemma {:induction false} ExitKeeps(t: Table, p: int, st: Step)
    requires Inv(t) && Enabled(t, p, st)
    requires st.ExitNote? || st.ExitLockParent? || st.ExitLockSelf? || st.ExitLook? || st.ExitWake?
    ensures Inv(Apply(t, p, st))
  {
    hide Inv, NoChild, NoZombieChild;
    assert PhaseAt(t, p) && ParentAt(t, p) && Sized(t) by { InvIs(t, p); }
    var ph := t.phase[p];
    match st {
      case ExitNote => PhaseOnly(t, p, Noted(t.parent[p]));
      case ExitLockParent => LockKeeps(t, ph.op, p); PhaseOnly(WithLock(t, ph.op, p), p, Up(ph.op));
      case ExitLockSelf => GiveNone(t.parent, p); LockKeeps(t, p, p); PhaseOnly(WithLock(t, p, p), p, Giving(ph.op, 0));
      case ExitLook =>
        GiveNext(t.parent, p, ph.j);
        PhaseOnly(t, p, if t.parent[ph.j] == p then Found(ph.op, ph.j) else Giving(ph.op, ph.j + 1));
      case ExitWake => WokenKeeps(t, ph.op); PhaseOnly(Woken(t, ph.op), p, Woke(ph.op));
    }
  }

  lemma {:induction false} GiveNone(parent: seq<int>, p: int)
    ensures NoChild(parent, p, 0)
  {
  }

  lemma {:induction false} GiveNext(parent: seq<int>, p: int, j: nat)
    requires j < |parent|
    ensures NoChild(parent, p, j) && parent[j] != p ==> NoChild(parent, p, j + 1)
  {
  }

  lemma {:induction false} StepKeeps(t: Table, p: int, st: Step)
    requires Inv(t) && Enabled(t, p, st)
    ensures Inv(Apply(t, p, st))
  {
    hide Inv, PhaseAt, ParentAt;
    match st {
      case Fork(np) => ForkKeeps(t, p, np);
      case Kill(q) => WokenKeeps(t, q);
      case ExitWakeInit => WokenKeeps(t, INIT);
      case WaitReap =>
        ReapKeeps(t, p);
        HasLocks(t, p);
        var j := t.phase[p].j;
        var t1 := WithPhase(t.(status := t.status[j := Unused], parent := t.parent[j := NONE]), p, Idle);
        UnlockKeeps(t1, j, p);
        UnlockKeeps(WithLock(t1, j, NONE), p, p);
      case WaitSleep =>
        SleepKeeps(t, p);
        ScanLock(t, p);
        UnlockKeeps(WithPhase(WithStatus(t, p, Asleep), p, Waiting), p, p);
      case ExitGive => GiveKeeps(t, p);
      case ExitZombie =>
        ZombieKeeps(t, p);
        WokeLocks(t, p);
        var t1 := WithPhase(WithStatus(t, p, Zombie), p, Idle);
        UnlockKeeps(t1, t.phase[p].op, p);
        UnlockKeeps(WithLock(t1, t.phase[p].op, NONE), p, p);
      case WaitStart => WaitKeeps(t, p, st);
      case WaitLook => WaitKeeps(t, p, st);
      case WaitLock => WaitKeeps(t, p, st);
      case WaitFault => WaitKeeps(t, p, st);
      case WaitNext => WaitKeeps(t, p, st);
      case WaitQuit => WaitKeeps(t, p, st);
      case WaitWake => WaitKeeps(t, p, st);
      case ExitNote => ExitKeeps(t, p, st);
      case ExitLockParent => ExitKeeps(t, p, st);
      case ExitLockSelf => ExitKeeps(t, p, st);
      case ExitLook => ExitKeeps(t, p, st);
      case ExitWake => ExitKeeps(t, p, st);
    }
  }

  lemma {:induction false} HasLocks(t: Table, p: int)
    requires Inv(t) && IsProc(t, p) && t.phase[p].Has?
    ensures var j := t.phase[p].j; IsProc(t, j) && t.lock[j] == p && t.lock[p] == p && j != p && t.parent[j] == p
  {
    assert PhaseAt(t, p) && ParentAt(t, p);
  }

  lemma {:induction false} ScanLock(t: Table, p: int)
    requires Inv(t) && IsProc(t, p) && t.phase[p].Scan?
    ensures t.lock[p] == p
  {
    assert PhaseAt(t, p);
  }

  lemma {:induction false} WokeLocks(t: Table, p: int)
    requires Inv(t) && IsProc(t, p) && t.phase[p].Woke?
    ensures var op := t.phase[p].op; IsProc(t, op) && t.lock[op] == p && t.lock[p] == p && op != p
  {
    assert PhaseAt(t, p);
  }

  // ------------------------------------------------------------------
  // Runs

  datatype Event = Event(p: int, st: Step)

  ghost predicate Leads(t: Table, run: seq<Event>, t': Table)
    decreases |run|
  {
    if run == [] then t == t'
    else Enabled(t, run[0].p, run[0].st) && Leads(Apply(t, run[0].p, run[0].st), run[1..], t')
  }

  /** init alone. */
  ghost predicate Start(t: Table) {
    && Sized(t) && t.status[INIT] == Live && t.phase[INIT] == Idle && t.parent[INIT] == NONE
    && forall p :: IsProc(t, p) && p != INIT ==> t.status[p] == Unused && t.phase[p] == Idle && t.parent[p] == NONE
  }

  lemma {:induction false} RunKeeps(t: Table, run: seq<Event>, t': Table)
    requires Inv(t) && Leads(t, run, t')
    ensures Inv(t')
    decreases |run|
  {
    hide Inv, Enabled, Apply;
    if run != [] {
      StepKeeps(t, run[0].p, run[0].st);
      RunKeeps(Apply(t, run[0].p, run[0].st), run[1..], t');
    }
  }

  /**
   In every state of every run: no process has an exited one as its parent, and a parent
   other than init that is asleep in wait has no child to reap.
   */
  lemma {:induction false} NobodyForgotten(t0: Table, run: seq<Event>, t: Table, p: int)
    requires Start(t0) && Leads(t0, run, t) && IsProc(t, p)
    ensures Sized(t)
    ensures p != INIT && t.status[p] != Unused ==> IsProc(t, t.parent[p]) && Alive(t.status[t.parent[p]])
    ensures p != INIT && t.status[p] == Asleep ==> forall i :: IsProc(t, i) && t.parent[i] == p ==>
              t.status[i] != Zombie
  {
    RunKeeps(t0, run, t);
    assert ParentAt(t, p) && PhaseAt(t, p);
  }

  /**
   A zombie is reaped by the process that is its parent at that moment, is reaped no second time,
   and leaves nobody behind.
   */
  lemma {:induction false} ReapedByParent(t: Table, p: int)
    requires Inv(t) && Enabled(t, p, WaitReap)
    ensures var j, t' := t.phase[p].j, Apply(t, p, WaitReap);
            && t.parent[j] == p && t.status[j] == Zombie && t'.status[j] == Unused
            && forall i :: IsProc(t, i) && i != j ==>
                t'.status[i] == t.status[i] && t'.parent[i] == t.parent[i] && t.parent[i] != j
  {
    HasLocks(t, p);
    var j := t.phase[p].j;
    forall i | IsProc(t, i) ensures t.parent[i] != j {
      assert ParentAt(t, i);
    }
  }

  // ------------------------------------------------------------------
  // Waking

  /** The step wakes q: kill, exit's first step for init, or exit's wakeup of the parent it noted. */
  predicate Wakes(t: Table, e: Event, q: int) {
    && Enabled(t, e.p, e.st)
    && (e.st == Kill(q) || (e.st == ExitWakeInit && q == INIT) || (e.st == ExitWake && t.phase[e.p].op == q))
  }

  /**
   A process woken in wait is asleep no more until it has scanned its children again; and until it
   moves, it can begin to as soon as its lock is free.
   */
  lemma {:induction false} AwakeUntilSleep(t: Table, e: Event, q: int, run: seq<Event>, t': Table)
    requires Inv(t) && IsProc(t, q) && t.status[q] == Asleep && Wakes(t, e, q)
    requires Leads(Apply(t, e.p, e.st), run, t')
    ensures Sized(t') && IsProc(t', q)
    ensures Event(q, WaitSleep) !in run ==> t'.status[q] != Asleep
    ensures (forall k :: 0 <= k < |run| ==> run[k].p != q) && Free(t', q) ==> Enabled(t', q, WaitWake)
  {
    StepKeeps(t, e.p, e.st);
    assert PhaseAt(t, q);
    Awake(Apply(t, e.p, e.st), q, run, t');
  }

  lemma {:induction false} Awake(t: Table, q: int, run: seq<Event>, t': Table)
    requires Inv(t) && IsProc(t, q) && t.status[q] != Asleep && Leads(t, run, t')
    ensures Sized(t') && IsProc(t', q)
    ensures Event(q, WaitSleep) !in run ==> t'.status[q] != Asleep
    ensures t.status[q] == Live && (forall k :: 0 <= k < |run| ==> run[k].p != q) ==>
              t'.status[q] == Live && t'.phase[q] == t.phase[q]
    decreases |run|
  {
    hide Inv, Enabled, Apply;
    SizedIs(t);
    if run != [] {
      var e, t1 := run[0], Apply(t, run[0].p, run[0].st);
      assert run == [e] + run[1..];
      StepKeeps(t, e.p, e.st);
      SizedIs(t1);
      OwnMove(t, e, q);
      if t1.status[q] != Asleep {
        Awake(t1, q, run[1..], t');
      } else {
        SameProcs(t1, run[1..], t');
      }
    }
  }

  lemma SizedIs(t: Table)
    requires Inv(t)
    ensures Sized(t)
  {
  }

  lemma {:induction false} OwnMove(t: Table, e: Event, q: int)
    requires Sized(t) && Enabled(t, e.p, e.st) && IsProc(t, q) && t.status[q] != Asleep
    ensures var t' := Apply(t, e.p, e.st);
            && Sized(t') && |t'.status| == |t.status|
            && (t'.status[q] == Asleep ==> e == Event(q, WaitSleep))
            && (e.p != q && t.status[q] == Live ==> t'.status[q] == Live && t'.phase[q] == t.phase[q])
  {
  }

  lemma {:induction false} SameProcs(t: Table, run: seq<Event>, t': Table)
    requires Sized(t) && Leads(t, run, t')
    ensures Sized(t') && |t'.status| == |t.status|
    decreases |run|
  {
    hide Enabled, Apply;
    if run != [] {
      SameSize(t, run[0]);
      SameProcs(Apply(t, run[0].p, run[0].st), run[1..], t');
    }
  }

  lemma SameSize(t: Table, e: Event)
    requires Enabled(t, e.p, e.st)
    ensures Sized(Apply(t, e.p, e.st)) && |Apply(t, e.p, e.st).status| == |t.status|
  {
  }

  // ------------------------------------------------------------------
  // init, to which children come without its lock

  /** init is asleep in wait, or its scan has passed c. */
  predicate Past(t: Table, c: int)
    requires Sized(t)
  {
    || t.status[INIT] == Asleep
    || ((t.phase[INIT].Scan? || t.phase[INIT].Saw? || t.phase[INIT].Has?) && c < t.phase[INIT].j)
  }

  /** What every other process is sure of: no child that init has passed is a zombie. */
  ghost predicate InitSees(t: Table)
    requires Sized(t)
  {
    forall c :: IsProc(t, c) && t.parent[c] == INIT && t.status[c] == Zombie ==> !Past(t, c)
  }

  /** A zombie is given to init, or a process given to it becomes one, when init has passed it. */
  predicate Misses(t: Table, p: int, st: Step)
    requires Enabled(t, p, st)
  {
    match st
    case ExitGive => t.status[t.phase[p].j] == Zombie && Past(t, t.phase[p].j)
    case ExitZombie => t.parent[p] == INIT && Past(t, p)
    case _ => false
  }

  /** init is sure of its children up to the first step that misses it. */
  lemma {:induction false} InitExactly(t: Table, p: int, st: Step)
    requires Inv(t) && InitSees(t) && Enabled(t, p, st)
    ensures Sized(Apply(t, p, st)) && (InitSees(Apply(t, p, st)) <==> !Misses(t, p, st))
  {
  }

  /** No step of the run misses init. */
  ghost predicate Careful(t: Table, run: seq<Event>)
    decreases |run|
  {
    run == [] || (Enabled(t, run[0].p, run[0].st) && !Misses(t, run[0].p, run[0].st)
                  && Careful(Apply(t, run[0].p, run[0].st), run[1..]))
  }

  lemma {:induction false} CarefulKeeps(t: Table, run: seq<Event>, t': Table)
    requires Inv(t) && InitSees(t) && Leads(t, run, t') && Careful(t, run)
    ensures Inv(t') && InitSees(t')
    decreases |run|
  {
    hide Inv, Enabled, Apply, InitSees, Misses;
    if run != [] {
      StepKeeps(t, run[0].p, run[0].st);
      InitExactly(t, run[0].p, run[0].st);
      CarefulKeeps(Apply(t, run[0].p, run[0].st), run[1..], t');
    }
  }

  /** In a run without such a step init too sleeps only when it has nothing to reap. */
  lemma {:induction false} InitNotForgotten(t0: Table, run: seq<Event>, t: Table)
    requires Start(t0) && Leads(t0, run, t) && Careful(t0, run)
    ensures Sized(t)
    ensures t.status[INIT] == Asleep ==> forall i :: IsProc(t, i) && t.parent[i] == INIT ==> t.status[i] != Zombie
  {
    CarefulKeeps(t0, run, t);
  }

  // A run in which init sleeps over a zombie.  1 is init's child, 2 is 1's and 3 is 2's.  3 exits; 2
  // begins to exit and wakes init; init looks, finds nothing and sleeps; then 2 gives it 3.

  const ALONE: Table := Table([Live, Unused, Unused, Unused], [NONE, NONE, NONE, NONE], [Idle, Idle, Idle, Idle],
      [NONE, NONE, NONE, NONE])
  const FORKED: Table := Table([Live, Live, Live, Live], [NONE, 0, 1, 2], [Idle, Idle, Idle, Idle],
      [NONE, NONE, NONE, NONE])
  const LOOKED: Table := Table([Live, Live, Live, Live], [NONE, 0, 1, 2], [Idle, Idle, Idle, Giving(2, 4)],
      [NONE, NONE, 3, 3])
  const NOTED: Table := Table([Live, Live, Live, Zombie], [NONE, 0, 1, 2], [Idle, Idle, Noted(1), Idle],
      [NONE, NONE, NONE, NONE])
  const SCANNED: Table := Table([Live, Live, Live, Zombie], [NONE, 0, 1, 2], [Scan(2, true), Idle, Noted(1), Idle],
      [0, NONE, NONE, NONE])
  const SLEPT: Table := Table([Asleep, Live, Live, Zombie], [NONE, 0, 1, 2], [Waiting, Idle, Noted(1), Idle],
      [NONE, NONE, NONE, NONE])
  const FOUND: Table := Table([Asleep, Live, Live, Zombie], [NONE, 0, 1, 2], [Waiting, Idle, Found(1, 3), Idle],
      [NONE, 2, 2, NONE])
  const FORGOT: Table := Table([Asleep, Live, Zombie, Zombie], [NONE, 0, 1, 0], [Waiting, Idle, Idle, Idle],
      [NONE, NONE, NONE, NONE])

  lemma {:induction false} Go(t0: Table, run: seq<Event>, t: Table, p: int, st: Step)
      returns (run': seq<Event>, t': Table)
    requires Leads(t0, run, t) && Enabled(t, p, st)
    ensures t' == Apply(t, p, st) && Leads(t0, run', t')
  {
    hide Enabled, Apply;
    run', t' := run + [Event(p, st)], Apply(t, p, st);
    Appended(t0, run, t, Event(p, st));
  }

  lemma {:induction false} Appended(t0: Table, run: seq<Event>, t: Table, e: Event)
    requires Leads(t0, run, t) && Enabled(t, e.p, e.st)
    ensures Leads(t0, run + [e], Apply(t, e.p, e.st))
    decreases |run|
  {
    hide Enabled, Apply;
    if run == [] {
      assert (run + [e])[1..] == [];
    } else {
      assert (run + [e])[1..] == run[1..] + [e];
      Appended(Apply(t0, run[0].p, run[0].st), run[1..], t, e);
    }
  }

  lemma {:induction false} ToForked() returns (run: seq<Event>)
    ensures Leads(ALONE, run, FORKED)
  {
    var t := ALONE;
    run := [];
    run, t := Go(ALONE, run, t, 0, Fork(1));
    run, t := Go(ALONE, run, t, 1, Fork(2));
    run, t := Go(ALONE, run, t, 2, Fork(3));
    assert t == FORKED;
  }

  lemma {:induction false} ToLooked(before: seq<Event>) returns (run: seq<Event>)
    requires Leads(ALONE, before, FORKED)
    ensures Leads(ALONE, run, LOOKED)
  {
    hide Leads;
    var t := FORKED;
    run, t := Go(ALONE, before, t, 3, ExitWakeInit);
    run, t := Go(ALONE, run, t, 3, ExitNote);
    run, t := Go(ALONE, run, t, 3, ExitLockParent);
    run, t := Go(ALONE, run, t, 3, ExitLockSelf);
    run, t := Go(ALONE, run, t, 3, ExitLook);
    run, t := Go(ALONE, run, t, 3, ExitLook);
    run, t := Go(ALONE, run, t, 3, ExitLook);
    run, t := Go(ALONE, run, t, 3, ExitLook);
    assert t == LOOKED;
  }

  lemma {:induction false} ToNoted(before: seq<Event>) returns (run: seq<Event>)
    requires Leads(ALONE, before, LOOKED)
    ensures Leads(ALONE, run, NOTED)
  {
    hide Leads;
    var t := LOOKED;
    run, t := Go(ALONE, before, t, 3, ExitWake);
    run, t := Go(ALONE, run, t, 3, ExitZombie);
    run, t := Go(ALONE, run, t, 2, ExitWakeInit);
    run, t := Go(ALONE, run, t, 2, ExitNote);
    assert t == NOTED;
  }

  lemma {:induction false} ToScanned(before: seq<Event>) returns (run: seq<Event>)
    requires Leads(ALONE, before, NOTED)
    ensures Leads(ALONE, run, SCANNED)
  {
    hide Leads;
    var t := NOTED;
    run, t := Go(ALONE, before, t, 0, WaitStart);
    run, t := Go(ALONE, run, t, 0, WaitLook);
    run, t := Go(ALONE, run, t, 0, WaitLook);
    run, t := Go(ALONE, run, t, 0, WaitLock);
    run, t := Go(ALONE, run, t, 0, WaitNext);
    assert t == SCANNED;
  }

  lemma {:induction false} ToSlept(before: seq<Event>) returns (run: seq<Event>)
    requires Leads(ALONE, before, SCANNED)
    ensures Leads(ALONE, run, SLEPT)
  {
    hide Leads;
    var t := SCANNED;
    run, t := Go(ALONE, before, t, 0, WaitLook);
    run, t := Go(ALONE, run, t, 0, WaitLook);
    run, t := Go(ALONE, run, t, 0, WaitSleep);
    assert t == SLEPT;
  }

  lemma {:induction false} ToFound(before: seq<Event>) returns (run: seq<Event>)
    requires Leads(ALONE, before, SLEPT)
    ensures Leads(ALONE, run, FOUND)
  {
    hide Leads;
    var t := SLEPT;
    run, t := Go(ALONE, before, t, 2, ExitLockParent);
    run, t := Go(ALONE, run, t, 2, ExitLockSelf);
    run, t := Go(ALONE, run, t, 2, ExitLook);
    run, t := Go(ALONE, run, t, 2, ExitLook);
    run, t := Go(ALONE, run, t, 2, ExitLook);
    run, t := Go(ALONE, run, t, 2, ExitLook);
    assert t == FOUND;
  }

  lemma {:induction false} ToForgot(before: seq<Event>) returns (run: seq<Event>)
    requires Leads(ALONE, before, FOUND)
    ensures Leads(ALONE, run, FORGOT)
  {
    hide Leads;
    var t := FOUND;
    run, t := Go(ALONE, before, t, 2, ExitGive);
    run, t := Go(ALONE, run, t, 2, ExitWake);
    run, t := Go(ALONE, run, t, 2, ExitZombie);
    assert t == FORGOT;
  }

  /** A run that leaves init asleep over a zombie, with nobody in exit who would wake it. */
  lemma {:induction false} InitForgotten() returns (run: seq<Event>)
    ensures Start(ALONE) && Leads(ALONE, run, FORGOT)
    ensures FORGOT.status[INIT] == Asleep && FORGOT.parent[3] == INIT && FORGOT.status[3] == Zombie
    ensures forall p :: IsProc(FORGOT, p) && p != INIT ==> FORGOT.phase[p] == Idle
  {
    hide Leads;
    run := ToForked();
    run := ToLooked(run);
    run := ToNoted(run);
    run := ToScanned(run);
    run := ToSlept(run);
    run := ToFound(run);
    run := ToForgot(run);
  }
}
