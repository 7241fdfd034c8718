/**
 A crash in the middle of filewrite (kernel/file.c over kernel/log.c).

 filewrite makes each chunk one operation of the log.  Every run of the kernel is a run of an
 atomic store that commits between operations (LogRefinement), so what recovery finds of
 the file is what it would have found when the call began, or the contents at that moment
 with some number of whole chunks spliced in.

 holds reads a file off the home blocks of a disk; nothing is said here about how
 inodes and their blocks are laid out in them.
 */
module FileCrash {
  import F = Files
  import R = LogRefinement
  import opened LogProtocol
  import opened RedoLog
  import opened Storage

  /** The call: thread t writes src to the file at off, and writei takes so many of the chunks and refuses the next. */
  datatype Call = Call(t: nat, off: nat, src: seq<bv8>, taken: nat)

  /** The bytes of the first k chunks. */
  function Upto(src: seq<bv8>, k: nat): seq<bv8> {
    src[..F.Min(k * F.CHUNK, |src|)]
  }

  /** The bytes of chunk k. */
  function ChunkOf(src: seq<bv8>, k: nat): seq<bv8> {
    src[F.Min(k * F.CHUNK, |src|)..F.Min((k + 1) * F.CHUNK, |src|)]
  }

  /** c' is c with the bytes at off. */
  ghost predicate IsSplice(c': seq<bv8>, c: seq<bv8>, off: nat, bytes: seq<bv8>) {
    if bytes == [] then c' == c else off <= |c| && c' == F.Splice(c, off, bytes)
  }

  /** The operations thread t has ended from step a on, before step n. */
  function Ended(steps: seq<R.Step>, t: nat, a: nat, n: nat): nat
    requires a <= n <= |steps|
  {
    if n == a then 0 else Ended(steps, t, a, n - 1) + if steps[n - 1] == R.EndStep(t) then 1 else 0
  }

  /** The latest commit point from step a on, before step n, or -1. */
  function Latest(steps: seq<R.Step>, a: nat, n: nat): (c: int)
    requires a <= n <= |steps|
    ensures c == -1 || (a <= c < n && steps[c].CommitStep?)
    ensures forall i :: a <= i < n && c < i ==> !steps[i].CommitStep?
  {
    if n == a then -1 else if steps[n - 1].CommitStep? then n - 1 else Latest(steps, a, n - 1)
  }

  /** Steps p and q begin and end one operation of t. */
  predicate IsOp(steps: seq<R.Step>, t: nat, p: int, q: int) {
    && 0 <= p < q < |steps| && steps[p] == R.BeginStep(t) && steps[q] == R.EndStep(t)
    && NoneSince(steps, t, p, q)
  }

  predicate NoneSince(steps: seq<R.Step>, t: nat, p: int, n: int) {
    forall i :: 0 <= p < i < n <= |steps| ==> steps[i] != R.BeginStep(t) && steps[i] != R.EndStep(t)
  }

  /** What the file holds as the threads see it in state i. */
  ghost function Held(l: Layout, holds: seq<Block> -> seq<bv8>, ss: seq<R.State>, i: int): seq<bv8>
    requires 0 <= i < |ss|
  {
    if ss[i].Running? then holds(R.Shown(l, ss[i].disk, ss[i].m)) else []
  }

  /** The call as it goes on from state a of a run to state z. */
  datatype Stretch = Stretch(l: Layout, holds: seq<Block> -> seq<bv8>, call: Call, a: nat, z: nat)

  /**
   A stretch of any run of the kernel, without a crash, in which t writes the file: nobody else changes it, and
   each operation of t does to it what writei does with the next chunk, until one is refused.
   */
  ghost predicate Writes(w: Stretch, ss: seq<R.State>, steps: seq<R.Step>) {
    && LargeEnough(w.l) && R.Run(w.l, ss, steps)
    && w.a <= w.z <= |steps| && ss[w.a].Running? && w.call.t !in ss[w.a].m.ops
    && (forall i :: w.a <= i < w.z ==> !steps[i].CrashStep?)
    && (forall i :: w.a <= i < w.z && steps[i].ModifyStep? && steps[i].t != w.call.t ==>
          Held(w.l, w.holds, ss, i + 1) == Held(w.l, w.holds, ss, i))
    && (forall p, q :: w.a <= p && q < w.z && IsOp(steps, w.call.t, p, q) ==> ChunkDone(w, ss, steps, p, q))
  }

  ghost predicate ChunkDone(w: Stretch, ss: seq<R.State>, steps: seq<R.Step>, p: int, q: int)
    requires |ss| == |steps| + 1 && w.a <= p < q < |steps|
  {
    var k, src, before, after := Ended(steps, w.call.t, w.a, p), w.call.src, Held(w.l, w.holds, ss, p),
        Held(w.l, w.holds, ss, q);
    if k < w.call.taken then IsSplice(after, before, w.call.off + |Upto(src, k)|, ChunkOf(src, k)) else after == before
  }

  /** The bytes that are in the file once t has ended so many operations. */
  function Done(call: Call, ended: nat): seq<bv8> {
    Upto(call.src, if ended < call.taken then ended else call.taken)
  }

  lemma {:induction false} NextUpto(src: seq<bv8>, k: nat)
    ensures Upto(src, k) + ChunkOf(src, k) == Upto(src, k + 1)
  {
  }

  function OpsAfter(ops: set<nat>, step: R.Step): set<nat> {
    match step
    case BeginStep(t) => ops + {t}
    case EndStep(t) => ops - {t}
    case _ => ops
  }

  /** A step that is no change inside an operation leaves what is shown. */
  lemma {:induction false} StepShows(l: Layout, s: R.State, step: R.Step, s': R.State)
    requires R.StateInv(l, s) && R.Next(l, s, step, s') && s.Running? && !step.CrashStep? && !step.ModifyStep?
    ensures s'.Running? && R.Shown(l, s'.disk, s'.m) == R.Shown(l, s.disk, s.m)
    ensures s'.m.ops == OpsAfter(s.m.ops, step)
  {
    hide R.StateInv, R.RunNext, R.Shown;
    R.StepRefines(l, s, step, s');
    AbsIs(l, s);
    AbsIs(l, s');
  }

  lemma {:induction false} AbsIs(l: Layout, s: R.State)
    requires R.StateInv(l, s) && s.Running?
    ensures R.Abs(l, s).current == R.Shown(l, s.disk, s.m) && R.Abs(l, s).ops == s.m.ops
  {
    hide R.StateInv, R.Shown;
  }

  /** A change belongs to an operation in progress. */
  lemma {:induction false} ModifyInOp(l: Layout, s: R.State, step: R.Step, s': R.State)
    requires R.StateInv(l, s) && R.Next(l, s, step, s') && step.ModifyStep?
    ensures s.Running? && s'.Running? && step.t in s.m.ops && s'.m.ops == s.m.ops
  {
    hide R.StateInv;
  }

  /** Between its operations the file holds whole chunks; inside one, it did when the operation began, at p. */
  ghost predicate FileAt(w: Stretch, ss: seq<R.State>, steps: seq<R.Step>, n: nat, p: int)
    requires |ss| == |steps| + 1 && w.a <= n <= |steps|
  {
    var t := w.call.t;
    var now := if ss[n].Running? && t in ss[n].m.ops then p else n;
    && ss[n].Running? && w.a <= now <= n && Ended(steps, t, w.a, now) == Ended(steps, t, w.a, n)
    && IsSplice(Held(w.l, w.holds, ss, now), Held(w.l, w.holds, ss, w.a), w.call.off,
        Done(w.call, Ended(steps, t, w.a, n)))
    && (now < n ==> steps[now] == R.BeginStep(t) && NoneSince(steps, t, now, n))
    && (t in ss[n].m.ops ==> now < n)
  }

  lemma {:induction false} FileKeeps(w: Stretch, ss: seq<R.State>, steps: seq<R.Step>, n: nat) returns (p: int)
    requires Writes(w, ss, steps) && w.a <= n <= w.z
    ensures FileAt(w, ss, steps, n, p)
    decreases n
  {
    hide R.StateInv, R.Next, R.Shown, F.Splice, ChunkOf;
    if n == w.a {
      assert Done(w.call, 0) == [];
      p := n;
    } else {
      p := FileKeeps(w, ss, steps, n - 1);
      R.RunInv(w.l, ss, steps, n - 1);
      p := FileStep(w, ss, steps, n - 1, p);
    }
  }

  lemma {:induction false} FileStep(w: Stretch, ss: seq<R.State>, steps: seq<R.Step>, n: nat, p: int) returns (p': int)
    requires Writes(w, ss, steps) && w.a <= n < w.z && FileAt(w, ss, steps, n, p)
    requires R.StateInv(w.l, ss[n])
    ensures FileAt(w, ss, steps, n + 1, p')
  {
    hide R.StateInv, R.Next, R.Shown, F.Splice, Upto, ChunkOf, Done, IsSplice;
    var l, step, t := w.l, steps[n], w.call.t;
    assert R.Next(l, ss[n], step, ss[n + 1]);
    p' := p;
    if step.ModifyStep? {
      ModifyInOp(l, ss[n], step, ss[n + 1]);
    } else {
      StepShows(l, ss[n], step, ss[n + 1]);
      if step == R.BeginStep(t) {
        p' := n;
        Begins(l, ss[n], t, ss[n + 1]);
      } else if step == R.EndStep(t) {
        Ends(l, ss[n], t, ss[n + 1]);
        assert IsOp(steps, t, p, n);
        assert ChunkDone(w, ss, steps, p, n);
        ChunkAdded(w, ss, steps, p, n);
      }
    }
  }

  lemma {:induction false} Begins(l: Layout, s: R.State, t: nat, s': R.State)
    requires R.StateInv(l, s) && R.Next(l, s, R.BeginStep(t), s')
    ensures s.Running? && t !in s.m.ops
  {
    hide R.StateInv;
  }

  lemma {:induction false} Ends(l: Layout, s: R.State, t: nat, s': R.State)
    requires R.StateInv(l, s) && R.Next(l, s, R.EndStep(t), s')
    ensures s.Running? && t in s.m.ops
  {
    hide R.StateInv;
  }

  lemma {:induction false} ChunkAdded(w: Stretch, ss: seq<R.State>, steps: seq<R.Step>, p: int, q: int)
    requires |ss| == |steps| + 1 && w.a <= p < q < |steps| && ChunkDone(w, ss, steps, p, q)
    requires IsSplice(Held(w.l, w.holds, ss, p), Held(w.l, w.holds, ss, w.a), w.call.off,
                      Done(w.call, Ended(steps, w.call.t, w.a, p)))
    ensures IsSplice(Held(w.l, w.holds, ss, q), Held(w.l, w.holds, ss, w.a), w.call.off,
                     Done(w.call, Ended(steps, w.call.t, w.a, p) + 1))
  {
    hide R.Shown, Upto, ChunkOf, IsSplice;
    var k := Ended(steps, w.call.t, w.a, p);
    if k < w.call.taken {
      SpliceMore(Held(w.l, w.holds, ss, q), Held(w.l, w.holds, ss, p), Held(w.l, w.holds, ss, w.a), w.call.off,
                 Upto(w.call.src, k), ChunkOf(w.call.src, k));
      NextUpto(w.call.src, k);
    }
  }

  lemma {:induction false} SpliceMore(
      after: seq<bv8>, before: seq<bv8>, was: seq<bv8>, off: nat, bytes: seq<bv8>, more: seq<bv8>)
    requires IsSplice(before, was, off, bytes) && IsSplice(after, before, off + |bytes|, more)
    ensures IsSplice(after, was, off, bytes + more)
  {
    hide F.Splice;
    if bytes == [] {
      assert bytes + more == more;
    } else if more == [] {
      assert bytes + more == bytes;
    } else {
      F.SpliceTwice(was, off, bytes, more);
    }
  }

  /**
   Wherever in a run the call begins, whatever the other threads do and whenever the crash comes: if nothing was
   committed since the call began, recovery gives what it would have given then; otherwise the file holds what it
   showed then, with the chunks spliced in that t had ended at the latest commit point.
   */
  lemma {:induction false} FileWriteCrash(w: Stretch, ss: seq<R.State>, steps: seq<R.Step>, n: nat)
    requires Writes(w, ss, steps) && w.a <= n <= w.z
    ensures WellFormed(w.l, ss[w.a].disk) && WellFormed(w.l, ss[n].disk)
    ensures var c, home := Latest(steps, w.a, n), R.Home(w.l, Recovered(w.l, ss[n].disk));
            if c == -1 then home == R.Home(w.l, Recovered(w.l, ss[w.a].disk))
            else IsSplice(w.holds(home), Held(w.l, w.holds, ss, w.a), w.call.off,
                          Done(w.call, Ended(steps, w.call.t, w.a, c)))
  {
    hide R.StateInv, R.Next, R.Init, R.Shown, R.Home, Recovered, WellFormed, F.Splice, Done, IsSplice;
    R.CrashSafety(w.l, ss, steps, w.a);
    R.CrashSafety(w.l, ss, steps, n);
    var c := Latest(steps, w.a, n);
    if c == -1 {
      SameSince(w.l, ss, steps, w.a, n);
    } else {
      R.CommitBetweenOps(w.l, ss, steps, c);
      SameSince(w.l, ss, steps, c + 1, n);
      var p := FileKeeps(w, ss, steps, c);
    }
  }

  /** Without a commit point, what is committed stays. */
  lemma {:induction false} SameSince(l: Layout, ss: seq<R.State>, steps: seq<R.Step>, a: nat, n: nat)
    requires |ss| == |steps| + 1 && a <= n <= |steps| && forall i :: a <= i < n ==> !steps[i].CommitStep?
    ensures R.LastCommitted(l, ss, steps, n) == R.LastCommitted(l, ss, steps, a)
    decreases n
  {
    hide R.Shown, R.Home;
    if a < n {
      SameSince(l, ss, steps, a, n - 1);
    }
  }
}
