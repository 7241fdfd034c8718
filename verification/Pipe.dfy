/**
 Pipes of kernel/pipe.c: a ring of 512 bytes between writers and readers, with 32-bit
 counters that wrap.

 A session is what one caller does between taking the pipe's lock and giving it up,
 by returning or by going to sleep; woken callers start another session.  So
 every interleaving of callers is a sequence of sessions.
 */
module Pipe {

  const PIPESIZE: nat := 512
  const UINT: nat := 0x1_0000_0000

  datatype Outcome = Finished | Slept | Failed

  /** Whether the counters say the ring is full, as the source computes it. */
  predicate SeemsFull(nread: int, nwrite: int) {
    nwrite == (nread + PIPESIZE) % UINT
  }

  predicate SeemsEmpty(nread: int, nwrite: int) {
    nread == nwrite
  }

  /** The wrapped counters tell exactly when the ring is full and when it is empty. */
  lemma {:induction false} CountersTell(consumed: nat, appended: nat)
    requires consumed <= appended <= consumed + PIPESIZE
    ensures SeemsFull(consumed % UINT, appended % UINT) <==> appended == consumed + PIPESIZE
    ensures SeemsEmpty(consumed % UINT, appended % UINT) <==> appended == consumed
  {
  }

  lemma {:induction false} Reduce(a: nat, d: nat)
    ensures (a + d) % UINT == (a % UINT + d) % UINT
  {
  }

  lemma {:induction false} NextCount(a: nat)
    ensures (a % UINT + 1) % UINT == (a + 1) % UINT && a % UINT % PIPESIZE == a % PIPESIZE
  {
    Reduce(a, 1);
    Nested(a);
  }

  lemma {:induction false} Nested(a: nat)
    ensures a % UINT % PIPESIZE == a % PIPESIZE
  {
    var q := a / UINT;
    assert a == a % UINT + q * UINT && UINT == 0x80_0000 * PIPESIZE;
    Multiple(a % UINT, q * 0x80_0000);
  }

  lemma {:induction false} Multiple(r: nat, m: nat)
    ensures (r + m * PIPESIZE) % PIPESIZE == r % PIPESIZE
  {
  }

  class Pipe {
    const data: array<bv8>
    var nread: int
    var nwrite: int
    var readopen: bool
    var writeopen: bool
    var writersAsleep: set<int>
    var readersAsleep: set<int>
    ghost var appended: seq<bv8>
    ghost var consumed: nat

    /** The counters are the true counts, wrapped, and the ring holds the bytes between them. */
    ghost predicate Ring()
      reads this, data
    {
      && data.Length == PIPESIZE
      && consumed <= |appended| <= consumed + PIPESIZE
      && nread == consumed % UINT && nwrite == |appended| % UINT
      && forall k :: consumed <= k < |appended| ==> data[k % PIPESIZE] == appended[k]
    }

    ghost predicate Full()
      reads this
    {
      |appended| == consumed + PIPESIZE
    }

    ghost predicate Empty()
      reads this
    {
      |appended| == consumed
    }

    /** A writer asleep has a full pipe and an open reader to wait for. */
    ghost predicate Valid()
      reads this, data
    {
      Ring() && (writersAsleep != {} ==> Full() && readopen)
    }

    /** A reader asleep has an empty pipe and an open writer to wait for. */
    ghost predicate ReadersWait()
      reads this
    {
      readersAsleep != {} ==> Empty() && writeopen
    }

    constructor ()
      ensures Valid() && readersAsleep == {} == writersAsleep && appended == [] && consumed == 0 && readopen &&
                writeopen && fresh(data)
    {
      data := new bv8[PIPESIZE];
      nread, nwrite, readopen, writeopen := 0, 0, true, true;
      writersAsleep, readersAsleep := {}, {};
      appended, consumed := [], 0;
    }

    /** data[nwrite++ % PIPESIZE] = ch, on a ring that is not full. */
    method Append(ch: bv8)
      requires Ring() && !Full()
      modifies this`nwrite, this`appended, data
      ensures Ring() && appended == old(appended) + [ch]
    {
      ghost var n := |appended|;
      NextCount(n);
      data[nwrite % PIPESIZE] := ch;
      nwrite := (nwrite + 1) % UINT;
      appended := appended + [ch];
      forall k | consumed <= k < n ensures data[k % PIPESIZE] == appended[k] {
        Apart(k, n);
      }
    }

    /** ch = data[nread++ % PIPESIZE], on a ring that is not empty. */
    method Take() returns (ch: bv8)
      requires Ring() && !Empty()
      modifies this`nread, this`consumed
      ensures Ring() && ch == appended[old(consumed)] && consumed == old(consumed) + 1
    {
      NextCount(consumed);
      ch := data[nread % PIPESIZE];
      nread := (nread + 1) % UINT;
      consumed := consumed + 1;
    }

    /**
     A session of pipewrite with n bytes still to write, of which src can be copied
     from the caller.  Bytes are appended until there are no more or the pipe is
     full.  A full pipe fails the call if the reader is gone or the caller killed,
     and this return wakes nobody.
     */
    method WriteSession(t: int, n: nat, src: seq<bv8>, killed: bool) returns (o: Outcome, i: nat)
      requires Valid() && |src| <= n
      modifies this, data
      ensures Valid() && consumed == old(consumed) && readopen == old(readopen) && writeopen == old(writeopen)
      ensures var room := PIPESIZE - (|old(appended)| - consumed);
              && i == (if room < |src| then room else |src|) && appended == old(appended) + src[..i]
              && o == if i == n || i < room then Finished else if !readopen || killed then Failed else Slept
      ensures readersAsleep == if o == Failed then old(readersAsleep) else {}
      ensures writersAsleep == if o == Slept then old(writersAsleep) + {t} else old(writersAsleep)
      ensures old(ReadersWait()) ==>
                var fails := PIPESIZE <= |src| && PIPESIZE < n && (killed || !readopen);
                (ReadersWait() <==> !(fails && old(readersAsleep) != {}))
    {
      i := 0;
      while i < n
        invariant 0 <= i <= |src| && Ring() && appended == old(appended) + src[..i]
        invariant consumed == old(consumed) && readopen == old(readopen) && writeopen == old(writeopen) &&
                    nread == old(nread)
        invariant readersAsleep == old(readersAsleep) && writersAsleep == old(writersAsleep)
        invariant i > 0 ==> writersAsleep == {}
      {
        CountersTell(consumed, |appended|);
        if SeemsFull(nread, nwrite) {
          if !readopen || killed {
            return Failed, i;
          }
          readersAsleep := {};
          writersAsleep := writersAsleep + {t};
          return Slept, i;
        }
        if i == |src| {
          break;
        }
        Append(src[i]);
        i := i + 1;
      }
      readersAsleep := {};
      o := Finished;
    }

    /**
     A session of piperead for n bytes into a caller that takes room of them.  The
     bytes delivered are the next ones appended; one that cannot be delivered is
     consumed all the same.
     */
    method ReadSession(t: int, n: nat, room: nat, killed: bool) returns (o: Outcome, bytes: seq<bv8>)
      requires Valid()
      modifies this
      ensures Valid() && appended == old(appended) && readopen == old(readopen) && writeopen == old(writeopen)
      ensures old(Empty()) && writeopen ==>
                (o == if killed then Failed else Slept) && bytes == [] && consumed == old(consumed)
      ensures old(Empty()) && writeopen ==> writersAsleep == old(writersAsleep)
      ensures old(Empty()) && writeopen ==>
                readersAsleep == if killed then old(readersAsleep) else old(readersAsleep) + {t}
      ensures !(old(Empty()) && writeopen) ==>
                var have := |appended| - old(consumed);
                && o == Finished && |bytes| == (if room < n && room < have then room else if n < have then n else have)
                && bytes == appended[old(consumed)..old(consumed) + |bytes|]
                && consumed == old(consumed) + |bytes| + (if |bytes| < n && |bytes| < have then 1 else 0)
                && writersAsleep == {} && readersAsleep == old(readersAsleep)
      ensures old(ReadersWait()) ==> ReadersWait()
    {
      bytes := [];
      CountersTell(consumed, |appended|);
      if SeemsEmpty(nread, nwrite) && writeopen {
        if killed {
          return Failed, bytes;
        }
        readersAsleep := readersAsleep + {t};
        return Slept, bytes;
      }
      var i := 0;
      while i < n
        invariant 0 <= i <= n && i <= room && Ring() && consumed == old(consumed) + i <= |appended| &&
                    appended == old(appended)
        invariant |bytes| == i && bytes == appended[old(consumed)..consumed]
        invariant readopen == old(readopen) && writeopen == old(writeopen) && nwrite == old(nwrite)
        invariant readersAsleep == old(readersAsleep)
      {
        CountersTell(consumed, |appended|);
        if SeemsEmpty(nread, nwrite) {
          break;
        }
        var ch := Take();
        if i == room {
          break;
        }
        bytes := bytes + [ch];
        i := i + 1;
      }
      writersAsleep := {};
      o := Finished;
    }

    /** One end is closed and the other side woken. */
    method Close(writable: bool)
      requires Valid()
      modifies this
      ensures Valid() && appended == old(appended) && consumed == old(consumed)
      ensures writeopen == (old(writeopen) && !writable) && readopen == (old(readopen) && writable)
      ensures writersAsleep == (if writable then old(writersAsleep) else {}) &&
                readersAsleep == if writable then {} else old(readersAsleep)
      ensures old(ReadersWait()) ==> ReadersWait()
    {
      if writable {
        writeopen := false;
        readersAsleep := {};
      } else {
        readopen := false;
        writersAsleep := {};
      }
    }

    /** kill makes a sleeper runnable, whatever it waits for. */
    method Kill(t: int)
      requires Valid()
      modifies `writersAsleep, `readersAsleep
      ensures Valid() && writersAsleep == old(writersAsleep) - {t} && readersAsleep == old(readersAsleep) - {t}
      ensures old(ReadersWait()) ==> ReadersWait()
    {
      writersAsleep := writersAsleep - {t};
      readersAsleep := readersAsleep - {t};
    }
  }

  lemma {:induction false} Apart(k: nat, n: nat)
    requires k < n < k + PIPESIZE
    ensures k % PIPESIZE != n % PIPESIZE
  {
  }

  /** The return that wakes nobody loses a wakeup: a killed writer fills the pipe and the reader sleeps on. */
  method LostWakeup(src: seq<bv8>) returns (p: Pipe)
    requires |src| == PIPESIZE + 1
    ensures p.Valid() && p.readersAsleep == {1} && p.Full() && !p.ReadersWait()
  {
    p := new Pipe();
    var o, bytes := p.ReadSession(1, 1, 1, false);
    assert p.readersAsleep == {1};
    var i;
    o, i := p.WriteSession(2, PIPESIZE + 1, src, true);
  }
}
