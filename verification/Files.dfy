/**
 Files of kernel/fs.c and kernel/file.c: block allocation, the block map,
 truncation, and reading and writing as operations on a sequence of bytes.
 The set of blocks each operation hands to the log is kept beside the state.
 */
module Files {
  import opened Blocks
  import Sets

  const IPB: nat := 16
  const MAXOPBLOCKS: nat := 10

  class Volume {
    const bmapstart: nat
    const inodestart: nat
    var bits: seq<bool>
    var content: seq<Content>
    var ino: map<int, Inode>
    var dino: map<int, Inode>
    ghost var cut: Cut
    ghost var owner: seq<Owner>
    ghost var logged: set<int>

    ghost function State(): Fs
      reads this
    {
      Fs(bits, content, ino, cut, owner)
    }

    ghost predicate Valid()
      reads this
    {
      Inv(State(), 0) && cut == NO_CUT
    }

    /** The volume found on a disk, before anything is changed. */
    constructor (bits0: seq<bool>, content0: seq<Content>, ino0: map<int, Inode>, bmap: nat, inodes: nat,
        ghost owner0: seq<Owner>)
      requires Inv(Fs(bits0, content0, ino0, NO_CUT, owner0), 0)
      ensures Valid() && State() == Fs(bits0, content0, ino0, NO_CUT, owner0) && dino == ino0 && logged == {}
      ensures bmapstart == bmap && inodestart == inodes
    {
      bmapstart, inodestart := bmap, inodes;
      bits, content, ino, dino := bits0, content0, ino0, ino0;
      cut, owner, logged := NO_CUT, owner0, {};
    }

    function BitmapBlock(b: int): int {
      b / BPB + bmapstart
    }

    function InodeBlock(i: int): int {
      i / IPB + inodestart
    }

    /** The lowest block marked free, now marked and zeroed; 0 stands for the panic when there is none. */
    method Balloc() returns (r: int)
      requires Valid()
      modifies `bits, `content, `owner, `logged
      ensures r == 0 <==> forall b :: 0 <= b < |old(bits)| ==> old(bits)[b]
      ensures r == 0 ==> State() == old(State()) && logged == old(logged)
      ensures r != 0 ==> 0 < r < |old(bits)| && !old(bits)[r] && forall b :: 0 <= b < r ==> old(bits)[b]
      ensures r != 0 ==> State() == Allocated(old(State()), r) && Inv(State(), r)
      ensures r != 0 ==> logged == old(logged) + {BitmapBlock(r), r}
    {
      hide Inv;
      var b := 0;
      while b < |bits|
        invariant 0 <= b && b % BPB == 0 && State() == old(State()) && logged == old(logged)
        invariant forall c :: 0 <= c < b && c < |bits| ==> bits[c]
        decreases |bits| - b
      {
        var bi := 0;
        while bi < BPB && b + bi < |bits|
          invariant 0 <= bi <= BPB && State() == old(State()) && logged == old(logged)
          invariant forall c :: 0 <= c < b + bi && c < |bits| ==> bits[c]
        {
          if !bits[b + bi] {
            r := b + bi;
            FreeBlock(State(), r);
            AllocatedInv(State(), r);
            bits := bits[r := true];
            logged := logged + {BitmapBlock(b)};
            content, owner := content[r := Zero], owner[r := Held];
            logged := logged + {r};
            assert BitmapBlock(b) == BitmapBlock(r);
            return;
          }
          bi := bi + 1;
        }
        b := b + BPB;
      }
      r := 0;
    }

    /** Clears the bit of a block in use; the source panics on a free one. */
    method Bfree(b: int)
      requires 0 <= b < |bits| && bits[b]
      modifies `bits, `logged
      ensures bits == old(bits)[b := false] && logged == old(logged) + {BitmapBlock(b)}
    {
      bits := bits[b := false];
      logged := logged + {BitmapBlock(b)};
    }

    /** Fills an empty address of the inode itself; 0 when no block is left. */
    method AllocAddr(inum: int, idx: nat) returns (addr: int)
      requires Valid() && inum in ino && idx <= NDIRECT && AddrOf(State(), InodeSlot(inum, idx)) == 0
      modifies `bits, `content, `ino, `owner, `logged
      ensures Valid() && inum in ino && SameSizes(old(ino), ino) && |bits| == |old(bits)| == |content|
      ensures forall j :: j in ino && j != inum ==> ino[j] == old(ino)[j]
      ensures addr == 0 ==> (forall b :: 0 <= b < |bits| ==> bits[b]) && State() == old(State())
      ensures addr != 0 ==> 0 < addr < |content| && content[addr] == Zero && !old(bits)[addr]
      ensures addr != 0 ==> AddrOf(State(), InodeSlot(inum, idx)) == addr && bits == old(bits)[addr := true]
      ensures forall t :: t != InodeSlot(inum, idx) ==> SameSlot(old(State()), State(), t)
      ensures addr != 0 ==> logged == old(logged) + {BitmapBlock(addr), addr}
    {
      hide Inv, AddrOf, SameSlot;
      ghost var s0 := State();
      SlotsSame(s0);
      InodeOk(s0, inum);
      addr := Balloc();
      if addr == 0 {
        return;
      }
      PlaceFresh(s0, InodeSlot(inum, idx), addr);
      var ip := ino[inum];
      ino := ino[inum := ip.(addrs := ip.addrs[idx := addr])];
      owner := owner[addr := Used(InodeSlot(inum, idx))];
    }

    /** Fills an empty entry of the indirect block ib; 0 when no block is left. */
    method AllocEntry(inum: int, ib: int, bn: nat) returns (addr: int)
      requires Valid() && inum in ino && NDIRECT <= bn < MAXFILE && AddrOf(State(), Slot(inum, bn)) == 0
      requires ib == AddrOf(State(), Slot(inum, MAXFILE)) && 0 < ib < |content|
      modifies `bits, `content, `owner, `logged
      ensures Valid() && |bits| == |old(bits)| == |content|
      ensures addr == 0 ==> (forall b :: 0 <= b < |bits| ==> bits[b]) && State() == old(State())
      ensures addr != 0 ==> 0 < addr < |content| && content[addr] == Zero && !old(bits)[addr]
      ensures addr != 0 ==> AddrOf(State(), Slot(inum, bn)) == addr
      ensures forall t :: t != Slot(inum, bn) ==> SameSlot(old(State()), State(), t)
      ensures addr != 0 ==> logged == old(logged) + {BitmapBlock(addr), addr, ib}
    {
      hide Inv, AddrOf, SameSlot;
      ghost var s0, sl := State(), Slot(inum, bn);
      SlotsSame(s0);
      InodeOk(s0, inum);
      IndirectIs(s0, inum);
      addr := Balloc();
      if addr == 0 {
        return;
      }
      PlaceFresh(s0, sl, addr);
      content := content[ib := Addrs(AsAddrs(content[ib])[bn - NDIRECT := addr])];
      logged := logged + {ib};
      owner := owner[addr := Used(sl)];
    }

    /**
     The address of the bn-th block of a file, allocating it, and the indirect block,
     if missing.  0 stands for the panic when no block is left.
     */
    method Bmap(inum: int, bn: nat) returns (addr: int, ghost added: bool)
      requires Valid() && inum in ino && bn < MAXFILE
      modifies `bits, `content, `ino, `owner, `logged
      ensures Valid() && inum in ino && SameSizes(old(ino), ino) && |bits| == |old(bits)| == |content|
      ensures forall j :: j in ino && j != inum ==> ino[j] == old(ino)[j]
      ensures addr == 0 ==> forall b :: 0 <= b < |bits| ==> bits[b]
      ensures addr != 0 ==>
                AddrOf(State(), Slot(inum, bn)) == addr && (added <==> AddrOf(old(State()), Slot(inum, bn)) == 0)
      ensures addr != 0 ==> 0 < addr < |content| && (added ==> content[addr] == Zero && !old(bits)[addr])
      ensures AddrOf(old(State()), Slot(inum, bn)) != 0 ==>
                addr != 0 && State() == old(State()) && logged == old(logged)
      ensures forall t :: t != Slot(inum, bn) && t != Slot(inum, MAXFILE) ==> SameSlot(old(State()), State(), t)
      ensures var ib0, ib := AddrOf(old(State()), Slot(inum, MAXFILE)), AddrOf(State(), Slot(inum, MAXFILE));
              && (ib0 != 0 ==> ib == ib0)
              && (addr != 0 && added ==>
                  logged <= old(logged) + {BitmapBlock(addr), addr} + IndirectCost(ib, bmapstart))
    {
      hide Inv, AddrOf, SameSlot;
      ghost var s0 := State();
      SlotsSame(s0);
      InodeOk(s0, inum);
      added := false;
      if bn < NDIRECT {
        DirectIs(s0, inum, bn);
        addr := ino[inum].addrs[bn];
        if addr == 0 {
          added := true;
          addr := AllocAddr(inum, bn);
          SameAddr(s0, State(), Slot(inum, MAXFILE));
        } else {
          SlotBlock(s0, Slot(inum, bn));
        }
        return;
      }
      IndirectIs(s0, inum);
      NoNewIndirect(s0, inum, bn);
      var ib := ino[inum].addrs[NDIRECT];
      if ib == 0 {
        ib := AllocAddr(inum, NDIRECT);
        if ib == 0 {
          return 0, added;
        }
        SameAddr(s0, State(), Slot(inum, bn));
      } else {
        SlotBlock(s0, Slot(inum, MAXFILE));
      }
      ghost var s1 := State();
      EntryIs(s1, inum, bn);
      addr := AsAddrs(content[ib])[bn - NDIRECT];
      if addr == 0 {
        added := true;
        addr := AllocEntry(inum, ib, bn);
        SlotChains(s0, s1, State(), Slot(inum, MAXFILE), Slot(inum, bn));
        SameAddr(s1, State(), Slot(inum, MAXFILE));
      } else {
        SlotBlock(s1, Slot(inum, bn));
      }
    }

    /** Writes the inode back to its disk block. */
    method Iupdate(inum: int)
      requires inum in ino
      modifies `dino, `logged
      ensures dino == old(dino)[inum := ino[inum]] && logged == old(logged) + {InodeBlock(inum)}
    {
      dino := dino[inum := ino[inum]];
      logged := logged + {InodeBlock(inum)};
    }

    /** Discards a file's contents: each of its blocks is freed once and no other file changes. */
    method Itrunc(inum: int)
      requires Valid() && inum in ino
      modifies this
      ensures Valid() && inum in ino && content == old(content)
      ensures (forall k :: AddrOf(State(), Slot(inum, k)) == 0) && ino[inum].size == 0 && Contents(State(), inum) == []
      ensures BlocksReturned(old(owner), owner, inum) && OthersSame(old(State()), State(), inum)
      ensures dino == old(dino)[inum := ino[inum]]
    {
      hide Inv, AddrOf, Truncating, Cleared, OthersSame, BlocksReturned;
      ghost var s0 := State();
      TruncStart(s0, inum);
      cut := Cut(inum, NDIRECT);
      var i := 0;
      while i < NDIRECT
        invariant 0 <= i <= NDIRECT && inum in ino && cut == Cut(inum, NDIRECT) && dino == old(dino)
        invariant Truncating(s0, State(), inum) && Cleared(State(), inum, i)
      {
        TruncDirect(s0, State(), inum, i);
        var ip := ino[inum];
        var a := ip.addrs[i];
        if a != 0 {
          Bfree(a);
          owner := owner[a := Free];
          ino := ino[inum := ip.(addrs := ip.addrs[i := 0])];
        }
        i := i + 1;
      }
      TruncIs(s0, State(), inum);
      var ib := ino[inum].addrs[NDIRECT];
      if ib != 0 {
        ghost var s1 := State();
        var j := 0;
        while j < NINDIRECT
          invariant 0 <= j <= NINDIRECT && ino == s1.ino && content == s1.content && cut == Cut(inum, NDIRECT + j) &&
                      dino == old(dino)
          invariant Truncating(s0, State(), inum) && Cleared(State(), inum, NDIRECT + j)
          invariant AddrOf(State(), Slot(inum, MAXFILE)) == ib
        {
          TruncEntry(s0, State(), inum, NDIRECT + j);
          var a := AsAddrs(content[ib])[j];
          if a != 0 {
            Bfree(a);
            owner := owner[a := Free];
          }
          cut := Cut(inum, NDIRECT + j + 1);
          j := j + 1;
        }
        TruncIndirect(s0, State(), inum);
        Bfree(ib);
        owner := owner[ib := Free];
        var ip := ino[inum];
        ino := ino[inum := ip.(addrs := ip.addrs[NDIRECT := 0])];
      }
      TruncEnd(s0, State(), inum);
      ino := ino[inum := ino[inum].(size := 0)];
      cut := NO_CUT;
      Iupdate(inum);
    }

    /**
     Writes n bytes at off, as far as src can be copied.  The result is n, or -1
     exactly when off is past the end or the file would grow too large; not ok
     stands for the panic when no block is left.
     */
    method Writei(inum: int, off: nat, n: nat, src: seq<bv8>)
        returns (ok: bool, r: int, ghost tot: nat, ghost charged: set<int>)
      requires Valid() && inum in ino && off < UINT && n < UINT && |src| <= n
      modifies this
      ensures Valid() && inum in ino
      ensures !ok ==> forall b :: 0 <= b < |bits| ==> bits[b]
      ensures ok ==> (r == -1 <==> off > old(ino)[inum].size || off + n > MAXFILE * BSIZE) && (r == -1 || r == n)
      ensures ok && r == -1 ==> State() == old(State()) && logged == old(logged)
      ensures ok && r == n ==> tot <= |src| && (|src| == n ==> tot == n) && off <= |Contents(old(State()), inum)|
      ensures ok && r == n ==> Contents(State(), inum) == Splice(Contents(old(State()), inum), off, src[..tot])
      ensures ok && r == n ==>
                OthersSame(old(State()), State(), inum) && (n > 0 ==> inum in dino && dino[inum] == ino[inum])
      ensures ok && r == n ==>
                logged <= old(logged) + charged && (n > 0 ==> |charged| <= LogCost(off, n)) &&
                    (n == 0 ==> charged == {})
    {
      hide Inv, AddrOf, SameSlot, Contents, Bytes, OthersSame, SameSizes, Splice, InLoop, PastLoop, Mapped;
      hide LogCost, IndirectCost, Charge.Plus, Charge.All;
      ghost var s0 := State();
      InodeOk(s0, inum);
      r, ok, tot, charged := -1, true, 0, {};
      if off > ino[inum].size || (off + n) % UINT < off {
        return;
      }
      if off + n > MAXFILE * BSIZE {
        return;
      }
      ghost var job := Job(inum, off, n, src, bmapstart, logged);
      ghost var ch := Charge({}, {}, 0, 0);
      LoopStart(s0, job);
      var t := 0;
      while t < n
        invariant 0 <= t <= |src| && InLoop(job, s0, State(), logged, t, ch)
        invariant t == 0 ==> logged == old(logged) && State() == s0
        decreases n - t
      {
        ghost var s, lg := State(), logged;
        LoopFacts(job, s0, s, lg, t, ch);
        var at, addr := off + t, 0;
        ghost var added;
        addr, added := Bmap(inum, at / BSIZE);
        if addr == 0 {
          ok := false;
          return;
        }
        LoopMapped(job, s0, s, lg, State(), logged, t, ch, addr, added);
        ch := ch.Plus(addr, added, bmapstart);
        var m := Min(n - t, BSIZE - at % BSIZE);
        if t + m > |src| {
          break;
        }
        LoopStored(job, s0, State(), logged, t, ch, addr, m);
        assert 0 < m;
        var b := AsBytes(content[addr]);
        content := content[addr := Data(b[..at % BSIZE] + src[t..t + m] + b[at % BSIZE + m..])];
        logged := logged + {addr};
        t := t + m;
      }
      LoopDone(job, s0, State(), logged, t, ch, InodeBlock(inum));
      tot, r := t, n;
      if n > 0 {
        charged := ch.All(AddrOf(State(), Slot(inum, MAXFILE)), bmapstart, InodeBlock(inum));
        if off + t > ino[inum].size {
          ino := ino[inum := ino[inum].(size := off + t)];
        }
        Iupdate(inum);
      }
    }

    /**
     The write system call on a file: n bytes, of which the caller's memory yields the first |src|, go in
     at off in chunks, each its own transaction.  writei takes a chunk it could not copy for written, so
     the offset moves on, past the end if nothing was there, where the next chunk is refused.
     peak is the largest number of blocks any chunk logged.
     */
    method FileWrite(inum: int, off: nat, n: nat, src: seq<bv8>)
        returns (ok: bool, ret: int, off': nat, ghost done: nat, ghost peak: nat)
      requires Valid() && inum in ino && off < UINT && |src| <= n < INT_LIMIT
      modifies this
      ensures Valid() && inum in ino && peak <= MAXOPBLOCKS
      ensures ok ==> off <= off' <= off + n && ret == if off' == off + n then n else -1
      ensures ok && off' < off + n ==>
                (off' - off) % CHUNK == 0 && Refused(old(ino)[inum].size, off, off' - off, n, |src|)
      ensures ok ==> NoneRefused(old(ino)[inum].size, off, off' - off, n, |src|)
      ensures ok ==> Min(off' - off, WholeChunks(|src|)) <= done <= Min(off' - off, |src|)
      ensures ok && |src| == n ==>
                done == off' - off &&
                (ret == n <==> n == 0 || (off <= old(ino)[inum].size && off + n <= MAXFILE * BSIZE))
      ensures ok && off < off' ==> off <= old(ino)[inum].size
      ensures ok && off <= |Contents(old(State()), inum)| ==>
                Contents(State(), inum) == Splice(Contents(old(State()), inum), off, src[..done])
      ensures ok && done == 0 ==> Contents(State(), inum) == Contents(old(State()), inum)
      ensures ok ==> OthersSame(old(State()), State(), inum)
    {
      hide Inv, AddrOf, SameSlot, Contents, Bytes, OthersSame, Splice, LogCost, Filed, Refused, NoneRefused;
      hide Piece, WholeChunks;
      ghost var s0 := State();
      FirstChunk(s0.ino[inum].size, off, n, |src|);
      FiledNone(s0, inum, off, n, src);
      var i := 0;
      off', peak, done, ok, ret := off, 0, 0, true, 0;
      while i < n
        invariant 0 <= i <= n && off' == off + i && (i < n ==> i % CHUNK == 0) && Valid() && inum in ino &&
                    peak <= MAXOPBLOCKS
        invariant 0 < i ==> off + i <= MAXFILE * BSIZE
        invariant Filed(s0, State(), inum, off, n, src, i, done)
        invariant NoneRefused(s0.ino[inum].size, off, i, n, |src|)
      {
        var n1 := n - i;
        if n1 > CHUNK {
          n1 := CHUNK;
        }
        logged := {};
        ghost var s1, tot, charged := State(), 0, {};
        FiledRefused(s0, s1, inum, off, n, src, i, done);
        var r;
        ok, r, tot, charged := Writei(inum, off', n1, Piece(src, i, i + n1));
        if !ok {
          return;
        }
        ChunkCost(off', n1, logged, charged, r);
        peak := if |logged| > peak then |logged| else peak;
        if r < 0 {
          break;
        }
        NextChunkStart(s0.ino[inum].size, off, i, n, |src|);
        FiledNext(s0, s1, State(), inum, off, n, src, i, done, n1, tot);
        done := if done == i then done + tot else done;
        off' := off' + r;
        i := i + r;
      }
      FiledEnd(s0, State(), inum, off, n, src, i, done);
      WriteEnds(s0.ino[inum].size, off, i, n, |src|);
      ret := if i == n then n else -1;
    }

    /**
     Reads up to n bytes at off into a destination that takes room bytes.  Every
     block below the size is there, so nothing is allocated or logged.
     */
    method Readi(inum: int, off: nat, n: nat, room: nat) returns (dst: seq<bv8>)
      requires Valid() && inum in ino && off < UINT && n < UINT
      modifies `bits, `content, `ino, `owner, `logged
      ensures State() == old(State()) && logged == old(logged)
      ensures var want := ReadLength(ino[inum].size, off, n);
              && |dst| <= want && (room >= want ==> |dst| == want)
              && (|dst| > 0 ==> dst == Contents(State(), inum)[off..off + |dst|])
              && (0 < |dst| < want ==> (off + |dst|) % BSIZE == 0 && room < |dst| + BSIZE)
    {
      hide Inv, AddrOf, SameSlot, Contents, Bytes, SameSizes, IndirectCost, ByteOf, Min, ReadLength;
      ghost var s := State();
      InodeOk(s, inum);
      var size := ino[inum].size;
      dst := [];
      ReadLengthIs(size, off, n);
      if off > size || (off + n) % UINT < off {
        return;
      }
      var want := if off + n > size then size - off else n;
      ContentsAt(s, inum);
      assert off + want <= size;
      while |dst| < want
        invariant State() == s && logged == old(logged) && |dst| <= want
        invariant dst == Contents(s, inum)[off..off + |dst|]
        invariant 0 < |dst| < want ==> (off + |dst|) % BSIZE == 0
        decreases want - |dst|
      {
        var at := off + |dst|;
        BelowSize(s, inum, at);
        var addr;
        ghost var added;
        addr, added := Bmap(inum, at / BSIZE);
        var m := Min(want - |dst|, BSIZE - at % BSIZE);
        NextChunk(at, m, want - |dst|);
        if |dst| + m > room {
          break;
        }
        ReadChunk(s, inum, at, m, addr);
        Extends(Contents(s, inum), off, |dst|, m);
        dst := dst + AsBytes(content[addr])[at % BSIZE..at % BSIZE + m];
      }
    }
  }

  // ------------------------------------------------------------------
  // Truncation

  /** An inode's blocks are being freed: other files are untouched, and only its blocks become free. */
  ghost predicate Truncating(s0: Fs, s: Fs, i: int) {
    && Inv(s, 0) && s.cut.inum == i && i in s.ino && s.content == s0.content
    && OthersSame(s0, s, i)
    && |s.owner| == |s0.owner| && forall b :: 0 <= b < |s.owner| ==> KeptOrFreed(s0.owner, s.owner, i, b)
  }

  predicate KeptOrFreed(o: seq<Owner>, o': seq<Owner>, i: int, b: int)
    requires 0 <= b < |o| && |o| == |o'|
  {
    o'[b] == o[b] || (o[b].Used? && o[b].slot.inum == i && o'[b] == Free)
  }

  /** Every block of file i is free and every other block is as it was. */
  predicate BlocksReturned(o: seq<Owner>, o': seq<Owner>, i: int) {
    |o'| == |o| && forall b :: 0 <= b < |o| ==> o'[b] == if o[b].Used? && o[b].slot.inum == i then Free else o[b]
  }

  predicate Cleared(s: Fs, i: int, n: int) {
    forall k :: 0 <= k < n ==> AddrOf(s, Slot(i, k)) == 0
  }

  lemma {:induction false} TruncStart(s: Fs, i: int)
    requires Inv(s, 0) && s.cut == NO_CUT && i in s.ino
    ensures Truncating(s, s.(cut := Cut(i, NDIRECT)), i) && Cleared(s.(cut := Cut(i, NDIRECT)), i, 0)
  {
    hide Inv, SameSlot;
    CutStarted(s, i);
  }

  lemma {:induction false} TruncDirect(s0: Fs, s: Fs, i: int, k: nat)
    requires Truncating(s0, s, i) && k < NDIRECT && Cleared(s, i, k)
    ensures |s.ino[i].addrs| == NDIRECT + 1 && AddrOf(s, Slot(i, k)) == s.ino[i].addrs[k] && |s.bits| == |s.owner|
    ensures AddrOf(s, Slot(i, k)) == 0 ==> Cleared(s, i, k + 1)
    ensures AddrOf(s, Slot(i, k)) != 0 ==>
              && 0 < AddrOf(s, Slot(i, k)) < |s.bits| && s.bits[AddrOf(s, Slot(i, k))]
              && Truncating(s0, Freed(s, Slot(i, k)), i) && Cleared(Freed(s, Slot(i, k)), i, k + 1)
  {
    hide Inv, AddrOf;
    InodeOk(s, i);
    DirectIs(s, i, k);
    if AddrOf(s, Slot(i, k)) != 0 {
      TruncFreed(s0, s, Slot(i, k));
      var s' := Freed(s, Slot(i, k));
      forall j | 0 <= j < k + 1 ensures AddrOf(s', Slot(i, j)) == 0 {
        assert j < k ==> SameSlot(s, s', Slot(i, j));
      }
    }
  }

  lemma {:induction false} TruncFreed(s0: Fs, s: Fs, sl: Slot)
    requires Truncating(s0, s, sl.inum) && AddrOf(s, sl) != 0 && (0 <= sl.k < NDIRECT || sl.k == MAXFILE)
    requires sl.k == MAXFILE ==> s.cut.upTo == MAXFILE
    ensures |s.ino[sl.inum].addrs| == NDIRECT + 1 && 0 < AddrOf(s, sl) < |s.bits| && s.bits[AddrOf(s, sl)] &&
              |s.bits| == |s.owner|
    ensures Truncating(s0, Freed(s, sl), sl.inum) && AddrOf(Freed(s, sl), sl) == 0
    ensures forall t :: t != sl ==> SameSlot(s, Freed(s, sl), t)
  {
    hide Inv, AddrOf, SameSlot, Freed;
    InodeOk(s, sl.inum);
    FreedInv(s, sl);
    FreedSlots(s, sl, sl);
    FreedKeeps(s, sl);
    OwnedBy(s, sl);
    var s' := Freed(s, sl);
    forall t | t != sl ensures SameSlot(s, s', t) {
      FreedSlots(s, sl, t);
    }
    forall t: Slot | t.inum != sl.inum ensures SameSlot(s0, s', t) {
      SlotChain(s0, s, s', t);
    }
    FreedOthers(s, sl);
    forall b | 0 <= b < |s'.owner| ensures KeptOrFreed(s0.owner, s'.owner, sl.inum, b) {
      assert KeptOrFreed(s0.owner, s.owner, sl.inum, b);
    }
  }

  lemma {:induction false} OwnedBy(s: Fs, sl: Slot)
    requires Inv(s, 0) && AddrOf(s, sl) != 0
    ensures 0 < AddrOf(s, sl) < |s.owner| && s.owner[AddrOf(s, sl)] == Used(sl)
  {
    assert SlotAt(s, sl);
  }

  lemma {:induction false} FreedOthers(s: Fs, sl: Slot)
    requires sl.inum in s.ino && |s.ino[sl.inum].addrs| == NDIRECT + 1 && (0 <= sl.k < NDIRECT || sl.k == MAXFILE)
    requires 0 < AddrOf(s, sl) < |s.bits| && |s.bits| == |s.owner|
    ensures forall j :: j in s.ino && j != sl.inum ==> j in Freed(s, sl).ino && Freed(s, sl).ino[j] == s.ino[j]
  {
  }

  lemma {:induction false} TruncEntry(s0: Fs, s: Fs, i: int, k: nat)
    requires Truncating(s0, s, i) && NDIRECT <= k < MAXFILE && s.cut == Cut(i, k) && Cleared(s, i, k) &&
               AddrOf(s, Slot(i, MAXFILE)) != 0
    ensures 0 < AddrOf(s, Slot(i, MAXFILE)) < |s.content| && |s.bits| == |s.owner|
    ensures AddrOf(s, Slot(i, k)) == AsAddrs(s.content[AddrOf(s, Slot(i, MAXFILE))])[k - NDIRECT]
    ensures 0 <= AddrOf(s, Slot(i, k)) < |s.bits| && (AddrOf(s, Slot(i, k)) != 0 ==> s.bits[AddrOf(s, Slot(i, k))])
    ensures var s' := EntryFreed(s, Slot(i, k));
            Truncating(s0, s', i) && Cleared(s', i, k + 1) &&
                AddrOf(s', Slot(i, MAXFILE)) == AddrOf(s, Slot(i, MAXFILE))
  {
    hide Inv, AddrOf, SameSlot;
    var sl := Slot(i, k);
    InodeOk(s, i);
    CutEntry(s, i, k);
    EntryFreedInv(s, sl);
    var s' := EntryFreed(s, sl);
    if AddrOf(s, sl) != 0 {
      OwnedBy(s, sl);
    }
    forall t: Slot | t.inum != i ensures SameSlot(s0, s', t) {
      SlotChain(s0, s, s', t);
    }
    forall b | 0 <= b < |s'.owner| ensures KeptOrFreed(s0.owner, s'.owner, i, b) {
      assert KeptOrFreed(s0.owner, s.owner, i, b);
    }
    SameAddr(s, s', Slot(i, MAXFILE));
    forall j | 0 <= j < k + 1 ensures AddrOf(s', Slot(i, j)) == 0 {
      if j < k {
        SameAddr(s, s', Slot(i, j));
      }
    }
  }

  lemma {:induction false} CutEntry(s: Fs, i: int, k: nat)
    requires Inv(s, 0) && i in s.ino && NDIRECT <= k < MAXFILE && s.cut == Cut(i, k) && AddrOf(s, Slot(i, MAXFILE)) != 0
    ensures 0 < AddrOf(s, Slot(i, MAXFILE)) < |s.content|
    ensures AddrOf(s, Slot(i, k)) == AsAddrs(s.content[AddrOf(s, Slot(i, MAXFILE))])[k - NDIRECT]
  {
    assert SlotAt(s, Slot(i, MAXFILE)) && InodeAt(s, i);
  }

  lemma {:induction false} TruncIs(s0: Fs, s: Fs, i: int)
    requires Truncating(s0, s, i)
    ensures |s.ino[i].addrs| == NDIRECT + 1 && AddrOf(s, Slot(i, MAXFILE)) == s.ino[i].addrs[NDIRECT]
  {
    hide Inv;
    InodeOk(s, i);
    IndirectIs(s, i);
  }

  lemma {:induction false} TruncIndirect(s0: Fs, s: Fs, i: int)
    requires Truncating(s0, s, i) && s.cut == Cut(i, MAXFILE) && Cleared(s, i, MAXFILE) &&
               AddrOf(s, Slot(i, MAXFILE)) != 0
    ensures var sl := Slot(i, MAXFILE);
            && |s.ino[i].addrs| == NDIRECT + 1 && 0 < AddrOf(s, sl) < |s.bits| && s.bits[AddrOf(s, sl)] &&
                |s.bits| == |s.owner|
            && Truncating(s0, Freed(s, sl), i) && Cleared(Freed(s, sl), i, NDIRECT) && AddrOf(Freed(s, sl), sl) == 0
  {
    hide Inv, AddrOf, SameSlot, Freed;
    var sl := Slot(i, MAXFILE);
    TruncFreed(s0, s, sl);
    forall k | 0 <= k < NDIRECT ensures AddrOf(Freed(s, sl), Slot(i, k)) == 0 {
      SameAddr(s, Freed(s, sl), Slot(i, k));
    }
  }

  /** With all addresses gone, every block the file had is free. */
  lemma {:induction false} TruncEnd(s0: Fs, s: Fs, i: int)
    requires Inv(s0, 0) && Truncating(s0, s, i) && Cleared(s, i, NDIRECT) && AddrOf(s, Slot(i, MAXFILE)) == 0
    ensures var s' := s.(ino := s.ino[i := s.ino[i].(size := 0)], cut := NO_CUT);
            && Inv(s', 0) && OthersSame(s0, s', i) && BlocksReturned(s0.owner, s'.owner, i) && s'.content == s0.content
            && forall k :: AddrOf(s', Slot(i, k)) == 0
  {
    hide Inv, AddrOf, SameSlot;
    CutEnded(s, i);
    var s' := s.(ino := s.ino[i := s.ino[i].(size := 0)], cut := NO_CUT);
    forall t: Slot | t.inum != i ensures SameSlot(s0, s', t) {
      SlotChain(s0, s, s', t);
    }
    forall b | 0 <= b < |s0.owner|
      ensures s'.owner[b] == if s0.owner[b].Used? && s0.owner[b].slot.inum == i then Free else s0.owner[b]
    {
      assert KeptOrFreed(s0.owner, s.owner, i, b);
      NotUsed(s', b, i);
    }
  }

  lemma {:induction false} NotUsed(s: Fs, b: nat, i: int)
    requires Inv(s, 0) && b < |s.owner| && forall k :: AddrOf(s, Slot(i, k)) == 0
    ensures s.owner[b].Used? ==> s.owner[b].slot.inum != i
  {
    assert BlockAt(s, b, 0);
  }

  // ------------------------------------------------------------------
  // Writing

  /** tot bytes of src have been written at off: they are there, and every other byte of every file is as before. */
  ghost predicate Writing(s0: Fs, s: Fs, i: int, off: nat, src: seq<bv8>, tot: nat)
    requires tot <= |src|
  {
    && Inv(s, 0) && s.cut == NO_CUT && i in s0.ino && i in s.ino && s.ino[i].size == s0.ino[i].size &&
        OthersSame(s0, s, i)
    && (forall k :: 0 <= k && k * BSIZE < off + tot ==> AddrOf(s, Slot(i, k)) != 0)
    && (forall o: nat :: o < s0.ino[i].size || o < off + tot ==> ByteOf(s, i, o) == Want(s0, i, off, src, tot, o))
  }

  function Want(s0: Fs, i: int, off: nat, src: seq<bv8>, tot: nat, o: nat): bv8
    requires tot <= |src|
  {
    if off <= o < off + tot then src[o - off] else ByteOf(s0, i, o)
  }

  lemma {:induction false} WriteStart(s: Fs, i: int, off: nat, src: seq<bv8>)
    requires Inv(s, 0) && s.cut == NO_CUT && i in s.ino && off <= s.ino[i].size
    ensures Writing(s, s, i, off, src, 0)
  {
    hide AddrOf, SameSlot;
    SlotsSame(s);
    forall k | 0 <= k && k * BSIZE < off ensures AddrOf(s, Slot(i, k)) != 0 {
      assert MappedAt(s, Slot(i, k)) && InodeAt(s, i);
    }
  }

  /** Mapping the block to be written next shows through no byte of the file. */
  lemma {:induction false} WriteMapped(s0: Fs, s: Fs, s1: Fs, i: int, off: nat, src: seq<bv8>, tot: nat, bn: nat)
    requires tot <= |src| && Writing(s0, s, i, off, src, tot) && bn == (off + tot) / BSIZE && bn < MAXFILE
    requires Inv(s1, 0) && s1.cut == NO_CUT && SameSizes(s.ino, s1.ino) && AddrOf(s1, Slot(i, bn)) != 0
    requires forall j :: j in s1.ino && j != i ==> s1.ino[j] == s.ino[j]
    requires forall t :: t != Slot(i, bn) && t != Slot(i, MAXFILE) ==> SameSlot(s, s1, t)
    requires AddrOf(s, Slot(i, bn)) != 0 ==> s1 == s
    ensures Writing(s0, s1, i, off, src, tot)
    ensures AddrOf(s, Slot(i, bn)) == 0 ==> (off + tot) % BSIZE == 0
  {
    hide AddrOf, SameSlot;
    if AddrOf(s, Slot(i, bn)) == 0 {
      assert (off + tot) % BSIZE == 0 by {
        assert bn * BSIZE < off + tot ==> AddrOf(s, Slot(i, bn)) != 0;
      }
      forall t: Slot | t.inum != i ensures SameSlot(s0, s1, t) {
        SlotChain(s0, s, s1, t);
      }
      forall k | 0 <= k && k * BSIZE < off + tot ensures AddrOf(s1, Slot(i, k)) != 0 {
        assert AddrOf(s, Slot(i, k)) != 0;
        MaxFile(s, i, k);
        SameAddr(s, s1, Slot(i, k));
      }
      forall o: nat | o < s0.ino[i].size || o < off + tot ensures ByteOf(s1, i, o) == Want(s0, i, off, src, tot, o) {
        assert o / BSIZE < MAXFILE && AddrOf(s, Slot(i, o / BSIZE)) != 0 by {
          assert MappedAt(s, Slot(i, o / BSIZE)) && InodeAt(s, i);
          assert o < off + tot ==> o / BSIZE * BSIZE < off + tot;
        }
        SameByte(s, s1, i, o);
      }
    }
  }

  lemma {:induction false} MaxFile(s: Fs, i: int, k: nat)
    requires AddrOf(s, Slot(i, k)) != 0
    ensures k <= MAXFILE
  {
  }

  lemma {:induction false} SameByte(s: Fs, s1: Fs, i: int, o: nat)
    requires SameSlot(s, s1, Slot(i, o / BSIZE)) && o / BSIZE != MAXFILE && Inv(s, 0)
    ensures ByteOf(s1, i, o) == ByteOf(s, i, o)
  {
    hide AddrOf;
    assert SlotAt(s, Slot(i, o / BSIZE));
  }

  /** The next m bytes of src, within one block, are written into it. */
  lemma {:induction false} WriteBlock(s0: Fs, s: Fs, i: int, off: nat, src: seq<bv8>, tot: nat, m: nat)
    requires tot + m <= |src| && Writing(s0, s, i, off, src, tot) && 0 < m && (off + tot) % BSIZE + m <= BSIZE
    requires AddrOf(s, Slot(i, (off + tot) / BSIZE)) != 0 && (off + tot) / BSIZE < MAXFILE
    ensures var a, d := AddrOf(s, Slot(i, (off + tot) / BSIZE)), (off + tot) % BSIZE;
            && 0 < a < |s.content|
            && var b := AsBytes(s.content[a]);
               Writing(s0, Written(s, a, b[..d] + src[tot..tot + m] + b[d + m..]), i, off, src, tot + m)
  {
    hide Inv, AddrOf, SameSlot;
    var bn, d := (off + tot) / BSIZE, (off + tot) % BSIZE;
    var sl := Slot(i, bn);
    SlotBlock(s, sl);
    var a := AddrOf(s, sl);
    var b := AsBytes(s.content[a]);
    var b' := b[..d] + src[tot..tot + m] + b[d + m..];
    var s' := Written(s, a, b');
    WrittenInv(s, sl, b');
    forall t: Slot | t.inum != i ensures SameSlot(s0, s', t) {
      SlotChain(s0, s, s', t);
    }
    forall k | 0 <= k && k * BSIZE < off + tot + m ensures AddrOf(s', Slot(i, k)) != 0 {
      assert k != bn ==> k * BSIZE < off + tot;
      if k != bn {
        SameAddr(s, s', Slot(i, k));
      }
    }
    InodeOk(s, i);
    assert off + tot + m <= (bn + 1) * BSIZE <= MAXFILE * BSIZE;
    forall o: nat | o < s0.ino[i].size ||
        o < off + tot + m ensures ByteOf(s', i, o) == Want(s0, i, off, src, tot + m, o) {
      WriteByte(s0, s, s', i, off, src, tot, m, o);
    }
  }

  lemma {:induction false} WriteByte(s0: Fs, s: Fs, s': Fs, i: int, off: nat, src: seq<bv8>, tot: nat, m: nat, o: nat)
    requires tot + m <= |src| && Writing(s0, s, i, off, src, tot) && 0 < m && (off + tot) % BSIZE + m <= BSIZE
    requires (off + tot) / BSIZE < MAXFILE && o < MAXFILE * BSIZE
    requires o < s0.ino[i].size || o < off + tot + m
    requires var a, d := AddrOf(s, Slot(i, (off + tot) / BSIZE)), (off + tot) % BSIZE;
             && 0 < a < |s.content| && AddrOf(s', Slot(i, (off + tot) / BSIZE)) == a && a < |s'.content|
             && var b := AsBytes(s.content[a]); s'.content[a] == Data(b[..d] + src[tot..tot + m] + b[d + m..])
    requires forall t :: t != Slot(i, (off + tot) / BSIZE) ==> SameSlot(s, s', t)
    ensures ByteOf(s', i, o) == Want(s0, i, off, src, tot + m, o)
  {
    hide Inv, AddrOf, SameSlot, OthersSame;
    var bn, d := (off + tot) / BSIZE, (off + tot) % BSIZE;
    if o / BSIZE == bn {
      var a := AddrOf(s, Slot(i, bn));
      var b := AsBytes(s.content[a]);
      var e, b' := o % BSIZE, b[..d] + src[tot..tot + m] + b[d + m..];
      assert o - e == off + tot - d;
      assert |b'| == BSIZE && ByteOf(s', i, o) == b'[e] && ByteOf(s, i, o) == b[e];
      assert b'[e] == if d <= e < d + m then src[tot + (e - d)] else b[e];
    } else {
      SameByte(s, s', i, o);
      assert o < off + tot + m ==> o < off + tot;
    }
  }

  /** With the size raised to the end of what was written, the contents are spliced. */
  lemma {:induction false} WriteDone(s0: Fs, s: Fs, i: int, off: nat, src: seq<bv8>, tot: nat)
    requires Inv(s0, 0) && tot <= |src| && Writing(s0, s, i, off, src, tot) && off <= s0.ino[i].size &&
               off + tot <= MAXFILE * BSIZE
    ensures var s' := if off + tot > s.ino[i].size then Resized(s, i, off + tot) else s;
            && Inv(s', 0) && OthersSame(s0, s', i) && off <= |Contents(s0, i)|
            && Contents(s', i) == Splice(Contents(s0, i), off, src[..tot])
  {
    hide Inv, AddrOf, SameSlot, Contents, Bytes;
    var s' := if off + tot > s.ino[i].size then Resized(s, i, off + tot) else s;
    if off + tot > s.ino[i].size {
      ResizedInv(s, i, off + tot);
      forall t: Slot | t.inum != i ensures SameSlot(s0, s', t) {
        SlotChain(s0, s, s', t);
      }
    } else {
      SlotsSame(s);
    }
    InodeOk(s, i);
    ContentsAt(s0, i);
    ContentsAt(s', i);
    var x, y := Contents(s', i), Splice(Contents(s0, i), off, src[..tot]);
    forall o | 0 <= o < |x| ensures x[o] == y[o] {
      SameByte(s, s', i, o);
    }
  }

  // ------------------------------------------------------------------
  // What a write hands to the log

  /** The logged blocks beyond before: at most c data blocks, a bitmap blocks, and what the indirect block costs. */
  ghost predicate Charged(logged: set<int>, before: set<int>, data: set<int>, maps: set<int>, ib: int,
      bmapstart: nat, c: nat, a: nat) {
    logged <= before + data + maps + IndirectCost(ib, bmapstart) && |data| <= c && |maps| <= a
  }

  lemma {:induction false} ChargeNone(logged: set<int>, ib: int, bmapstart: nat, off: nat)
    ensures Charged(logged, logged, {}, {}, ib, bmapstart, 0, 0) && Touched(off, 0) == 0
  {
  }

  lemma {:induction false} WriteFacts(s0: Fs, s: Fs, i: int, off: nat, src: seq<bv8>, tot: nat)
    requires tot <= |src| && Writing(s0, s, i, off, src, tot)
    ensures Inv(s, 0) && s.cut == NO_CUT && i in s.ino && s.ino[i].size == s0.ino[i].size
  {
    hide Inv;
  }

  /** Writing a data block leaves the indirect block where it is. */
  lemma {:induction false} SameIndirect(s: Fs, i: int, bn: nat, addr: int)
    requires Inv(s, 0) && bn < MAXFILE && addr == AddrOf(s, Slot(i, bn)) != 0
    ensures 0 < addr < |s.content|
    ensures forall b: seq<bv8> :: |b| == BSIZE ==>
              AddrOf(Written(s, addr, b), Slot(i, MAXFILE)) == AddrOf(s, Slot(i, MAXFILE))
  {
    SlotBlock(s, Slot(i, bn));
  }

  lemma {:induction false} ChargeBlock(logged: set<int>, logged': set<int>, before: set<int>, data: set<int>,
      maps: set<int>,
      ib: int, ib': int, bmapstart: nat, c: nat, a: nat, addr: int, added: bool)
    requires Charged(logged, before, data, maps, ib, bmapstart, c, a) && (ib != 0 ==> ib' == ib)
    requires if added then logged' <= logged + {addr / BPB + bmapstart, addr} + IndirectCost(ib', bmapstart)
             else logged' == logged && ib' == ib
    ensures Charged(logged' + {addr}, before, data + {addr}, if added then maps + {addr / BPB + bmapstart} else maps,
                    ib', bmapstart, c + 1, if added then a + 1 else a)
    ensures Charged(logged', before, data + {addr}, if added then maps + {addr / BPB + bmapstart} else maps,
                    ib', bmapstart, c + 1, if added then a + 1 else a)
  {
    Sets.UnionSize(data, {addr});
    Sets.UnionSize(maps, {addr / BPB + bmapstart});
  }

  lemma {:induction false} ChargeTotal(logged: set<int>, before: set<int>, data: set<int>, maps: set<int>, ib: int,
      bmapstart: nat, c: nat, a: nat, inodeBlock: int)
    requires Charged(logged, before, data, maps, ib, bmapstart, c, a)
    ensures var all := data + maps + IndirectCost(ib, bmapstart) + {inodeBlock};
            logged + {inodeBlock} <= before + all && |all| <= c + a + 3
  {
    var cost := IndirectCost(ib, bmapstart);
    assert |cost| <= 2 by {
      if ib != 0 {
        Sets.UnionSize({ib / BPB + bmapstart}, {ib});
        assert cost == {ib / BPB + bmapstart} + {ib};
      }
    }
    Sets.UnionSize(data, maps);
    Sets.UnionSize(data + maps, cost);
    Sets.UnionSize(data + maps + cost, {inodeBlock});
  }

  /** How many blocks n bytes at off touch. */
  function Touched(off: nat, n: nat): nat {
    if n == 0 then 0 else (off + n - 1) / BSIZE - off / BSIZE + 1
  }

  lemma {:induction false} TouchNext(off: nat, tot: nat, m: int, left: nat)
    requires m == Min(left, BSIZE - (off + tot) % BSIZE) && 0 < left && (tot > 0 ==> (off + tot) % BSIZE == 0)
    ensures 0 < m <= left && Touched(off, tot + m) == Touched(off, tot) + 1
    ensures (off + tot) % BSIZE + m <= BSIZE && (m < left ==> (off + tot + m) % BSIZE == 0)
  {
    SameBlock(off + tot, m);
    NextChunk(off + tot, m, left);
    if tot > 0 {
      LastOfBlock(off + tot);
    }
  }

  lemma {:induction false} SameBlock(q: nat, m: int)
    requires 0 < m <= BSIZE - q % BSIZE
    ensures (q + m - 1) / BSIZE == q / BSIZE
  {
  }

  lemma {:induction false} LastOfBlock(q: nat)
    requires 0 < q && q % BSIZE == 0
    ensures (q - 1) / BSIZE == q / BSIZE - 1
  {
  }

  lemma {:induction false} TouchMore(off: nat, tot: nat, n: nat)
    requires tot <= n
    ensures Touched(off, tot) <= Touched(off, n)
  {
  }

  /** Blocks logged by a write: data and bitmap blocks, the indirect block with its bitmap block, the inode block. */
  function LogCost(off: nat, n: nat): int {
    2 * Touched(off, n) - (if off % BSIZE != 0 then 1 else 0) + 3
  }

  /** The arguments of a write and the blocks logged before it. */
  datatype Job = Job(inum: int, off: nat, n: nat, src: seq<bv8>, bmapstart: nat, before: set<int>)

  /** The data and bitmap blocks a write has charged to the log, of which it has touched c and allocated a. */
  datatype Charge = Charge(data: set<int>, maps: set<int>, c: nat, a: nat) {
    ghost function Plus(addr: int, added: bool, bmapstart: nat): Charge {
      Charge(data + {addr}, if added then maps + {addr / BPB + bmapstart} else maps, c + 1, if added then a + 1 else a)
    }

    ghost function All(ib: int, bmapstart: nat, inodeBlock: int): set<int> {
      data + maps + IndirectCost(ib, bmapstart) + {inodeBlock}
    }

    ghost predicate Covers(logged: set<int>, before: set<int>, ib: int, bmapstart: nat) {
      Charged(logged, before, data, maps, ib, bmapstart, c, a)
    }
  }

  /** At the loop head after t bytes. */
  ghost predicate InLoop(j: Job, s0: Fs, s: Fs, logged: set<int>, t: nat, ch: Charge) {
    && t <= |j.src| <= j.n && Writing(s0, s, j.inum, j.off, j.src, t) && (0 < t < j.n ==> (j.off + t) % BSIZE == 0)
    && ch.Covers(logged, j.before, AddrOf(s, Slot(j.inum, MAXFILE)), j.bmapstart)
    && ch.c == Touched(j.off, t) && ch.a <= ch.c && (j.off % BSIZE != 0 && ch.c > 0 ==> ch.a < ch.c) &&
        (ch.c == 0 ==> t == 0)
  }

  /** Once the loop is left, also by a copy that failed after its block was mapped. */
  ghost predicate PastLoop(j: Job, s0: Fs, s: Fs, logged: set<int>, t: nat, ch: Charge) {
    && t <= |j.src| <= j.n && Writing(s0, s, j.inum, j.off, j.src, t)
    && ch.Covers(logged, j.before, AddrOf(s, Slot(j.inum, MAXFILE)), j.bmapstart)
    && ch.c <= Touched(j.off, j.n) && ch.a <= ch.c && (j.off % BSIZE != 0 && ch.c > 0 ==> ch.a < ch.c)
    && (j.n > 0 ==> ch.c > 0)
  }

  lemma {:induction false} LoopStart(s0: Fs, j: Job)
    requires Inv(s0, 0) && s0.cut == NO_CUT && j.inum in s0.ino && j.off <= s0.ino[j.inum].size && |j.src| <= j.n
    ensures InLoop(j, s0, s0, j.before, 0, Charge({}, {}, 0, 0))
  {
    hide Inv, AddrOf, Writing;
    WriteStart(s0, j.inum, j.off, j.src);
    ChargeNone(j.before, AddrOf(s0, Slot(j.inum, MAXFILE)), j.bmapstart, j.off);
  }

  lemma {:induction false} LoopFacts(j: Job, s0: Fs, s: Fs, logged: set<int>, t: nat, ch: Charge)
    requires InLoop(j, s0, s, logged, t, ch)
    ensures Inv(s, 0) && s.cut == NO_CUT && j.inum in s.ino
  {
    hide Inv, AddrOf, Touched, Charged;
  }

  lemma {:induction false} LoopMapped(j: Job, s0: Fs, s: Fs, lg: set<int>, s1: Fs, lg1: set<int>, t: nat, ch: Charge,
      addr: int, added: bool)
    requires InLoop(j, s0, s, lg, t, ch) && t < j.n && j.off + j.n <= MAXFILE * BSIZE
    requires Inv(s1, 0) && s1.cut == NO_CUT && SameSizes(s.ino, s1.ino) && forall k :: k in s1.ino && k != j.inum ==>
               s1.ino[k] == s.ino[k]
    requires var bn := (j.off + t) / BSIZE;
             && AddrOf(s1, Slot(j.inum, bn)) == addr != 0 && (added <==> AddrOf(s, Slot(j.inum, bn)) == 0)
             && (forall u :: u != Slot(j.inum, bn) && u != Slot(j.inum, MAXFILE) ==> SameSlot(s, s1, u))
             && (AddrOf(s, Slot(j.inum, bn)) != 0 ==> s1 == s && lg1 == lg)
    requires var ib0, ib := AddrOf(s, Slot(j.inum, MAXFILE)), AddrOf(s1, Slot(j.inum, MAXFILE));
             && (ib0 != 0 ==> ib == ib0)
             && (added ==> lg1 <= lg + {addr / BPB + j.bmapstart, addr} + IndirectCost(ib, j.bmapstart))
    ensures PastLoop(j, s0, s1, lg1, t, ch.Plus(addr, added, j.bmapstart)) &&
              Mapped(j, s0, s1, lg1, t, ch.Plus(addr, added, j.bmapstart), addr)
  {
    hide Inv, AddrOf, Writing, IndirectCost, SameSlot, SameSizes, Touched, Charged;
    var at := j.off + t;
    WriteMapped(s0, s, s1, j.inum, j.off, j.src, t, at / BSIZE);
    ChargeBlock(lg, lg1, j.before, ch.data, ch.maps, AddrOf(s, Slot(j.inum, MAXFILE)),
        AddrOf(s1, Slot(j.inum, MAXFILE)), j.bmapstart, ch.c, ch.a, addr, added);
    var m := Min(j.n - t, BSIZE - at % BSIZE);
    TouchNext(j.off, t, m, j.n - t);
    TouchMore(j.off, t + m, j.n);
  }

  /** The block for the next bytes is there and paid for. */
  ghost predicate Mapped(j: Job, s0: Fs, s: Fs, logged: set<int>, t: nat, ch: Charge, addr: int) {
    && t < j.n && j.off + j.n <= MAXFILE * BSIZE && (t > 0 ==> (j.off + t) % BSIZE == 0)
    && AddrOf(s, Slot(j.inum, (j.off + t) / BSIZE)) == addr != 0
    && ch.c == Touched(j.off, t) + 1 &&
        ch.Covers(logged + {addr}, j.before, AddrOf(s, Slot(j.inum, MAXFILE)), j.bmapstart)
  }

  lemma {:induction false} LoopStored(j: Job, s0: Fs, s: Fs, logged: set<int>, t: nat, ch: Charge, addr: int, m: int)
    requires PastLoop(j, s0, s, logged, t, ch) && Mapped(j, s0, s, logged, t, ch, addr)
    requires m == Min(j.n - t, BSIZE - (j.off + t) % BSIZE) && t + m <= |j.src|
    ensures 0 < addr < |s.content| && 0 < m && (j.off + t) % BSIZE + m <= BSIZE
    ensures var b, d := AsBytes(s.content[addr]), (j.off + t) % BSIZE;
            InLoop(j, s0, Written(s, addr, b[..d] + j.src[t..t + m] + b[d + m..]), logged + {addr}, t + m, ch)
  {
    hide Inv, AddrOf, Writing, Charged, SameSlot;
    TouchNext(j.off, t, m, j.n - t);
    WriteFacts(s0, s, j.inum, j.off, j.src, t);
    assert (j.off + t) / BSIZE < MAXFILE;
    SameIndirect(s, j.inum, (j.off + t) / BSIZE, addr);
    WriteBlock(s0, s, j.inum, j.off, j.src, t, m);
    var b, d := AsBytes(s.content[addr]), (j.off + t) % BSIZE;
    assert |b[..d] + j.src[t..t + m] + b[d + m..]| == BSIZE;
  }

  lemma {:induction false} LoopDone(j: Job, s0: Fs, s: Fs, logged: set<int>, t: nat, ch: Charge, inodeBlock: int)
    requires Inv(s0, 0) && (PastLoop(j, s0, s, logged, t, ch) || (InLoop(j, s0, s, logged, t, ch) && t == j.n))
    requires j.inum in s0.ino && j.off <= s0.ino[j.inum].size && j.off + j.n <= MAXFILE * BSIZE
    ensures t <= |j.src| && j.inum in s.ino && s.cut == NO_CUT && s.ino[j.inum].size == s0.ino[j.inum].size
    ensures var s' := if j.off + t > s.ino[j.inum].size then Resized(s, j.inum, j.off + t) else s;
            && Inv(s', 0) && OthersSame(s0, s', j.inum) && j.off <= |Contents(s0, j.inum)|
            && Contents(s', j.inum) == Splice(Contents(s0, j.inum), j.off, j.src[..t])
    ensures j.n > 0 ==>
              var all := ch.All(AddrOf(s, Slot(j.inum, MAXFILE)), j.bmapstart, inodeBlock);
              logged + {inodeBlock} <= j.before + all && |all| <= LogCost(j.off, j.n)
  {
    hide Inv, AddrOf, SameSlot, Writing, Contents, Splice, Resized, OthersSame, Charged;
    WriteFacts(s0, s, j.inum, j.off, j.src, t);
    WriteDone(s0, s, j.inum, j.off, j.src, t);
    ChargeTotal(logged, j.before, ch.data, ch.maps, AddrOf(s, Slot(j.inum, MAXFILE)), j.bmapstart, ch.c, ch.a,
        inodeBlock);
  }

  const CHUNK: nat := (MAXOPBLOCKS - 1 - 1 - 2) / 2 * BSIZE
  const INT_LIMIT: nat := 0x8000_0000

  lemma {:induction false} NothingWritten(s: Fs, i: int, off: nat, src: seq<bv8>)
    requires Inv(s, 0) && i in s.ino
    ensures OthersSame(s, s, i) && |Contents(s, i)| == s.ino[i].size
    ensures off <= |Contents(s, i)| ==> Contents(s, i) == Splice(Contents(s, i), off, src[..0])
  {
    hide Inv, AddrOf, Bytes;
    InodeOk(s, i);
    SlotsSame(s);
  }

  /** A chunk of any alignment on a disk of any size logs no more blocks than an operation may. */
  lemma {:induction false} ChunkCost(off: nat, n: nat, logged: set<int>, charged: set<int>, r: int)
    requires 0 < n <= CHUNK && (r != -1 ==> logged <= {} + charged && |charged| <= LogCost(off, n)) &&
               (r == -1 ==> logged == {})
    ensures |logged| <= MAXOPBLOCKS
  {
    if r != -1 {
      Sets.SubsetSize(logged, charged);
    }
  }

  /** What the caller's memory yields of the bytes from a on, before b. */
  function Piece(src: seq<bv8>, a: nat, b: nat): (p: seq<bv8>)
    requires a <= b
    ensures |p| <= b - a && (b <= |src| ==> |p| == b - a) && (|src| <= a ==> p == [])
  {
    src[Min(a, |src|)..Min(b, |src|)]
  }

  /** The bytes of whole chunks in what can be copied. */
  function WholeChunks(readable: nat): (w: nat)
    ensures w <= readable < w + CHUNK && w % CHUNK == 0
  {
    if readable < CHUNK then 0
    else
      NextMultiple(WholeChunks(readable - CHUNK));
      CHUNK + WholeChunks(readable - CHUNK)
  }

  /**
   The chunk at i is refused: it starts past the end, where earlier chunks have moved the end only as
   far as they could be copied, or it would end past the largest file.
   */
  predicate Refused(size: int, off: nat, i: nat, n: nat, readable: nat)
    requires i <= n
  {
    || ((i == 0 || i > WholeChunks(readable)) && off + i > size)
    || off + i + Min(CHUNK, n - i) > MAXFILE * BSIZE
  }

  /** No chunk before the one at i is refused. */
  ghost predicate NoneRefused(size: int, off: nat, i: nat, n: nat, readable: nat)
    requires i <= n
  {
    forall k :: 0 <= k < i && k % CHUNK == 0 ==> !Refused(size, off, k, n, readable)
  }

  lemma {:induction false} FirstChunk(size: int, off: nat, n: nat, readable: nat)
    ensures NoneRefused(size, off, 0, n, readable)
  {
  }

  lemma {:induction false} NextChunkStart(size: int, off: nat, i: nat, n: nat, readable: nat)
    requires i < n && i % CHUNK == 0 && NoneRefused(size, off, i, n, readable) && !Refused(size, off, i, n, readable)
    ensures i + Min(CHUNK, n - i) <= n && NoneRefused(size, off, i + Min(CHUNK, n - i), n, readable)
    ensures i + Min(CHUNK, n - i) < n ==> (i + Min(CHUNK, n - i)) % CHUNK == 0
    ensures off + i + Min(CHUNK, n - i) <= MAXFILE * BSIZE
  {
    hide NoneRefused, WholeChunks;
    var e := i + Min(CHUNK, n - i);
    NoneMore(size, off, i, e, n, readable);
    NextMultiple(i);
  }

  lemma {:induction false} NextMultiple(i: nat)
    requires i % CHUNK == 0
    ensures (i + CHUNK) % CHUNK == 0
  {
  }

  lemma {:induction false} NoneMore(size: int, off: nat, i: nat, e: nat, n: nat, readable: nat)
    requires i <= e <= n && e <= i + CHUNK && i % CHUNK == 0 && (i < e ==> !Refused(size, off, i, n, readable))
    requires NoneRefused(size, off, i, n, readable)
    ensures NoneRefused(size, off, e, n, readable)
  {
    hide Refused;
    forall k: nat | k < e && k % CHUNK == 0 ensures !Refused(size, off, k, n, readable) {
      if i <= k {
        SameChunk(i, k);
      }
    }
  }

  /** With the whole source readable, the chunks are all taken exactly when the write starts and ends inside. */
  lemma {:induction false} WholeWrite(size: int, off: nat, i: nat, n: nat)
    requires i <= n && NoneRefused(size, off, i, n, n) && (i < n ==> i % CHUNK == 0 && Refused(size, off, i, n, n))
    ensures i == n <==> n == 0 || (off <= size && off + n <= MAXFILE * BSIZE)
  {
    hide NoneRefused, WholeChunks;
    if i < n {
      ChunkStart(i, n);
    } else if 0 < n {
      var last := WholeChunks(n - 1);
      NotRefusedAt(size, off, i, n, n, 0);
      NotRefusedAt(size, off, i, n, n, last);
    }
  }

  lemma {:induction false} NotRefusedAt(size: int, off: nat, i: nat, n: nat, readable: nat, k: nat)
    requires i <= n && NoneRefused(size, off, i, n, readable) && k < i && k % CHUNK == 0
    ensures !Refused(size, off, k, n, readable)
  {
    hide Refused;
  }

  lemma {:induction false} WriteEnds(size: int, off: nat, i: nat, n: nat, readable: nat)
    requires i <= n && NoneRefused(size, off, i, n, readable)
    requires i < n ==> i % CHUNK == 0 && Refused(size, off, i, n, readable)
    ensures readable == n ==> (i == n <==> n == 0 || (off <= size && off + n <= MAXFILE * BSIZE))
    ensures 0 < i ==> off <= size
  {
    hide NoneRefused, WholeChunks;
    if readable == n {
      WholeWrite(size, off, i, n);
    }
    if 0 < i {
      NotRefusedAt(size, off, i, n, readable, 0);
    }
  }

  /** The loop of filewrite at i: done bytes of src are in the file. */
  ghost predicate Filed(s0: Fs, s: Fs, inum: int, off: nat, n: nat, src: seq<bv8>, i: nat, done: nat) {
    && inum in s0.ino && inum in s.ino && OthersSame(s0, s, inum)
    && done <= i && done <= |src| && Min(i, WholeChunks(|src|)) <= done && (|src| == n ==> done == i)
    && (i == 0 ==> s == s0) && (0 < i ==> off <= |Contents(s0, inum)|)
    && (off <= |Contents(s0, inum)| ==> Contents(s, inum) == Splice(Contents(s0, inum), off, src[..done]))
  }

  lemma {:induction false} FiledNone(s: Fs, inum: int, off: nat, n: nat, src: seq<bv8>)
    requires Inv(s, 0) && inum in s.ino
    ensures Filed(s, s, inum, off, n, src, 0, 0)
  {
    hide Inv, AddrOf, SameSlot, Contents;
    NothingWritten(s, inum, off, src);
  }

  lemma {:induction false} FiledRefused(s0: Fs, s: Fs, inum: int, off: nat, n: nat, src: seq<bv8>, i: nat, done: nat)
    requires Filed(s0, s, inum, off, n, src, i, done) && Inv(s0, 0) && Inv(s, 0) && i < n && i % CHUNK == 0 &&
               |src| <= n
    ensures |Contents(s, inum)| == s.ino[inum].size
    ensures var n1 := Min(CHUNK, n - i);
            off + i > s.ino[inum].size || off + i + n1 > MAXFILE * BSIZE <==>
                Refused(s0.ino[inum].size, off, i, n, |src|)
    ensures i <= WholeChunks(|src|) ==> done == i
    ensures i > WholeChunks(|src|) ==> |src| < i
  {
    hide Inv, AddrOf, SameSlot, Contents, OthersSame, WholeChunks;
    ContentsAt(s, inum);
    ContentsAt(s0, inum);
    ChunkStart(i, |src|);
  }

  lemma {:induction false} ChunkStart(i: nat, readable: nat)
    requires i % CHUNK == 0
    ensures i > WholeChunks(readable) ==> readable < i
  {
    hide WholeChunks;
    if WholeChunks(readable) < i <= readable {
      SameChunk(WholeChunks(readable), i);
    }
  }

  /** A chunk is taken: either it starts where the copying has got to, or nothing of it can be copied. */
  lemma {:induction false} FiledNext(
      s0: Fs, s1: Fs, s2: Fs, inum: int, off: nat, n: nat, src: seq<bv8>, i: nat, done: nat, n1: nat, tot: nat)
    requires Filed(s0, s1, inum, off, n, src, i, done) && |src| <= n && i < n && i % CHUNK == 0 &&
               n1 == Min(CHUNK, n - i)
    requires i <= WholeChunks(|src|) ==> done == i
    requires i > WholeChunks(|src|) ==> |src| < i
    requires tot <= |Piece(src, i, i + n1)| && (|Piece(src, i, i + n1)| == n1 ==> tot == n1)
    requires inum in s2.ino && OthersSame(s1, s2, inum) && off + i <= |Contents(s1, inum)|
    requires Contents(s2, inum) == Splice(Contents(s1, inum), off + i, Piece(src, i, i + n1)[..tot])
    ensures Filed(s0, s2, inum, off, n, src, i + n1, if done == i then done + tot else done)
  {
    hide Contents, OthersSame, WholeChunks, Splice, Piece;
    PieceSize(src, i, i + n1);
    FiledCount(n, |src|, i, done, n1, tot, |Piece(src, i, i + n1)|);
    OthersChain(s0, s1, s2, inum);
    FiledContents(Contents(s0, inum), Contents(s1, inum), Contents(s2, inum), off, src, i, done, n1, tot);
  }

  lemma {:induction false} PieceSize(src: seq<bv8>, a: nat, b: nat)
    requires a <= b
    ensures |Piece(src, a, b)| == Min(b, |src|) - Min(a, |src|)
  {
  }

  lemma {:induction false} OthersChain(s0: Fs, s1: Fs, s2: Fs, inum: int)
    requires OthersSame(s0, s1, inum) && OthersSame(s1, s2, inum)
    ensures OthersSame(s0, s2, inum)
  {
    hide SameSlot;
    forall t: Slot | t.inum != inum ensures SameSlot(s0, s2, t) {
      SlotChain(s0, s1, s2, t);
    }
  }

  lemma {:induction false} FiledContents(
      c0: seq<bv8>, c1: seq<bv8>, c2: seq<bv8>, off: nat, src: seq<bv8>, i: nat, done: nat, n1: nat, tot: nat)
    requires off <= |c0| && done <= |src| && c1 == Splice(c0, off, src[..done]) && off + i <= |c1|
    requires tot <= |Piece(src, i, i + n1)| && c2 == Splice(c1, off + i, Piece(src, i, i + n1)[..tot])
    requires done == i || (|src| < i && done < i)
    ensures var d := if done == i then done + tot else done; d <= |src| && c2 == Splice(c0, off, src[..d])
  {
    if done == i {
      SpliceTwice(c0, off, src[..i], Piece(src, i, i + n1)[..tot]);
      assert src[..i] + Piece(src, i, i + n1)[..tot] == src[..i + tot];
    } else {
      assert Piece(src, i, i + n1)[..tot] == [];
    }
  }

  lemma {:induction false} FiledCount(n: nat, readable: nat, i: nat, done: nat, n1: nat, tot: nat, piece: nat)
    requires readable <= n && i < n && i % CHUNK == 0 && n1 == Min(CHUNK, n - i)
    requires piece == Min(i + n1, readable) - Min(i, readable) && tot <= piece && (piece == n1 ==> tot == n1)
    requires done <= i && done <= readable && Min(i, WholeChunks(readable)) <= done && (readable == n ==> done == i)
    requires i <= WholeChunks(readable) ==> done == i
    requires i > WholeChunks(readable) ==> readable < i
    ensures var d := if done == i then done + tot else done;
            && d <= i + n1 && d <= readable && Min(i + n1, WholeChunks(readable)) <= d
            && (readable == n ==> d == i + n1)
  {
    hide WholeChunks;
    var fail := WholeChunks(readable);
    if i + n1 <= fail {
      assert fail <= readable;
    } else if i <= fail {
      assert i == fail by {
        SameChunk(i, fail);
      }
    }
  }

  lemma {:induction false} SameChunk(a: nat, b: nat)
    requires a % CHUNK == 0 && b % CHUNK == 0 && a <= b < a + CHUNK
    ensures a == b
  {
  }

  lemma {:induction false} FiledEnd(s0: Fs, s: Fs, inum: int, off: nat, n: nat, src: seq<bv8>, i: nat, done: nat)
    requires Filed(s0, s, inum, off, n, src, i, done)
    ensures OthersSame(s0, s, inum) && Min(i, WholeChunks(|src|)) <= done <= Min(i, |src|) && (|src| == n ==> done == i)
    ensures off <= |Contents(s0, inum)| ==> Contents(s, inum) == Splice(Contents(s0, inum), off, src[..done])
    ensures done == 0 ==> Contents(s, inum) == Contents(s0, inum)
  {
    hide Contents, OthersSame;
    if done == 0 && 0 < i {
      assert src[..done] == [];
      assert Splice(Contents(s0, inum), off, []) == Contents(s0, inum);
    }
  }

  const UINT: nat := 0x1_0000_0000

  function Min(a: int, b: int): int {
    if a < b then a else b
  }

  lemma {:induction false} BelowSize(s: Fs, i: int, o: nat)
    requires Inv(s, 0) && s.cut == NO_CUT && i in s.ino && o < s.ino[i].size
    ensures o / BSIZE < MAXFILE && AddrOf(s, Slot(i, o / BSIZE)) != 0
  {
    hide AddrOf;
    assert MappedAt(s, Slot(i, o / BSIZE)) && InodeAt(s, i);
  }

  /** How many bytes a read of n at off may return: none past the end or when off + n wraps, and none beyond the end. */
  function ReadLength(size: int, off: nat, n: nat): int {
    if off > size || (off + n) % UINT < off then 0 else if off + n > size then size - off else n
  }

  lemma {:induction false} ReadLengthIs(size: int, off: nat, n: nat)
    ensures ReadLength(size, off, n) == if off > size ||
              (off + n) % UINT < off then 0 else if off + n > size then size - off else n
  {
  }

  lemma {:induction false} NextChunk(at: nat, m: int, left: int)
    requires m == Min(left, BSIZE - at % BSIZE) && 0 < left
    ensures 0 < m <= left && (m < left ==> (at + m) % BSIZE == 0) && at % BSIZE + m <= BSIZE && m <= BSIZE
  {
  }

  lemma {:induction false} Extends(c: seq<bv8>, off: nat, n: nat, m: nat)
    requires off + n + m <= |c|
    ensures c[off..off + n] + c[off + n..off + n + m] == c[off..off + (n + m)]
  {
  }

  lemma {:induction false} ReadChunk(s: Fs, i: int, o: nat, m: nat, addr: int)
    requires Inv(s, 0) && i in s.ino && o + m <= s.ino[i].size && o % BSIZE + m <= BSIZE
    requires addr == AddrOf(s, Slot(i, o / BSIZE)) && 0 < addr < |s.content|
    ensures |Contents(s, i)| == s.ino[i].size
    ensures AsBytes(s.content[addr])[o % BSIZE..o % BSIZE + m] == Contents(s, i)[o..o + m]
  {
    hide Inv, AddrOf, Contents, Bytes;
    ContentsAt(s, i);
    var x, y := AsBytes(s.content[addr])[o % BSIZE..o % BSIZE + m], Contents(s, i)[o..o + m];
    forall d | 0 <= d < m ensures x[d] == y[d] {
      assert (o + d) / BSIZE == o / BSIZE && (o + d) % BSIZE == o % BSIZE + d;
    }
  }

  // ------------------------------------------------------------------
  // File contents

  /** The byte at offset o of file i. */
  function ByteOf(s: Fs, i: int, o: nat): bv8 {
    var a := AddrOf(s, Slot(i, o / BSIZE));
    if 0 < a < |s.content| then AsBytes(s.content[a])[o % BSIZE] else 0
  }

  function Bytes(s: Fs, i: int, size: nat): (b: seq<bv8>)
    ensures |b| == size && forall o :: 0 <= o < size ==> b[o] == ByteOf(s, i, o)
  {
    if size == 0 then [] else Bytes(s, i, size - 1) + [ByteOf(s, i, size - 1)]
  }

  /** What a file contains. */
  function Contents(s: Fs, i: int): seq<bv8>
    requires i in s.ino
  {
    if s.ino[i].size <= 0 then [] else Bytes(s, i, s.ino[i].size)
  }

  lemma {:induction false} ContentsAt(s: Fs, i: int)
    requires Inv(s, 0) && i in s.ino
    ensures |Contents(s, i)| == s.ino[i].size && forall o :: 0 <= o < s.ino[i].size ==>
              Contents(s, i)[o] == ByteOf(s, i, o)
  {
    InodeOk(s, i);
  }

  /** src replaces what c has from off on, and extends it where it ends. */
  function Splice(c: seq<bv8>, off: nat, src: seq<bv8>): seq<bv8>
    requires off <= |c|
  {
    c[..off] + src + if off + |src| < |c| then c[off + |src|..] else []
  }

  lemma {:induction false} SpliceTwice(c: seq<bv8>, off: nat, a: seq<bv8>, b: seq<bv8>)
    requires off <= |c|
    ensures off + |a| <= |Splice(c, off, a)| && Splice(Splice(c, off, a), off + |a|, b) == Splice(c, off, a + b)
  {
  }

  /** Every file but i has the same inode and the same contents. */
  ghost predicate OthersSame(s: Fs, s': Fs, i: int) {
    && s'.ino.Keys == s.ino.Keys
    && (forall j :: j in s.ino && j != i ==> s'.ino[j] == s.ino[j])
    && (forall t: Slot :: t.inum != i ==> SameSlot(s, s', t))
  }

  lemma {:induction false} OtherContents(s: Fs, s': Fs, i: int, j: int)
    requires OthersSame(s, s', i) && j != i && j in s.ino && Inv(s, 0)
    ensures Contents(s', j) == Contents(s, j)
  {
    var n := s.ino[j].size;
    forall o: nat | o < n ensures ByteOf(s', j, o) == ByteOf(s, j, o) {
      var sl := Slot(j, o / BSIZE);
      assert SameSlot(s, s', sl) && SlotAt(s, sl) && InodeAt(s, j);
    }
  }

  /** The slot of the idx-th address in the inode. */
  function InodeSlot(inum: int, idx: nat): Slot {
    Slot(inum, if idx == NDIRECT then MAXFILE else idx)
  }

  function IndirectCost(ib: int, bmapstart: nat): set<int> {
    if ib == 0 then {} else {ib / BPB + bmapstart, ib}
  }

  predicate SameSizes(a: map<int, Inode>, b: map<int, Inode>) {
    a.Keys == b.Keys && forall i :: i in a ==> b[i].size == a[i].size
  }

  lemma {:induction false} FreeBlock(s: Fs, b: int)
    requires Inv(s, 0) && 0 <= b < |s.bits| && !s.bits[b]
    ensures 0 < b && |s.bits| == |s.owner| == |s.content|
  {
    assert BlockAt(s, 0, 0);
  }

  lemma {:induction false} InodeOk(s: Fs, i: int)
    requires Inv(s, 0) && i in s.ino
    ensures |s.ino[i].addrs| == NDIRECT + 1 && 0 < i && 0 <= s.ino[i].size <= MAXFILE * BSIZE
    ensures |s.bits| == |s.content| == |s.owner|
  {
    assert InodeAt(s, i);
  }

  lemma {:induction false} DirectIs(s: Fs, i: int, bn: nat)
    requires i in s.ino && |s.ino[i].addrs| == NDIRECT + 1 && bn < NDIRECT
    ensures AddrOf(s, Slot(i, bn)) == s.ino[i].addrs[bn]
  {
  }

  lemma {:induction false} IndirectIs(s: Fs, i: int)
    requires i in s.ino && |s.ino[i].addrs| == NDIRECT + 1
    ensures AddrOf(s, Slot(i, MAXFILE)) == s.ino[i].addrs[NDIRECT]
  {
  }

  lemma {:induction false} EntryIs(s: Fs, i: int, bn: nat)
    requires Inv(s, 0) && i in s.ino && NDIRECT <= bn < MAXFILE && AddrOf(s, Slot(i, MAXFILE)) != 0 && s.cut == NO_CUT
    ensures 0 < AddrOf(s, Slot(i, MAXFILE)) < |s.content|
    ensures AddrOf(s, Slot(i, bn)) == AsAddrs(s.content[AddrOf(s, Slot(i, MAXFILE))])[bn - NDIRECT]
  {
    assert SlotAt(s, Slot(i, MAXFILE)) && InodeAt(s, i);
  }

  lemma {:induction false} NoNewIndirect(s: Fs, i: int, bn: nat)
    requires Inv(s, 0) && i in s.ino && NDIRECT <= bn < MAXFILE
    ensures AddrOf(s, Slot(i, MAXFILE)) == 0 ==> AddrOf(s, Slot(i, bn)) == 0
  {
  }

  lemma {:induction false} SlotBlock(s: Fs, sl: Slot)
    requires Inv(s, 0) && AddrOf(s, sl) != 0
    ensures 0 < AddrOf(s, sl) < |s.content| && |s.content| == |s.bits| && s.bits[AddrOf(s, sl)]
    ensures sl.k != MAXFILE ==> IsData(s.content[AddrOf(s, sl)])
  {
    assert SlotAt(s, sl) && BlockAt(s, AddrOf(s, sl), 0);
  }

  lemma {:induction false} SlotChains(s: Fs, s1: Fs, s2: Fs, x: Slot, y: Slot)
    requires (forall t :: t != x ==> SameSlot(s, s1, t)) && forall t :: t != y ==> SameSlot(s1, s2, t)
    ensures forall t :: t != x && t != y ==> SameSlot(s, s2, t)
  {
    hide SameSlot;
    forall t | t != x && t != y ensures SameSlot(s, s2, t) {
      SlotChain(s, s1, s2, t);
    }
  }

  lemma {:induction false} SlotsSame(s: Fs)
    ensures forall t :: SameSlot(s, s, t)
  {
  }

  /** A block just allocated from state s goes into an empty slot. */
  lemma {:induction false} PlaceFresh(s: Fs, sl: Slot, b: nat)
    requires Inv(s, 0) && s.cut == NO_CUT && b < |s.bits| && !s.bits[b]
    requires sl.inum in s.ino && 0 <= sl.k <= MAXFILE && AddrOf(s, sl) == 0
    requires NDIRECT <= sl.k < MAXFILE ==> AddrOf(s, Slot(sl.inum, MAXFILE)) != 0
    ensures |s.ino[sl.inum].addrs| == NDIRECT + 1 && |s.bits| == |s.owner| == |s.content|
    ensures NDIRECT <= sl.k < MAXFILE ==>
              0 < s.ino[sl.inum].addrs[NDIRECT] < |s.content| && s.ino[sl.inum].addrs[NDIRECT] != b
    ensures var s' := Placed(Allocated(s, b), sl, b);
            && Inv(s', 0) && AddrOf(s', sl) == b && s'.content[b] == Zero
            && (forall t :: t != sl ==> SameSlot(s, s', t))
  {
    hide Inv, AddrOf, SameSlot, Allocated, Placed;
    assert |s.bits| == |s.owner| == |s.content| by { FreeBlock(s, b); }
    AllocatedInv(s, b);
    var s1 := Allocated(s, b);
    forall t ensures SameSlot(s, s1, t) {
      AllocatedSlots(s, b, t);
    }
    AllocatedIs(s, b);
    SameAddr(s, s1, sl);
    SameAddr(s, s1, Slot(sl.inum, MAXFILE));
    PlacedSlots(s1, sl, b, sl);
    PlacedInv(s1, sl, b);
    var s' := Placed(s1, sl, b);
    forall t | t != sl ensures SameSlot(s, s', t) {
      PlacedSlots(s1, sl, b, t);
      SlotChain(s, s1, s', t);
    }
    StillZero(s, s1, sl, b);
  }

  lemma {:induction false} AllocatedIs(s: Fs, b: nat)
    requires b < |s.bits| && |s.bits| == |s.owner| == |s.content|
    ensures var s1 := Allocated(s, b);
            s1.ino == s.ino && s1.cut == s.cut && |s1.owner| == |s1.content| == |s1.bits| == |s.bits|
            && s1.owner[b] == Held && s1.content[b] == Zero
  {
  }

  lemma {:induction false} SameAddr(s: Fs, s': Fs, t: Slot)
    requires SameSlot(s, s', t)
    ensures AddrOf(s', t) == AddrOf(s, t)
  {
  }

  lemma {:induction false} SlotChain(s: Fs, s1: Fs, s2: Fs, t: Slot)
    requires SameSlot(s, s1, t) && SameSlot(s1, s2, t)
    ensures SameSlot(s, s2, t)
  {
    hide AddrOf;
  }

  lemma {:induction false} StillZero(s: Fs, s1: Fs, sl: Slot, b: nat)
    requires Inv(s, 0) && b < |s.bits| && !s.bits[b] && |s.bits| == |s.owner| == |s.content| && s1 == Allocated(s, b)
    requires sl.inum in s.ino && |s.ino[sl.inum].addrs| == NDIRECT + 1 && 0 <= sl.k <= MAXFILE
    requires NDIRECT <= sl.k < MAXFILE ==> 0 < s.ino[sl.inum].addrs[NDIRECT] < |s.content|
    ensures Placed(s1, sl, b).content[b] == Zero
    ensures NDIRECT <= sl.k < MAXFILE ==> s.ino[sl.inum].addrs[NDIRECT] != b
  {
    assert BlockAt(s, b, 0);
    IndirectElsewhere(s, sl.inum, b);
  }
}
