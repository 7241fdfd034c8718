/**
 Disk blocks and the inodes that own them: the allocation bitmap, block addresses
 and file contents of kernel/fs.c.

 The blocks are those the file system sees through its cache.  A block's contents
 are read as bytes, or as 256 addresses when it is an indirect block; a zeroed
 block can be read both ways.  Every block has one owner, which is what
 the bitmap and the address slots of all inodes amount to.
 */
module Blocks {

  const BSIZE: nat := 1024
  const BPB: nat := 8192
  const NDIRECT: nat := 12
  const NINDIRECT: nat := 256
  const MAXFILE: nat := NDIRECT + NINDIRECT

  datatype Content = Zero | Data(bytes: seq<bv8>) | Addrs(addrs: seq<int>)

  function ZeroBytes(): (b: seq<bv8>)
    ensures |b| == BSIZE
  {
    seq(BSIZE, i => 0)
  }

  function ZeroAddrs(): (a: seq<int>)
    ensures |a| == NINDIRECT && forall i :: 0 <= i < NINDIRECT ==> a[i] == 0
  {
    seq(NINDIRECT, i => 0)
  }

  predicate IsData(c: Content) {
    c.Zero? || (c.Data? && |c.bytes| == BSIZE)
  }

  predicate IsAddrs(c: Content) {
    c.Zero? || (c.Addrs? && |c.addrs| == NINDIRECT)
  }

  function AsBytes(c: Content): (b: seq<bv8>)
    ensures |b| == BSIZE
  {
    if c.Data? && |c.bytes| == BSIZE then c.bytes else ZeroBytes()
  }

  function AsAddrs(c: Content): (a: seq<int>)
    ensures |a| == NINDIRECT
  {
    if c.Addrs? && |c.addrs| == NINDIRECT then c.addrs else ZeroAddrs()
  }

  datatype Inode = Inode(size: int, addrs: seq<int>)

  /** The place of a block in a file: k-th data block, or the indirect block when k is MAXFILE. */
  datatype Slot = Slot(inum: int, k: int)

  datatype Owner = Free | Meta | Held | Used(slot: Slot)

  /** While an inode is truncated, its indirect entries from NDIRECT up to the cut no longer count. */
  datatype Cut = Cut(inum: int, upTo: int)

  const NO_CUT := Cut(0, 0)

  datatype Fs = Fs(bits: seq<bool>, content: seq<Content>, ino: map<int, Inode>, cut: Cut, owner: seq<Owner>)

  /** The block address a slot holds, 0 if none. */
  function AddrOf(s: Fs, sl: Slot): int {
    if sl.inum !in s.ino || |s.ino[sl.inum].addrs| != NDIRECT + 1 then 0
    else
      var a := s.ino[sl.inum].addrs;
      if 0 <= sl.k < NDIRECT then a[sl.k]
      else if sl.k == MAXFILE then a[NDIRECT]
      else if NDIRECT <= sl.k < MAXFILE && 0 < a[NDIRECT] < |s.content| && !(sl.inum == s.cut.inum && sl.k < s.cut.upTo)
      then AsAddrs(s.content[a[NDIRECT]])[sl.k - NDIRECT]
      else 0
  }

  // ------------------------------------------------------------------
  // The invariant

  predicate BlockAt(s: Fs, b: int, held: int) {
    0 <= b < |s.owner| && |s.bits| == |s.owner| == |s.content| ==>
      && (s.bits[b] <==> s.owner[b] != Free)
      && (s.owner[b] == Held <==> b == held && held != 0)
      && (s.owner[b].Used? ==> AddrOf(s, s.owner[b].slot) == b)
  }

  predicate SlotAt(s: Fs, sl: Slot) {
    var a := AddrOf(s, sl);
    a != 0 && |s.owner| == |s.content| ==>
      0 < a < |s.owner| && s.owner[a] == Used(sl) &&
          if sl.k == MAXFILE then IsAddrs(s.content[a]) else IsData(s.content[a])
  }

  predicate MappedAt(s: Fs, sl: Slot) {
    sl.inum in s.ino && sl.inum != s.cut.inum && 0 <= sl.k && sl.k * BSIZE < s.ino[sl.inum].size ==>
      sl.k < MAXFILE && AddrOf(s, sl) != 0
  }

  predicate InodeAt(s: Fs, i: int) {
    i in s.ino ==> 0 < i && |s.ino[i].addrs| == NDIRECT + 1 && 0 <= s.ino[i].size <= MAXFILE * BSIZE
  }

  /**
   No block is in two slots, every block in a slot and every metadata block is marked
   in use, every other block but the held one is marked free, and every block
   below a file's size is there.
   */
  ghost predicate Inv(s: Fs, held: int) {
    && |s.bits| == |s.owner| == |s.content| && 0 < |s.owner| && s.owner[0] == Meta
    && (forall b :: BlockAt(s, b, held))
    && (forall sl :: SlotAt(s, sl))
    && (forall sl :: MappedAt(s, sl))
    && (forall i :: InodeAt(s, i))
  }

  // ------------------------------------------------------------------
  // Steps

  /** A free block is marked, zeroed and held. */
  function Allocated(s: Fs, b: nat): Fs
    requires b < |s.bits| && |s.bits| == |s.owner| == |s.content|
  {
    s.(bits := s.bits[b := true], content := s.content[b := Zero], owner := s.owner[b := Held])
  }

  /** Address a is written into a slot of an inode, or of its indirect block. */
  function WithAddr(s: Fs, sl: Slot, a: int): Fs
    requires sl.inum in s.ino && |s.ino[sl.inum].addrs| == NDIRECT + 1 && 0 <= sl.k <= MAXFILE
    requires NDIRECT <= sl.k < MAXFILE ==> 0 < s.ino[sl.inum].addrs[NDIRECT] < |s.content|
  {
    var ip := s.ino[sl.inum];
    if sl.k < NDIRECT then s.(ino := s.ino[sl.inum := ip.(addrs := ip.addrs[sl.k := a])])
    else if sl.k == MAXFILE then s.(ino := s.ino[sl.inum := ip.(addrs := ip.addrs[NDIRECT := a])])
    else
      var ib := ip.addrs[NDIRECT];
      s.(content := s.content[ib := Addrs(AsAddrs(s.content[ib])[sl.k - NDIRECT := a])])
  }

  function Placed(s: Fs, sl: Slot, b: nat): Fs
    requires sl.inum in s.ino && |s.ino[sl.inum].addrs| == NDIRECT + 1 && 0 <= sl.k <= MAXFILE
    requires NDIRECT <= sl.k < MAXFILE ==> 0 < s.ino[sl.inum].addrs[NDIRECT] < |s.content|
    requires b < |s.owner|
  {
    WithAddr(s, sl, b).(owner := s.owner[b := Used(sl)])
  }

  lemma {:induction false} AllocatedInv(s: Fs, b: nat)
    requires Inv(s, 0) && b < |s.bits| && !s.bits[b]
    ensures 0 < b && Inv(Allocated(s, b), b)
  {
    assert BlockAt(s, 0, 0) && BlockAt(s, b, 0);
    var s' := Allocated(s, b);
    forall sl ensures AddrOf(s', sl) == AddrOf(s, sl) {
      IndirectElsewhere(s, sl.inum, b);
    }
    forall c ensures BlockAt(s', c, b) {
      assert BlockAt(s, c, 0);
    }
    forall sl ensures SlotAt(s', sl) {
      assert SlotAt(s, sl);
    }
    forall sl ensures MappedAt(s', sl) {
      assert MappedAt(s, sl);
    }
    forall i ensures InodeAt(s', i) {
      assert InodeAt(s, i);
    }
  }

  /** A block that is no slot's is no inode's indirect block. */
  lemma {:induction false} IndirectElsewhere(s: Fs, i: int, b: nat)
    requires Inv(s, 0) && b < |s.owner| && !s.owner[b].Used?
    ensures i in s.ino && |s.ino[i].addrs| == NDIRECT + 1 ==> s.ino[i].addrs[NDIRECT] != b || b == 0
  {
    assert SlotAt(s, Slot(i, MAXFILE));
  }

  /** The slot holds the same block, with the same contents if it is a data block. */
  predicate SameSlot(s: Fs, s': Fs, sl: Slot) {
    && AddrOf(s', sl) == AddrOf(s, sl)
    && (0 < AddrOf(s, sl) < |s.content| && sl.k != MAXFILE ==>
          AddrOf(s, sl) < |s'.content| && s'.content[AddrOf(s, sl)] == s.content[AddrOf(s, sl)])
  }

  lemma {:induction false} AllocatedSlots(s: Fs, b: nat, sl: Slot)
    requires Inv(s, 0) && b < |s.bits| && !s.bits[b]
    ensures SameSlot(s, Allocated(s, b), sl)
  {
    assert BlockAt(s, b, 0);
    IndirectElsewhere(s, sl.inum, b);
    assert SlotAt(s, sl) && BlockAt(s, 0, 0);
  }

  lemma {:induction false} PlacedSlots(s: Fs, sl: Slot, b: nat, t: Slot)
    requires Inv(s, b) && 0 < b < |s.owner| && s.owner[b] == Held && s.content[b] == Zero && s.cut == NO_CUT
    requires sl.inum in s.ino && 0 <= sl.k <= MAXFILE && AddrOf(s, sl) == 0
    requires NDIRECT <= sl.k < MAXFILE ==> AddrOf(s, Slot(sl.inum, MAXFILE)) != 0
    ensures |s.ino[sl.inum].addrs| == NDIRECT + 1
    ensures NDIRECT <= sl.k < MAXFILE ==> 0 < s.ino[sl.inum].addrs[NDIRECT] < |s.content|
    ensures if t == sl then AddrOf(Placed(s, sl, b), t) == b else SameSlot(s, Placed(s, sl, b), t)
  {
    assert InodeAt(s, sl.inum) && SlotAt(s, Slot(sl.inum, MAXFILE)) && SlotAt(s, Slot(t.inum, MAXFILE));
    assert SlotAt(s, t);
  }

  lemma {:induction false} PlacedInv(s: Fs, sl: Slot, b: nat)
    requires Inv(s, b) && 0 < b < |s.owner| && s.owner[b] == Held && s.content[b] == Zero && s.cut == NO_CUT
    requires sl.inum in s.ino && 0 <= sl.k <= MAXFILE && AddrOf(s, sl) == 0
    requires NDIRECT <= sl.k < MAXFILE ==> AddrOf(s, Slot(sl.inum, MAXFILE)) != 0
    ensures |s.ino[sl.inum].addrs| == NDIRECT + 1
    ensures NDIRECT <= sl.k < MAXFILE ==> 0 < s.ino[sl.inum].addrs[NDIRECT] < |s.content|
    ensures Inv(Placed(s, sl, b), 0)
  {
    hide AddrOf;
    PlacedSlots(s, sl, b, sl);
    var s' := Placed(s, sl, b);
    forall t | t != sl ensures SameSlot(s, s', t) {
      PlacedSlots(s, sl, b, t);
    }
    forall c ensures BlockAt(s', c, 0) {
      assert BlockAt(s, c, b);
      if 0 <= c < |s.owner| && s.owner[c].Used? {
        assert s.owner[c].slot != sl && SameSlot(s, s', s.owner[c].slot);
      }
    }
    PlacedKinds(s, sl, b);
    assert SlotAt(s, Slot(sl.inum, MAXFILE));
    forall t ensures SlotAt(s', t) {
      assert SlotAt(s, t) && SameOrNew(s, s', sl, t);
    }
    forall t ensures MappedAt(s', t) {
      assert MappedAt(s, t) && SameOrNew(s, s', sl, t);
    }
    forall i ensures InodeAt(s', i) {
      assert InodeAt(s, i);
    }
  }

  predicate SameOrNew(s: Fs, s': Fs, sl: Slot, t: Slot) {
    t == sl || SameSlot(s, s', t)
  }

  /** Placing a block changes no block's contents but the indirect block's. */
  lemma {:induction false} PlacedKinds(s: Fs, sl: Slot, b: nat)
    requires Inv(s, b) && 0 < b < |s.owner| && sl.inum in s.ino && 0 <= sl.k <= MAXFILE
    requires |s.ino[sl.inum].addrs| == NDIRECT + 1
    requires NDIRECT <= sl.k < MAXFILE ==> 0 < s.ino[sl.inum].addrs[NDIRECT] < |s.content|
    ensures var s', ib := Placed(s, sl, b), AddrOf(s, Slot(sl.inum, MAXFILE));
            && |s'.content| == |s.content|
            && forall c :: 0 <= c < |s.content| ==>
                 s'.content[c] == s.content[c] || (c == ib != 0 && NDIRECT <= sl.k < MAXFILE && IsAddrs(s'.content[c]))
  {
  }

  // ------------------------------------------------------------------
  // Freeing

  /** The block of a direct slot, or the indirect block, is marked free and its address cleared. */
  function Freed(s: Fs, sl: Slot): Fs
    requires sl.inum in s.ino && |s.ino[sl.inum].addrs| == NDIRECT + 1 && (0 <= sl.k < NDIRECT || sl.k == MAXFILE)
    requires 0 < AddrOf(s, sl) < |s.bits| && |s.bits| == |s.owner|
  {
    var a := AddrOf(s, sl);
    WithAddr(s, sl, 0).(bits := s.bits[a := false], owner := s.owner[a := Free])
  }

  /** The block of the next indirect entry is marked free; the entry no longer counts. */
  function EntryFreed(s: Fs, sl: Slot): Fs
    requires 0 <= AddrOf(s, sl) < |s.bits| && |s.bits| == |s.owner|
  {
    var a := AddrOf(s, sl);
    var s1 := if a == 0 then s else s.(bits := s.bits[a := false], owner := s.owner[a := Free]);
    s1.(cut := Cut(sl.inum, sl.k + 1))
  }

  lemma {:induction false} FreedSlots(s: Fs, sl: Slot, t: Slot)
    requires Inv(s, 0) && sl.inum in s.ino && (0 <= sl.k < NDIRECT || sl.k == MAXFILE) && AddrOf(s, sl) != 0
    requires sl.k == MAXFILE ==> s.cut == Cut(sl.inum, MAXFILE)
    ensures |s.ino[sl.inum].addrs| == NDIRECT + 1 && 0 < AddrOf(s, sl) < |s.bits|
    ensures if t == sl then AddrOf(Freed(s, sl), t) == 0 else SameSlot(s, Freed(s, sl), t)
  {
    assert InodeAt(s, sl.inum) && SlotAt(s, sl);
  }

  lemma {:induction false} FreedInv(s: Fs, sl: Slot)
    requires Inv(s, 0) && sl.inum in s.ino && (0 <= sl.k < NDIRECT || sl.k == MAXFILE) && AddrOf(s, sl) != 0
    requires s.cut.inum == sl.inum && (sl.k == MAXFILE ==> s.cut.upTo == MAXFILE)
    ensures |s.ino[sl.inum].addrs| == NDIRECT + 1 && 0 < AddrOf(s, sl) < |s.bits| && s.bits[AddrOf(s, sl)]
    ensures Inv(Freed(s, sl), 0)
  {
    hide AddrOf;
    FreedSlots(s, sl, sl);
    assert SlotAt(s, sl) && BlockAt(s, AddrOf(s, sl), 0);
    var s' := Freed(s, sl);
    forall t | t != sl ensures SameSlot(s, s', t) {
      FreedSlots(s, sl, t);
    }
    FreedKeeps(s, sl);
    AfterFree(s, s', sl);
  }

  lemma {:induction false} FreedKeeps(s: Fs, sl: Slot)
    requires Inv(s, 0) && sl.inum in s.ino && (0 <= sl.k < NDIRECT || sl.k == MAXFILE)
    requires |s.ino[sl.inum].addrs| == NDIRECT + 1 && 0 < AddrOf(s, sl) < |s.bits|
    ensures var s' := Freed(s, sl);
            && s'.content == s.content && s'.cut == s.cut && s'.ino.Keys == s.ino.Keys
            && s'.bits == s.bits[AddrOf(s, sl) := false] && s'.owner == s.owner[AddrOf(s, sl) := Free]
            && forall i :: i in s.ino ==> s'.ino[i].size == s.ino[i].size && |s'.ino[i].addrs| == |s.ino[i].addrs|
  {
  }

  /** Once a slot is empty and its block free, with nothing else touched, the invariant holds again. */
  lemma {:induction false} AfterFree(s: Fs, s': Fs, sl: Slot)
    requires Inv(s, 0) && 0 < AddrOf(s, sl) < |s.bits|
    requires AddrOf(s', sl) == 0 && forall t :: t != sl ==> SameSlot(s, s', t)
    requires s'.content == s.content && s'.ino.Keys == s.ino.Keys && s'.cut.inum == s.cut.inum == sl.inum
    requires s'.bits == s.bits[AddrOf(s, sl) := false] && s'.owner == s.owner[AddrOf(s, sl) := Free]
    requires forall i :: i in s.ino ==> s'.ino[i].size == s.ino[i].size && |s'.ino[i].addrs| == |s.ino[i].addrs|
    ensures Inv(s', 0)
  {
    hide AddrOf;
    var a := AddrOf(s, sl);
    assert SlotAt(s, sl);
    forall c ensures BlockAt(s', c, 0) {
      assert BlockAt(s, c, 0);
      if 0 <= c < |s.owner| && c != a && s.owner[c].Used? {
        assert s.owner[c].slot != sl && SameSlot(s, s', s.owner[c].slot);
      }
    }
    forall t ensures SlotAt(s', t) {
      assert SlotAt(s, t) && SameOrNew(s, s', sl, t);
    }
    forall t ensures MappedAt(s', t) {
      assert MappedAt(s, t) && SameOrNew(s, s', sl, t);
    }
    forall i ensures InodeAt(s', i) {
      assert InodeAt(s, i);
    }
  }

  lemma {:induction false} EntryFreedInv(s: Fs, sl: Slot)
    requires Inv(s, 0) && sl.inum in s.ino && NDIRECT <= sl.k < MAXFILE && s.cut == Cut(sl.inum, sl.k)
    ensures 0 <= AddrOf(s, sl) < |s.bits| && (AddrOf(s, sl) != 0 ==> s.bits[AddrOf(s, sl)])
    ensures Inv(EntryFreed(s, sl), 0) && AddrOf(EntryFreed(s, sl), sl) == 0
    ensures forall t :: t != sl ==> SameSlot(s, EntryFreed(s, sl), t)
  {
    assert SlotAt(s, sl) && BlockAt(s, AddrOf(s, sl), 0);
    var s' := EntryFreed(s, sl);
    EntryFreedSlots(s, sl);
    if AddrOf(s, sl) == 0 {
      CutMoved(s, s');
    } else {
      AfterFree(s, s', sl);
    }
  }

  lemma {:induction false} EntryFreedSlots(s: Fs, sl: Slot)
    requires Inv(s, 0) && sl.inum in s.ino && NDIRECT <= sl.k < MAXFILE && s.cut == Cut(sl.inum, sl.k)
    requires 0 <= AddrOf(s, sl) < |s.bits|
    ensures AddrOf(EntryFreed(s, sl), sl) == 0 && forall t :: t != sl ==> SameSlot(s, EntryFreed(s, sl), t)
  {
    var s' := EntryFreed(s, sl);
    assert InodeAt(s, sl.inum);
    forall t | t != sl ensures SameSlot(s, s', t) {
    }
  }

  lemma {:induction false} CutMoved(s: Fs, s': Fs)
    requires Inv(s, 0) && s' == s.(cut := s'.cut) && forall t :: SameSlot(s, s', t)
    requires s'.cut.inum == s.cut.inum || s.cut == NO_CUT
    ensures Inv(s', 0)
  {
    hide AddrOf;
    forall c ensures BlockAt(s', c, 0) {
      assert BlockAt(s, c, 0);
      if 0 <= c < |s.owner| && s.owner[c].Used? {
        assert SameSlot(s, s', s.owner[c].slot);
      }
    }
    forall t ensures SlotAt(s', t) {
      assert SlotAt(s, t) && SameSlot(s, s', t);
    }
    forall t ensures MappedAt(s', t) {
      assert MappedAt(s, t) && SameSlot(s, s', t) && InodeAt(s, t.inum);
    }
    forall i ensures InodeAt(s', i) {
      assert InodeAt(s, i);
    }
  }

  lemma {:induction false} CutStarted(s: Fs, i: int)
    requires Inv(s, 0) && s.cut == NO_CUT && i in s.ino
    ensures Inv(s.(cut := Cut(i, NDIRECT)), 0) && forall t :: SameSlot(s, s.(cut := Cut(i, NDIRECT)), t)
  {
    assert InodeAt(s, i);
    var s' := s.(cut := Cut(i, NDIRECT));
    forall t ensures SameSlot(s, s', t) {
    }
    CutMoved(s, s');
  }

  /** With every address cleared the size goes to 0 and the inode is whole again. */
  lemma {:induction false} CutEnded(s: Fs, i: int)
    requires Inv(s, 0) && s.cut.inum == i && i in s.ino && AddrOf(s, Slot(i, MAXFILE)) == 0
    requires forall k :: 0 <= k < NDIRECT ==> AddrOf(s, Slot(i, k)) == 0
    ensures var s' := s.(ino := s.ino[i := s.ino[i].(size := 0)], cut := NO_CUT);
            && Inv(s', 0) && (forall t :: SameSlot(s, s', t))
            && forall k :: AddrOf(s', Slot(i, k)) == 0
  {
    var s' := s.(ino := s.ino[i := s.ino[i].(size := 0)], cut := NO_CUT);
    assert InodeAt(s, i);
    forall t ensures SameSlot(s, s', t) {
    }
    forall k ensures AddrOf(s', Slot(i, k)) == 0 {
      assert 0 <= k < NDIRECT ==> AddrOf(s, Slot(i, k)) == 0;
    }
    EndInv(s, s', i);
  }

  lemma {:induction false} EndInv(s: Fs, s': Fs, i: int)
    requires Inv(s, 0) && s.cut.inum == i && i in s.ino &&
               s' == s.(ino := s.ino[i := s.ino[i].(size := 0)], cut := NO_CUT)
    requires forall t :: SameSlot(s, s', t)
    ensures Inv(s', 0)
  {
    hide AddrOf;
    forall c ensures BlockAt(s', c, 0) {
      assert BlockAt(s, c, 0);
      if 0 <= c < |s.owner| && s.owner[c].Used? {
        assert SameSlot(s, s', s.owner[c].slot);
      }
    }
    forall t ensures SlotAt(s', t) {
      assert SlotAt(s, t) && SameSlot(s, s', t);
    }
    forall t ensures MappedAt(s', t) {
      assert MappedAt(s, t) && SameSlot(s, s', t);
    }
    forall j ensures InodeAt(s', j) {
      assert InodeAt(s, j);
    }
  }

  // ------------------------------------------------------------------
  // Writing

  function Written(s: Fs, a: nat, bytes: seq<bv8>): Fs
    requires a < |s.content|
  {
    s.(content := s.content[a := Data(bytes)])
  }

  lemma {:induction false} WrittenInv(s: Fs, sl: Slot, bytes: seq<bv8>)
    requires Inv(s, 0) && 0 <= sl.k < MAXFILE && AddrOf(s, sl) != 0 && |bytes| == BSIZE
    ensures 0 < AddrOf(s, sl) < |s.content| && Inv(Written(s, AddrOf(s, sl), bytes), 0)
    ensures AddrOf(Written(s, AddrOf(s, sl), bytes), sl) == AddrOf(s, sl)
    ensures forall t :: t != sl ==> SameSlot(s, Written(s, AddrOf(s, sl), bytes), t)
  {
    assert SlotAt(s, sl);
    var a := AddrOf(s, sl);
    var s' := Written(s, a, bytes);
    forall t ensures AddrOf(s', t) == AddrOf(s, t) && (t != sl ==> SameSlot(s, s', t)) {
      assert SlotAt(s, Slot(t.inum, MAXFILE)) && SlotAt(s, t);
    }
    forall c ensures BlockAt(s', c, 0) {
      assert BlockAt(s, c, 0);
    }
    forall t ensures SlotAt(s', t) {
      assert SlotAt(s, t);
    }
    forall t ensures MappedAt(s', t) {
      assert MappedAt(s, t);
    }
    forall i ensures InodeAt(s', i) {
      assert InodeAt(s, i);
    }
  }

  function Resized(s: Fs, i: int, size: int): Fs
    requires i in s.ino
  {
    s.(ino := s.ino[i := s.ino[i].(size := size)])
  }

  lemma {:induction false} ResizedInv(s: Fs, i: int, size: int)
    requires Inv(s, 0) && i in s.ino && 0 <= size <= MAXFILE * BSIZE
    requires forall k :: 0 <= k && k * BSIZE < size ==> AddrOf(s, Slot(i, k)) != 0
    ensures Inv(Resized(s, i, size), 0) && forall t :: SameSlot(s, Resized(s, i, size), t)
  {
    var s' := Resized(s, i, size);
    assert InodeAt(s, i);
    forall t ensures SameSlot(s, s', t) {
    }
    forall c ensures BlockAt(s', c, 0) {
      assert BlockAt(s, c, 0);
    }
    forall t ensures SlotAt(s', t) {
      assert SlotAt(s, t) && SameSlot(s, s', t);
    }
    forall t: Slot ensures MappedAt(s', t) {
      assert MappedAt(s, t) && t == Slot(t.inum, t.k) && SameSlot(s, s', t);
    }
    forall j ensures InodeAt(s', j) {
      assert InodeAt(s, j);
    }
  }
}
