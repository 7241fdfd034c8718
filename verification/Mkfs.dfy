/**
 The image builder of mkfs/mkfs.c: blocks and inodes are handed out by counters, files
 are appended to, and at the end the bitmap marks every block below the counter.
 The image it leaves is a state of the file system in which the invariant holds.
 */
module Mkfs {
  import opened Blocks
  import opened Files

  /** The bitmap of an image whose first used blocks are taken. */
  function Marks(nb: nat, used: int): (m: seq<bool>)
    ensures |m| == nb && forall b :: 0 <= b < nb ==> (m[b] <==> b < used)
  {
    seq(nb, b => b < used)
  }

  lemma {:induction false} MarkNext(nb: nat, used: nat)
    requires used < nb
    ensures Marks(nb, used)[used := true] == Marks(nb, used + 1)
  {
  }

  class Image {
    const nmeta: nat
    var content: seq<Content>
    var ino: map<int, Inode>
    var freeblock: int
    var freeinode: int
    ghost var owner: seq<Owner>

    ghost function State(): Fs
      reads this
    {
      Fs(Marks(|content|, freeblock), content, ino, NO_CUT, owner)
    }

    ghost predicate Sound()
      reads this
    {
      && Inv(State(), 0) && nmeta <= freeblock <= |content| && 0 < freeinode
      && (forall b :: freeblock <= b < |content| ==> content[b] == Zero)
      && (forall i :: i in ino ==> i < freeinode)
    }

    /** Between appends, no file has a block past its size. */
    ghost predicate Valid()
      reads this
    {
      Sound() && Tight(State())
    }

    /** All blocks zeroed, the metadata blocks taken. */
    constructor (size: nat, meta: nat)
      requires 0 < meta <= size
      ensures Valid() && nmeta == meta && |content| == size && freeblock == meta && freeinode == 1 && ino == map[]
    {
      nmeta := meta;
      content := seq(size, b => Zero);
      ino, freeblock, freeinode := map[], meta, 1;
      owner := seq(size, b => if 0 <= b < meta then Meta else Free);
      new;
      FreshImage(State(), meta);
    }

    /** The next inode number, with an empty inode. */
    method Ialloc() returns (inum: int)
      requires Valid()
      modifies `ino, `freeinode
      ensures Valid() && inum == old(freeinode) && inum !in old(ino)
      ensures ino == old(ino)[inum := Inode(0, EmptyAddrs())] && Contents(State(), inum) == []
      ensures OthersKept(old(State()), State())
    {
      hide Inv, AddrOf, SameSlot;
      InodeAdded(State(), freeinode);
      ghost var s0 := State();
      inum := freeinode;
      freeinode := freeinode + 1;
      ino := ino[inum := Inode(0, EmptyAddrs())];
      TightAdded(s0, State(), inum);
    }

    /** The next block goes into an empty address of an inode. */
    method Place(sl: Slot) returns (b: int)
      requires Sound() && freeblock < |content| && sl.inum in ino && 0 <= sl.k <= MAXFILE && AddrOf(State(), sl) == 0
      requires NDIRECT <= sl.k < MAXFILE ==> AddrOf(State(), Slot(sl.inum, MAXFILE)) != 0
      modifies `content, `ino, `freeblock, `owner
      ensures Sound() && b == old(freeblock) && freeblock == b + 1 && |content| == |old(content)|
      ensures AddrOf(State(), sl) == b != 0 && SameSizes(old(ino), ino) && forall j :: j in ino && j != sl.inum ==>
                ino[j] == old(ino)[j]
      ensures forall t :: t != sl ==> SameSlot(old(State()), State(), t)
    {
      hide Inv, AddrOf, SameSlot;
      ghost var s0 := State();
      PlaceFresh(s0, sl, freeblock);
      FreeBlock(s0, freeblock);
      MarkNext(|content|, freeblock);
      b := freeblock;
      freeblock := freeblock + 1;
      var ip := ino[sl.inum];
      if sl.k < NDIRECT {
        ino := ino[sl.inum := ip.(addrs := ip.addrs[sl.k := b])];
      } else if sl.k == MAXFILE {
        ino := ino[sl.inum := ip.(addrs := ip.addrs[NDIRECT := b])];
      } else {
        var ib := ip.addrs[NDIRECT];
        content := content[ib := Addrs(AsAddrs(content[ib])[sl.k - NDIRECT := b])];
        IndirectBelow(s0, sl.inum);
      }
      owner := owner[b := Used(sl)];
      assert s0.content[b := Zero] == s0.content;
      assert State() == Placed(Allocated(s0, b), sl, b);
    }

    /** The block of the fbn-th part of a file, the next ones if it is missing. */
    method BlockFor(inum: int, fbn: nat) returns (x: int)
      requires Sound() && inum in ino && fbn < MAXFILE && freeblock + 2 <= |content|
      modifies `content, `ino, `freeblock, `owner
      ensures Sound() && inum in ino && freeblock <= old(freeblock) + 2 && |content| == |old(content)|
      ensures x == AddrOf(State(), Slot(inum, fbn)) && x != 0 && SameSizes(old(ino), ino)
      ensures forall j :: j in ino && j != inum ==> ino[j] == old(ino)[j]
      ensures forall t :: t != Slot(inum, fbn) && t != Slot(inum, MAXFILE) ==> SameSlot(old(State()), State(), t)
      ensures AddrOf(old(State()), Slot(inum, fbn)) != 0 ==> State() == old(State()) && freeblock == old(freeblock)
    {
      hide Inv, AddrOf, SameSlot;
      ghost var s0 := State();
      SlotsSame(s0);
      InodeOk(s0, inum);
      if fbn < NDIRECT {
        DirectIs(s0, inum, fbn);
        x := ino[inum].addrs[fbn];
        if x == 0 {
          x := Place(Slot(inum, fbn));
        }
        return;
      }
      IndirectIs(s0, inum);
      NoNewIndirect(s0, inum, fbn);
      var ib := ino[inum].addrs[NDIRECT];
      if ib == 0 {
        ib := Place(Slot(inum, MAXFILE));
        SameAddr(s0, State(), Slot(inum, fbn));
      }
      ghost var s1 := State();
      EntryIs(s1, inum, fbn);
      x := AsAddrs(content[ib])[fbn - NDIRECT];
      if x == 0 {
        x := Place(Slot(inum, fbn));
        SlotChains(s0, s1, State(), Slot(inum, MAXFILE), Slot(inum, fbn));
      }
    }

    /** Appends to a file; the source asserts that it stays within MAXFILE blocks. */
    method Iappend(inum: int, p: seq<bv8>)
      requires Valid() && inum in ino && ino[inum].size + |p| <= MAXFILE * BSIZE
      requires freeblock + 2 * Touched(if ino[inum].size < 0 then 0 else ino[inum].size, |p|) <= |content|
      modifies `content, `ino, `freeblock, `owner
      ensures Valid() && inum in ino && Contents(State(), inum) == Contents(old(State()), inum) + p
      ensures ino[inum].size == old(ino)[inum].size + |p| && |content| == |old(content)| && freeinode == old(freeinode)
      ensures freeblock <= old(freeblock) + 2 * Touched(if old(ino)[inum].size < 0 then 0 else old(ino)[inum].size, |p|)
      ensures OthersSame(old(State()), State(), inum)
    {
      hide Inv, AddrOf, SameSlot, Writing, Touched, OthersSame, SameSizes, Contents, Splice, Tight, TightAt;
      ghost var s0 := State();
      InodeOk(s0, inum);
      var off := ino[inum].size;
      ghost var off0 := off;
      WriteStart(s0, inum, off, p);
      TightOf(s0, inum);
      TouchNone(off);
      var t := 0;
      while t < |p|
        invariant 0 <= t <= |p| && off == off0 + t && Sound() && inum in ino && |content| == |s0.content|
        invariant TightAt(State(), inum, off)
        invariant Writing(s0, State(), inum, off0, p, t) && (0 < t < |p| ==> off % BSIZE == 0)
        invariant freeblock <= old(freeblock) + 2 * Touched(off0, t)
      {
        ghost var s := State();
        var fbn := off / BSIZE;
        var n1 := Min(|p| - t, (fbn + 1) * BSIZE - off);
        assert n1 == Min(|p| - t, BSIZE - (off0 + t) % BSIZE);
        TouchNext(off0, t, n1, |p| - t);
        TouchMore(off0, t + n1, |p|);
        var x := BlockFor(inum, fbn);
        WriteMapped(s0, s, State(), inum, off0, p, t, fbn);
        WriteBlock(s0, State(), inum, off0, p, t, n1);
        UsedBlock(State(), Slot(inum, fbn));
        ghost var s1 := State();
        var b := AsBytes(content[x]);
        var bytes := b[..off - fbn * BSIZE] + p[t..t + n1] + b[off - fbn * BSIZE + n1..];
        content := content[x := Data(bytes)];
        TightWritten(s, s1, inum, off, n1, bytes);
        WriteFacts(s0, State(), inum, off0, p, t + n1);
        t, off := t + n1, off + n1;
      }
      AppendDone(s0, State(), inum, off0, p);
      ghost var s := State();
      ino := ino[inum := ino[inum].(size := off)];
      TightDone(s0, s, State(), inum);
    }

    /** The last change to the image: the root's size is rounded up past its end. */
    method RoundRoot(root: int)
      requires Valid() && root in ino && (ino[root].size / BSIZE + 1) * BSIZE <= MAXFILE * BSIZE
      modifies `ino
      ensures root in old(ino) &&
                ino == old(ino)[root := old(ino)[root].(size := (old(ino)[root].size / BSIZE + 1) * BSIZE)]
      ensures Inv(State(), 0) <==> old(ino)[root].size % BSIZE != 0
    {
      hide Inv, AddrOf;
      RootRoundedExactly(State(), root);
      var off := ino[root].size;
      off := (off / BSIZE + 1) * BSIZE;
      ino := ino[root := ino[root].(size := off)];
    }

    /** The bitmap block: one bit for each of the first used blocks. */
    static method Balloc(used: nat) returns (bits: seq<bool>)
      requires used < BPB
      ensures bits == Marks(BPB, used)
    {
      bits := Marks(BPB, 0);
      var i := 0;
      while i < used
        invariant 0 <= i <= used && bits == Marks(BPB, i)
      {
        MarkNext(BPB, i);
        bits := bits[i := true];
        i := i + 1;
      }
    }
  }

  function EmptyAddrs(): (a: seq<int>)
    ensures |a| == NDIRECT + 1 && forall i :: 0 <= i < |a| ==> a[i] == 0
  {
    seq(NDIRECT + 1, i => 0)
  }

  /** No block of file i is mapped at or past the given size. */
  ghost predicate TightAt(s: Fs, i: int, size: int) {
    forall k :: 0 <= k < MAXFILE && size <= k * BSIZE ==> AddrOf(s, Slot(i, k)) == 0
  }

  ghost predicate Tight(s: Fs) {
    forall i :: i in s.ino ==> TightAt(s, i, s.ino[i].size)
  }

  lemma {:induction false} TightOf(s: Fs, i: int)
    requires Tight(s) && i in s.ino
    ensures TightAt(s, i, s.ino[i].size)
  {
  }

  lemma {:induction false} TightAdded(s: Fs, s': Fs, i: int)
    requires Tight(s) && i !in s.ino && OthersKept(s, s') && s'.ino == s.ino[i := Inode(0, EmptyAddrs())]
    ensures Tight(s')
  {
    forall j | j in s'.ino ensures TightAt(s', j, s'.ino[j].size) {
      forall k | 0 <= k < MAXFILE && s'.ino[j].size <= k * BSIZE ensures AddrOf(s', Slot(j, k)) == 0 {
        assert j != i ==> TightAt(s, j, s.ino[j].size) && SameSlot(s, s', Slot(j, k));
      }
    }
  }

  /** One round of iappend: a block is mapped if need be and n1 bytes go into it. */
  lemma {:induction false} TightWritten(s: Fs, s1: Fs, i: int, off: nat, n1: int, bytes: seq<bv8>)
    requires TightAt(s, i, off) && Inv(s1, 0) && 0 < n1 && off / BSIZE < MAXFILE && |bytes| == BSIZE
    requires forall t :: t != Slot(i, off / BSIZE) && t != Slot(i, MAXFILE) ==> SameSlot(s, s1, t)
    requires AddrOf(s1, Slot(i, off / BSIZE)) != 0
    ensures var x := AddrOf(s1, Slot(i, off / BSIZE));
            0 < x < |s1.content| && TightAt(Written(s1, x, bytes), i, off + n1)
  {
    hide Inv, AddrOf;
    var sl := Slot(i, off / BSIZE);
    WrittenInv(s1, sl, bytes);
    var s2 := Written(s1, AddrOf(s1, sl), bytes);
    forall k | 0 <= k < MAXFILE && off + n1 <= k * BSIZE ensures AddrOf(s2, Slot(i, k)) == 0 {
      assert Slot(i, k) != sl;
      assert SameSlot(s, s1, Slot(i, k)) && SameSlot(s1, s2, Slot(i, k));
    }
  }

  lemma {:induction false} TightDone(s0: Fs, s: Fs, s': Fs, i: int)
    requires Tight(s0) && i in s.ino && i in s'.ino && TightAt(s, i, s'.ino[i].size) && OthersSame(s0, s', i)
    requires s' == s.(ino := s.ino[i := s.ino[i].(size := s'.ino[i].size)])
    ensures Tight(s')
  {
    forall j | j in s'.ino ensures TightAt(s', j, s'.ino[j].size) {
      forall k | 0 <= k < MAXFILE && s'.ino[j].size <= k * BSIZE ensures AddrOf(s', Slot(j, k)) == 0 {
        if j == i {
          assert AddrOf(s', Slot(j, k)) == AddrOf(s, Slot(j, k));
        } else {
          assert TightAt(s0, j, s0.ino[j].size) && SameSlot(s0, s', Slot(j, k));
        }
      }
    }
  }

  /** Every file that was there is still there, unchanged. */
  ghost predicate OthersKept(s: Fs, s': Fs) {
    (forall j :: j in s.ino ==> j in s'.ino && s'.ino[j] == s.ino[j])
    && forall t: Slot :: t.inum in s.ino ==> SameSlot(s, s', t)
  }

  lemma {:induction false} FreshImage(s: Fs, meta: nat)
    requires |s.bits| == |s.owner| == |s.content| && 0 < meta <= |s.bits| && s.ino == map[] && s.cut == NO_CUT
    requires forall b :: 0 <= b < |s.bits| ==>
               (s.bits[b] <==> b < meta) && s.owner[b] == if b < meta then Meta else Free
    ensures Inv(s, 0)
  {
  }

  lemma {:induction false} InodeAdded(s: Fs, i: int)
    requires Inv(s, 0) && i !in s.ino && 0 < i && s.cut == NO_CUT
    ensures var s' := s.(ino := s.ino[i := Inode(0, EmptyAddrs())]);
            Inv(s', 0) && OthersKept(s, s') && Contents(s', i) == []
  {
    var s' := s.(ino := s.ino[i := Inode(0, EmptyAddrs())]);
    forall t ensures SameSlot(s, s', t) {
    }
    forall c ensures BlockAt(s', c, 0) {
      assert BlockAt(s, c, 0);
    }
    forall t ensures SlotAt(s', t) {
      assert SlotAt(s, t) && SameSlot(s, s', t);
    }
    forall t ensures MappedAt(s', t) {
      assert MappedAt(s, t) && SameSlot(s, s', t);
    }
    forall j ensures InodeAt(s', j) {
      assert InodeAt(s, j);
    }
  }

  lemma {:induction false} IndirectBelow(s: Fs, i: int)
    requires Inv(s, 0) && i in s.ino && AddrOf(s, Slot(i, MAXFILE)) != 0
    ensures |s.ino[i].addrs| == NDIRECT + 1 && 0 < s.ino[i].addrs[NDIRECT] < |s.bits| && s.bits[s.ino[i].addrs[NDIRECT]]
  {
    InodeOk(s, i);
    IndirectIs(s, i);
    SlotBlock(s, Slot(i, MAXFILE));
  }

  lemma {:induction false} TouchNone(off: nat)
    ensures Touched(off, 0) == 0
  {
  }

  lemma {:induction false} UsedBlock(s: Fs, sl: Slot)
    requires Inv(s, 0) && AddrOf(s, sl) != 0
    ensures 0 < AddrOf(s, sl) < |s.content| == |s.bits| && s.bits[AddrOf(s, sl)]
  {
    SlotBlock(s, sl);
  }

  lemma {:induction false} AppendDone(s0: Fs, s: Fs, i: int, off: nat, p: seq<bv8>)
    requires Inv(s0, 0) && Writing(s0, s, i, off, p, |p|) && off == s0.ino[i].size && off + |p| <= MAXFILE * BSIZE
    ensures i in s.ino && s.ino[i].size == off
    ensures var s' := s.(ino := s.ino[i := s.ino[i].(size := off + |p|)]);
            Inv(s', 0) && OthersSame(s0, s', i) && Contents(s', i) == Contents(s0, i) + p
  {
    hide Inv, AddrOf, SameSlot, Contents, OthersSame;
    WriteFacts(s0, s, i, off, p, |p|);
    WriteDone(s0, s, i, off, p, |p|);
    ContentsAt(s0, i);
    assert p[..|p|] == p;
    assert Splice(Contents(s0, i), off, p) == Contents(s0, i) + p;
    if p == [] {
      assert s.ino[i].(size := off) == s.ino[i];
      assert s.ino[i := s.ino[i]] == s.ino;
    }
  }

  /**
   The last step rounds the root directory's size up past its end.  Every block below
   the new size is there exactly when the entries did not end on a block boundary.
   */
  lemma {:induction false} RootRoundedExactly(s: Fs, root: int)
    requires Inv(s, 0) && s.cut == NO_CUT && root in s.ino && (s.ino[root].size / BSIZE + 1) * BSIZE <= MAXFILE * BSIZE
    requires TightAt(s, root, s.ino[root].size)
    ensures Inv(Resized(s, root, (s.ino[root].size / BSIZE + 1) * BSIZE), 0) <==> s.ino[root].size % BSIZE != 0
  {
    hide Inv, AddrOf;
    InodeOk(s, root);
    var size, last := s.ino[root].size, s.ino[root].size / BSIZE;
    var size' := (last + 1) * BSIZE;
    if size % BSIZE != 0 {
      forall k | 0 <= k && k * BSIZE < size' ensures AddrOf(s, Slot(root, k)) != 0 {
        BelowSize(s, root, k * BSIZE);
      }
      ResizedInv(s, root, size');
    } else {
      assert last * BSIZE == size;
      HoleAt(s, root, last, size');
    }
  }

  lemma {:induction false} HoleAt(s: Fs, i: int, k: nat, size: int)
    requires Inv(s, 0) && i in s.ino && k * BSIZE < size && k < MAXFILE && AddrOf(s, Slot(i, k)) == 0 && s.cut == NO_CUT
    ensures !Inv(Resized(s, i, size), 0)
  {
    var s' := Resized(s, i, size);
    assert InodeAt(s, i);
    assert AddrOf(s', Slot(i, k)) == 0;
    assert !MappedAt(s', Slot(i, k));
  }

  /**
   The end of mkfs, and the volume the kernel then finds: the root rounded up and the bitmap written.
   The kernel's invariant holds of it unless the root's entries end on a block boundary.
   */
  method Finish(im: Image, root: int, bmapstart: nat, inodestart: nat) returns (v: Volume)
    requires im.Valid() && root in im.ino && (im.ino[root].size / BSIZE + 1) * BSIZE <= MAXFILE * BSIZE
    requires im.ino[root].size % BSIZE != 0 && 0 <= im.freeblock < BPB && |im.content| <= BPB
    modifies im`ino
    ensures fresh(v) && v.Valid() && v.State() == im.State() && v.dino == im.ino && v.logged == {}
    ensures v.bmapstart == bmapstart && v.inodestart == inodestart
    ensures root in old(im.ino) && root in v.ino && v.ino[root].size % BSIZE == 0 &&
              old(im.ino)[root].size < v.ino[root].size
  {
    hide Inv, AddrOf, Tight;
    im.RoundRoot(root);
    var bits := Image.Balloc(im.freeblock);
    bits := bits[..|im.content|];
    assert bits == Marks(|im.content|, im.freeblock);
    v := new Volume(bits, im.content, im.ino, bmapstart, inodestart, im.owner);
  }

  const DIRENT: nat := 16

  /**
   The image of 62 programs: with "." and ".." the root's entries fill one block, and the
   rounded size takes in a block that is not there.
   */
  method FullRoot() returns (im: Image)
    ensures !Inv(im.State(), 0)
  {
    hide Inv, AddrOf, Image.Sound, Image.Valid, Image.State, Contents, OthersSame, OthersKept;
    im := new Image(1000, 46);
    var root := im.Ialloc();
    var de := seq(DIRENT, _ => 0);
    var i := 0;
    while i < BSIZE / DIRENT
      invariant 0 <= i <= BSIZE / DIRENT && im.Valid() && root in im.ino && im.ino[root].size == i * DIRENT
      invariant |im.content| == 1000 && im.freeblock <= 46 + 4 * i
    {
      if 2 <= i {
        var inum := im.Ialloc();
      }
      im.Iappend(root, de);
      i := i + 1;
    }
    im.RoundRoot(root);
  }
}
