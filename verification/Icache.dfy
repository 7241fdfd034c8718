/**
 The inode cache of kernel/fs.c under every interleaving: iget, idup, ilock, iunlock,
 ialloc and the steps of iput, whose truncation runs outside the cache lock.

 Each reference is one pointer some process holds, with how far that process has
 got with it.  A step is what runs under the cache lock, or what the holder of an
 inode lock does between two moments at which others can tell: iput's write of the
 free inode to disk and its clearing of valid are two steps.  iget is called only
 for a number that has a link or that ialloc has just handed out.
 */
module Icache {
  import Sets

  /**
   How far the holder of a reference has got: it only holds it, has the inode lock, or is inside iput,
   where it truncates, has freed the inode on disk, has cleared valid, and drops the reference.
   */
  datatype Phase = Holding | Locked | Reading | Truncating | Clearing | Freed | Dropping

  datatype Ref = Ref(slot: int, phase: Phase)

  datatype Entry = Entry(inum: int, ref: int, valid: bool, typ: int, nlink: int, locked: bool)

  datatype Dinode = Dinode(typ: int, nlink: int)

  datatype Cache = Cache(slots: seq<Entry>, refs: map<int, Ref>, disk: map<int, Dinode>, newborn: set<int>)

  ghost function RefsTo(s: Cache, k: int): set<int> {
    set r | r in s.refs && s.refs[r].slot == k
  }

  /** The phases in which a holder has the inode lock. */
  predicate HasLock(p: Phase) {
    p == Locked || p == Reading || p == Truncating || p == Clearing || p == Freed
  }

  /** The phases in which a holder may still use the inode. */
  predicate Using(p: Phase) {
    p == Holding || p == Locked || p == Reading || p == Truncating
  }

  // ------------------------------------------------------------------
  // Steps

  datatype Step =
    | Iget(r: int, inum: int, k: nat)
    | Idup(r: int, from: int)
    | Lock(r: int)
    | Load(r: int)
    | Update(r: int, nlink: int)
    | Unlock(r: int)
    | Ialloc(inum: int, typ: int)
    | PutStart(r: int)
    | PutFree(r: int)
    | PutClear(r: int)
    | PutUnlock(r: int)
    | PutLast(r: int)

  function WithRef(s: Cache, r: int, k: int, p: Phase): Cache {
    s.(refs := s.refs[r := Ref(k, p)])
  }

  function WithSlot(s: Cache, k: nat, e: Entry): Cache
    requires k < |s.slots|
  {
    s.(slots := s.slots[k := e])
  }

  /** iget may be asked for inum: it has a link, or ialloc has just made it. */
  predicate Askable(s: Cache, inum: int) {
    inum in s.disk && s.disk[inum].typ != 0 && (0 < s.disk[inum].nlink || inum in s.newborn)
  }

  predicate Cached(s: Cache, k: int, inum: int) {
    0 <= k < |s.slots| && 0 < s.slots[k].ref && s.slots[k].inum == inum
  }

  /** Reference r exists, in phase p, to a slot of the cache. */
  predicate At(s: Cache, r: int, p: Phase) {
    r in s.refs && s.refs[r].phase == p && 0 <= s.refs[r].slot < |s.slots|
  }

  /** iput's test for freeing the inode, made under the cache lock. */
  predicate LastOfUnlinked(e: Entry) {
    e.ref == 1 && e.valid && e.nlink == 0
  }

  ghost predicate Enabled(s: Cache, st: Step) {
    match st
    case Iget(r, inum, k) =>
      && r !in s.refs && Askable(s, inum) && k < |s.slots|
      && (Cached(s, k, inum) || (s.slots[k].ref == 0 && forall j :: !Cached(s, j, inum)))
    case Idup(r, from) => r !in s.refs && At(s, from, Holding)
    case Lock(r) => At(s, r, Holding) && !s.slots[s.refs[r].slot].locked
    case Load(r) => At(s, r, Reading) && s.slots[s.refs[r].slot].inum in s.disk
    case Update(r, n) => At(s, r, Locked) && s.slots[s.refs[r].slot].inum in s.disk
    case Unlock(r) => At(s, r, Locked)
    case Ialloc(inum, typ) => inum in s.disk && s.disk[inum].typ == 0 && typ != 0
    case PutStart(r) => At(s, r, Holding) &&
        (LastOfUnlinked(s.slots[s.refs[r].slot]) ==> !s.slots[s.refs[r].slot].locked)
    case PutFree(r) => At(s, r, Truncating)
    case PutClear(r) => At(s, r, Clearing)
    case PutUnlock(r) => At(s, r, Freed)
    case PutLast(r) => At(s, r, Dropping)
  }

  function Drop(s: Cache, r: int): Cache
    requires r in s.refs && 0 <= s.refs[r].slot < |s.slots|
  {
    var k := s.refs[r].slot;
    s.(slots := s.slots[k := s.slots[k].(ref := s.slots[k].ref - 1)], refs := s.refs - {r})
  }

  ghost function Apply(s: Cache, st: Step): Cache
    requires Enabled(s, st)
  {
    match st
    case Iget(r, inum, k) =>
      var e := s.slots[k];
      var e' := if Cached(s, k, inum) then e.(ref := e.ref + 1) else e.(inum := inum, ref := 1, valid := false);
      WithRef(WithSlot(s, k, e'), r, k, Holding).(newborn := s.newborn - {inum})
    case Idup(r, from) =>
      var k := s.refs[from].slot;
      WithRef(WithSlot(s, k, s.slots[k].(ref := s.slots[k].ref + 1)), r, k, Holding)
    case Lock(r) =>
      var k := s.refs[r].slot;
      WithRef(WithSlot(s, k, s.slots[k].(locked := true)), r, k, if s.slots[k].valid then Locked else Reading)
    case Load(r) =>
      var k := s.refs[r].slot;
      var d := s.disk[s.slots[k].inum];
      WithRef(WithSlot(s, k, s.slots[k].(valid := true, typ := d.typ, nlink := d.nlink)), r, k, Locked)
    case Update(r, n) =>
      var k := s.refs[r].slot;
      var e := s.slots[k].(nlink := n);
      WithSlot(s, k, e).(disk := s.disk[e.inum := Dinode(e.typ, n)])
    case Unlock(r) =>
      var k := s.refs[r].slot;
      WithRef(WithSlot(s, k, s.slots[k].(locked := false)), r, k, Holding)
    case Ialloc(inum, typ) =>
      s.(disk := s.disk[inum := Dinode(typ, 0)], newborn := s.newborn + {inum})
    case PutStart(r) =>
      var k := s.refs[r].slot;
      if LastOfUnlinked(s.slots[k]) then WithRef(WithSlot(s, k, s.slots[k].(locked := true)), r, k, Truncating)
          else Drop(s, r)
    case PutFree(r) =>
      var k := s.refs[r].slot;
      var e := s.slots[k].(typ := 0);
      WithRef(WithSlot(s, k, e), r, k, Clearing).(disk := s.disk[e.inum := Dinode(0, e.nlink)])
    case PutClear(r) =>
      var k := s.refs[r].slot;
      WithRef(WithSlot(s, k, s.slots[k].(valid := false)), r, k, Freed)
    case PutUnlock(r) =>
      var k := s.refs[r].slot;
      WithRef(WithSlot(s, k, s.slots[k].(locked := false)), r, k, Dropping)
    case PutLast(r) => Drop(s, r)
  }

  // ------------------------------------------------------------------
  // The invariant

  predicate Holder(s: Cache, k: int, r: int) {
    r in s.refs && s.refs[r].slot == k && HasLock(s.refs[r].phase)
  }

  /** r is about to clear valid in slot k, over an inode already free on disk. */
  predicate Clears(s: Cache, k: int, r: int) {
    r in s.refs && s.refs[r].slot == k && s.refs[r].phase == Clearing
  }

  ghost predicate InClearing(s: Cache, k: int) {
    exists r :: Clears(s, k, r)
  }

  /** One slot's count is the number of references to it, and the lock is held by exactly one of them. */
  ghost predicate SlotAt(s: Cache, k: int) {
    0 <= k < |s.slots| ==>
      && s.slots[k].ref == |RefsTo(s, k)|
      && (s.slots[k].locked ==> exists r :: Holder(s, k, r))
      && (forall q, r :: Holder(s, k, q) && Holder(s, k, r) ==> q == r)
      && (0 < s.slots[k].ref ==> s.slots[k].inum in s.disk)
      && (0 < s.slots[k].ref && s.slots[k].valid && !InClearing(s, k) ==>
            && s.disk[s.slots[k].inum] == Dinode(s.slots[k].typ, s.slots[k].nlink)
            && s.slots[k].typ != 0 && s.slots[k].inum !in s.newborn)
  }

  ghost predicate RefAt(s: Cache, r: int) {
    r in s.refs ==>
      var k := s.refs[r].slot;
      && 0 <= k < |s.slots|
      && (HasLock(s.refs[r].phase) ==> s.slots[k].locked)
      && (Using(s.refs[r].phase) && s.slots[k].inum in s.disk ==>
            s.disk[s.slots[k].inum].typ != 0 && s.slots[k].inum !in s.newborn)
      && (s.refs[r].phase in {Locked, Truncating, Clearing} ==> s.slots[k].valid)
      && (s.refs[r].phase == Reading || s.refs[r].phase == Freed ==> !s.slots[k].valid)
      && (s.refs[r].phase == Truncating ==> s.slots[k].ref == 1 && s.slots[k].nlink == 0)
  }

  predicate OneSlot(s: Cache, j: int, k: int) {
    0 <= j < k < |s.slots| && 0 < s.slots[j].ref && 0 < s.slots[k].ref ==> s.slots[j].inum != s.slots[k].inum
  }

  predicate NewbornAt(s: Cache, i: int) {
    i in s.newborn ==> i in s.disk && s.disk[i].typ != 0 && s.disk[i].nlink == 0
  }

  ghost predicate Inv(s: Cache) {
    && (forall k :: SlotAt(s, k))
    && (forall r :: RefAt(s, r))
    && (forall j, k :: OneSlot(s, j, k))
    && (forall i :: NewbornAt(s, i))
  }

  // ------------------------------------------------------------------
  // Counting references

  lemma {:induction false} RefAdded(s: Cache, s': Cache, r: int, k: int, p: Phase)
    requires r !in s.refs && s'.refs == s.refs[r := Ref(k, p)]
    ensures forall j :: RefsTo(s', j) == if j == k then RefsTo(s, j) + {r} else RefsTo(s, j)
    ensures |RefsTo(s', k)| == |RefsTo(s, k)| + 1
  {
  }

  lemma {:induction false} RefMoved(s: Cache, s': Cache, r: int, p: Phase)
    requires r in s.refs && s'.refs == s.refs[r := Ref(s.refs[r].slot, p)]
    ensures forall j :: RefsTo(s', j) == RefsTo(s, j)
  {
  }

  lemma {:induction false} RefGone(s: Cache, s': Cache, r: int)
    requires r in s.refs && s'.refs == s.refs - {r}
    ensures forall j :: RefsTo(s', j) == if j == s.refs[r].slot then RefsTo(s, j) - {r} else RefsTo(s, j)
    ensures |RefsTo(s', s.refs[r].slot)| == |RefsTo(s, s.refs[r].slot)| - 1
  {
    assert r in RefsTo(s, s.refs[r].slot);
  }

  lemma {:induction false} Counted(s: Cache, r: int)
    requires Inv(s) && r in s.refs
    ensures 0 <= s.refs[r].slot < |s.slots| && 1 <= s.slots[s.refs[r].slot].ref
  {
    var k := s.refs[r].slot;
    assert RefAt(s, r) && SlotAt(s, k);
    assert r in RefsTo(s, k);
  }

  /** A slot with one reference has no other. */
  lemma {:induction false} OnlyRef(s: Cache, q: int, r: int)
    requires Inv(s) && q in s.refs && r in s.refs && s.refs[q].slot == s.refs[r].slot
    requires 0 <= s.refs[r].slot < |s.slots| && s.slots[s.refs[r].slot].ref == 1
    ensures q == r
  {
    var k := s.refs[r].slot;
    assert RefAt(s, r) && SlotAt(s, k);
    assert {q, r} <= RefsTo(s, k);
    Sets.SubsetSize({q, r}, RefsTo(s, k));
    assert q != r ==> |{q, r}| == 2;
  }

  // ------------------------------------------------------------------
  // What the protocol relies on

  /** iput's lock on an inode it is about to free is free: the one reference is its own. */
  lemma {:induction false} PutNeverBlocks(s: Cache, r: int)
    requires Inv(s) && At(s, r, Holding) && LastOfUnlinked(s.slots[s.refs[r].slot])
    ensures !s.slots[s.refs[r].slot].locked
  {
    var k := s.refs[r].slot;
    assert SlotAt(s, k);
    if s.slots[k].locked {
      var q :| Holder(s, k, q);
      OnlyRef(s, q, r);
    }
  }

  /** Only the holder of the inode lock clears valid. */
  lemma {:induction false} HeldClearing(s: Cache, k: int, r: int)
    requires Inv(s) && InClearing(s, k)
    ensures 0 <= k < |s.slots| && s.slots[k].locked
    ensures Holder(s, k, r) ==> Clears(s, k, r)
  {
    var q :| Clears(s, k, q);
    assert RefAt(s, q) && SlotAt(s, k);
    assert Holder(s, k, q);
  }

  /** Whoever holds the inode lock with the inode loaded sees what is on disk, and the inode is allocated. */
  lemma {:induction false} LockedSeesDisk(s: Cache, r: int)
    requires Inv(s) && (At(s, r, Locked) || At(s, r, Truncating))
    ensures var e := s.slots[s.refs[r].slot]; e.inum in s.disk && s.disk[e.inum] == Dinode(e.typ, e.nlink) && e.typ != 0
  {
    var k := s.refs[r].slot;
    Counted(s, r);
    assert RefAt(s, r) && SlotAt(s, k) && Holder(s, k, r);
    if InClearing(s, k) {
      HeldClearing(s, k, r);
    }
  }

  /** ilock never reads a free inode. */
  lemma {:induction false} LoadFindsType(s: Cache, r: int)
    requires Inv(s) && At(s, r, Reading)
    ensures var e := s.slots[s.refs[r].slot]; e.inum in s.disk && s.disk[e.inum].typ != 0
  {
    Counted(s, r);
    assert RefAt(s, r) && SlotAt(s, s.refs[r].slot);
  }

  /** While an inode is truncated nobody else holds a reference to it. */
  lemma {:induction false} TruncatesAlone(s: Cache, r: int, q: int)
    requires Inv(s) && At(s, r, Truncating) && q in s.refs
    requires 0 <= s.refs[q].slot < |s.slots| && s.slots[s.refs[q].slot].inum == s.slots[s.refs[r].slot].inum
    ensures q == r
  {
    Counted(s, q);
    Counted(s, r);
    assert RefAt(s, r);
    var j, k := s.refs[q].slot, s.refs[r].slot;
    assert OneSlot(s, j, k) && OneSlot(s, k, j);
    OnlyRef(s, q, r);
  }

  /**
   A number may be allocated again, and got from iget, while the old holder has freed it on disk and not
   yet cleared valid.  Nobody can be using the inode then, and whoever locks it finds valid cleared or
   finds what is on disk: a new inode is read before it is used.
   */
  lemma {:induction false} ReusedIsReread(s: Cache, r: int)
    requires Inv(s) && Enabled(s, Lock(r))
    ensures var e := s.slots[s.refs[r].slot];
            e.inum in s.disk &&
                (e.valid ==> s.disk[e.inum] == Dinode(e.typ, e.nlink) && e.typ != 0 && e.inum !in s.newborn)
  {
    var k := s.refs[r].slot;
    Counted(s, r);
    assert SlotAt(s, k);
    if InClearing(s, k) {
      HeldClearing(s, k, r);
    }
  }

  /** A reference to a number that ialloc has just handed out is one on its way out of iput. */
  lemma {:induction false} NewbornUnused(s: Cache, q: int)
    requires Inv(s) && q in s.refs && 0 <= s.refs[q].slot < |s.slots| && s.slots[s.refs[q].slot].inum in s.newborn
    ensures !Using(s.refs[q].phase)
  {
    Counted(s, q);
    assert RefAt(s, q) && SlotAt(s, s.refs[q].slot);
  }

  // ------------------------------------------------------------------
  // Every step keeps the invariant

  lemma {:induction false} IgetKeeps(s: Cache, r: int, inum: int, k: nat)
    requires Inv(s) && Enabled(s, Iget(r, inum, k))
    ensures Inv(Apply(s, Iget(r, inum, k)))
  {
    hide RefsTo;
    var s' := Apply(s, Iget(r, inum, k));
    RefAdded(s, s', r, k, Holding);
    assert SlotAt(s, k);
    forall j ensures SlotAt(s', j) {
      assert SlotAt(s, j);
      SameHolders(s, s', j, r);
      NoHolder(s, j);
    }
    forall q ensures RefAt(s', q) {
      assert RefAt(s, q);
      if q in s.refs {
        Counted(s, q);
        if s.refs[q].phase == Truncating {
          LockedSeesDisk(s, q);
        }
      }
    }
    forall i, j ensures OneSlot(s', i, j) {
      assert OneSlot(s, i, j);
      assert !Cached(s, k, inum) ==> !Cached(s, i, inum) && !Cached(s, j, inum);
    }
    forall i ensures NewbornAt(s', i) {
      assert NewbornAt(s, i);
    }
  }

  /** Nobody has the lock of a slot without references. */
  lemma {:induction false} NoHolder(s: Cache, k: int)
    requires Inv(s)
    ensures 0 <= k < |s.slots| && s.slots[k].ref == 0 ==> !s.slots[k].locked && forall q :: !Holder(s, k, q)
  {
    if 0 <= k < |s.slots| && s.slots[k].ref == 0 {
      assert SlotAt(s, k);
      forall q ensures !Holder(s, k, q) {
        if q in s.refs {
          Counted(s, q);
        }
      }
    }
  }

  /** A reference that comes or goes without the lock leaves the lock's holder. */
  lemma {:induction false} SameHolders(s: Cache, s': Cache, j: int, r: int)
    requires forall q :: q != r ==> (q in s'.refs <==> q in s.refs) && (q in s.refs ==> s'.refs[q] == s.refs[q])
    requires r in s.refs ==> !HasLock(s.refs[r].phase)
    requires r in s'.refs ==> !HasLock(s'.refs[r].phase)
    ensures forall q :: Holder(s', j, q) <==> Holder(s, j, q)
    ensures InClearing(s', j) <==> InClearing(s, j)
  {
    assert forall q :: Clears(s', j, q) <==> Clears(s, j, q);
  }

  lemma {:induction false} IdupKeeps(s: Cache, r: int, from: int)
    requires Inv(s) && Enabled(s, Idup(r, from))
    ensures Inv(Apply(s, Idup(r, from)))
  {
    hide RefsTo;
    var s', k := Apply(s, Idup(r, from)), s.refs[from].slot;
    RefAdded(s, s', r, k, Holding);
    Counted(s, from);
    assert RefAt(s, from);
    forall j ensures SlotAt(s', j) {
      assert SlotAt(s, j);
      SameHolders(s, s', j, r);
    }
    forall q ensures RefAt(s', q) {
      assert RefAt(s, q);
      if q in s.refs && s.refs[q].phase == Truncating && s.refs[q].slot == k {
        OnlyRef(s, q, from);
      }
    }
    forall i, j ensures OneSlot(s', i, j) {
      assert OneSlot(s, i, j);
    }
    forall i ensures NewbornAt(s', i) {
      assert NewbornAt(s, i);
    }
  }

  lemma {:induction false} DropKeeps(s: Cache, r: int)
    requires Inv(s) && (At(s, r, Holding) || At(s, r, Dropping))
    ensures Inv(Drop(s, r))
  {
    hide RefsTo;
    var s', k := Drop(s, r), s.refs[r].slot;
    RefGone(s, s', r);
    Counted(s, r);
    forall j ensures SlotAt(s', j) {
      assert SlotAt(s, j);
      SameHolders(s, s', j, r);
    }
    forall q ensures RefAt(s', q) {
      assert RefAt(s, q);
      if q in s'.refs && s.refs[q].phase == Truncating && s.refs[q].slot == k {
        OnlyRef(s, q, r);
      }
    }
    forall i, j ensures OneSlot(s', i, j) {
      assert OneSlot(s, i, j);
    }
    forall i ensures NewbornAt(s', i) {
      assert NewbornAt(s, i);
    }
  }

  /** Taking the lock of a slot nobody has locked. */
  lemma {:induction false} LockKeeps(s: Cache, r: int, p: Phase)
    requires Inv(s) && At(s, r, Holding) && !s.slots[s.refs[r].slot].locked
    requires p == (if s.slots[s.refs[r].slot].valid then Locked else Reading) ||
               (p == Truncating && LastOfUnlinked(s.slots[s.refs[r].slot]))
    ensures var k := s.refs[r].slot; Inv(WithRef(WithSlot(s, k, s.slots[k].(locked := true)), r, k, p))
  {
    hide RefsTo;
    var k := s.refs[r].slot;
    var s' := WithRef(WithSlot(s, k, s.slots[k].(locked := true)), r, k, p);
    RefMoved(s, s', r, p);
    SameClearing(s, s', r, p);
    assert RefAt(s, r);
    assert Holder(s', k, r);
    forall q ensures !Holder(s, k, q) {
      assert RefAt(s, q);
    }
    forall j ensures SlotAt(s', j) {
      assert SlotAt(s, j);
      assert forall q :: q != r ==> (Holder(s', j, q) <==> Holder(s, j, q));
      if j != k {
        SameElsewhere(s, s', j, r);
      }
    }
    forall q ensures RefAt(s', q) {
      assert RefAt(s, q);
    }
    forall i, j ensures OneSlot(s', i, j) {
      assert OneSlot(s, i, j);
    }
    forall i ensures NewbornAt(s', i) {
      assert NewbornAt(s, i);
    }
  }

  lemma {:induction false} SameClearing(s: Cache, s': Cache, r: int, p: Phase)
    requires r in s.refs && s'.refs == s.refs[r := Ref(s.refs[r].slot, p)]
    requires s.refs[r].phase != Clearing && p != Clearing
    ensures forall j :: InClearing(s', j) <==> InClearing(s, j)
  {
    assert forall j, q :: Clears(s', j, q) <==> Clears(s, j, q);
  }

  lemma {:induction false} SameElsewhere(s: Cache, s': Cache, j: int, r: int)
    requires r in s.refs && r in s'.refs && s'.refs[r].slot == s.refs[r].slot != j
    requires forall q :: q != r ==> (q in s'.refs <==> q in s.refs) && (q in s.refs ==> s'.refs[q] == s.refs[q])
    ensures forall q :: Holder(s', j, q) <==> Holder(s, j, q)
    ensures InClearing(s', j) <==> InClearing(s, j)
  {
    assert forall q :: Clears(s', j, q) <==> Clears(s, j, q);
  }

  /** Giving the lock back, to hold the reference on or to drop it. */
  lemma {:induction false} UnlockKeeps(s: Cache, r: int, p: Phase)
    requires Inv(s) && ((At(s, r, Locked) && p == Holding) || (At(s, r, Freed) && p == Dropping))
    ensures var k := s.refs[r].slot; Inv(WithRef(WithSlot(s, k, s.slots[k].(locked := false)), r, k, p))
  {
    hide RefsTo;
    var k := s.refs[r].slot;
    var s' := WithRef(WithSlot(s, k, s.slots[k].(locked := false)), r, k, p);
    RefMoved(s, s', r, p);
    SameClearing(s, s', r, p);
    assert RefAt(s, r) && SlotAt(s, k) && Holder(s, k, r);
    forall j ensures SlotAt(s', j) {
      assert SlotAt(s, j);
      if j != k {
        SameElsewhere(s, s', j, r);
      } else {
        assert forall q :: Holder(s', k, q) ==> Holder(s, k, q);
      }
    }
    forall q ensures RefAt(s', q) {
      assert RefAt(s, q);
      assert q != r && q in s.refs && s.refs[q].slot == k ==> !Holder(s, k, q);
    }
    forall i, j ensures OneSlot(s', i, j) {
      assert OneSlot(s, i, j);
    }
    forall i ensures NewbornAt(s', i) {
      assert NewbornAt(s, i);
    }
  }

  /** Reading the inode, or updating it on disk, under its lock. */
  lemma {:induction false} LoadKeeps(s: Cache, r: int)
    requires Inv(s) && Enabled(s, Load(r))
    ensures Inv(Apply(s, Load(r)))
  {
    hide RefsTo;
    var s', k := Apply(s, Load(r)), s.refs[r].slot;
    RefMoved(s, s', r, Locked);
    SameClearing(s, s', r, Locked);
    assert RefAt(s, r) && SlotAt(s, k) && Holder(s, k, r);
    forall j ensures SlotAt(s', j) {
      assert SlotAt(s, j);
      assert forall q :: Holder(s', j, q) <==> Holder(s, j, q);
    }
    forall q ensures RefAt(s', q) {
      assert RefAt(s, q);
      assert q != r && q in s.refs && s.refs[q].slot == k ==> !Holder(s, k, q);
    }
    forall i, j ensures OneSlot(s', i, j) {
      assert OneSlot(s, i, j);
    }
    forall i ensures NewbornAt(s', i) {
      assert NewbornAt(s, i);
    }
  }

  lemma {:induction false} UpdateKeeps(s: Cache, r: int, n: int)
    requires Inv(s) && Enabled(s, Update(r, n))
    ensures Inv(Apply(s, Update(r, n)))
  {
    hide RefsTo;
    var s', k := Apply(s, Update(r, n)), s.refs[r].slot;
    Counted(s, r);
    LockedSeesDisk(s, r);
    assert RefAt(s, r) && SlotAt(s, k) && Holder(s, k, r);
    SameRefs(s, s');
    forall j ensures SlotAt(s', j) {
      assert SlotAt(s, j) && OneSlot(s, j, k) && OneSlot(s, k, j);
      assert forall q :: Holder(s', j, q) <==> Holder(s, j, q);
    }
    forall q ensures RefAt(s', q) {
      assert RefAt(s, q);
      assert q != r && q in s.refs && s.refs[q].slot == k ==> !Holder(s, k, q);
    }
    forall i, j ensures OneSlot(s', i, j) {
      assert OneSlot(s, i, j);
    }
    forall i ensures NewbornAt(s', i) {
      assert NewbornAt(s, i);
    }
  }

  lemma {:induction false} SameRefs(s: Cache, s': Cache)
    requires s'.refs == s.refs
    ensures forall k :: RefsTo(s', k) == RefsTo(s, k) && (InClearing(s', k) <==> InClearing(s, k))
  {
    assert forall k, r :: Clears(s', k, r) <==> Clears(s, k, r);
  }

  lemma {:induction false} IallocKeeps(s: Cache, inum: int, typ: int)
    requires Inv(s) && Enabled(s, Ialloc(inum, typ))
    ensures Inv(Apply(s, Ialloc(inum, typ)))
  {
    hide RefsTo;
    var s' := Apply(s, Ialloc(inum, typ));
    SameRefs(s, s');
    forall j ensures SlotAt(s', j) {
      assert SlotAt(s, j);
      assert forall q :: Holder(s', j, q) <==> Holder(s, j, q);
    }
    forall q ensures RefAt(s', q) {
      assert RefAt(s, q);
      if q in s.refs {
        Counted(s, q);
      }
    }
    forall i, j ensures OneSlot(s', i, j) {
      assert OneSlot(s, i, j);
    }
    forall i ensures NewbornAt(s', i) {
      assert NewbornAt(s, i);
    }
  }

  lemma {:induction false} PutFreeKeeps(s: Cache, r: int)
    requires Inv(s) && Enabled(s, PutFree(r))
    ensures Inv(Apply(s, PutFree(r)))
  {
    hide RefsTo;
    var s', k := Apply(s, PutFree(r)), s.refs[r].slot;
    RefMoved(s, s', r, Clearing);
    Counted(s, r);
    assert RefAt(s, r) && SlotAt(s, k) && Holder(s, k, r) && Clears(s', k, r);
    forall j ensures SlotAt(s', j) {
      assert SlotAt(s, j) && OneSlot(s, j, k) && OneSlot(s, k, j);
      if j != k {
        SameElsewhere(s, s', j, r);
      }
      assert forall q :: Holder(s', j, q) <==> Holder(s, j, q);
    }
    forall q ensures RefAt(s', q) {
      assert RefAt(s, q);
      if q != r && q in s.refs {
        Counted(s, q);
        assert OneSlot(s, s.refs[q].slot, k) && OneSlot(s, k, s.refs[q].slot);
        if s.refs[q].slot == k {
          OnlyRef(s, q, r);
        }
      }
    }
    forall i, j ensures OneSlot(s', i, j) {
      assert OneSlot(s, i, j);
    }
    forall i ensures NewbornAt(s', i) {
      assert NewbornAt(s, i);
    }
  }

  lemma {:induction false} PutClearKeeps(s: Cache, r: int)
    requires Inv(s) && Enabled(s, PutClear(r))
    ensures Inv(Apply(s, PutClear(r)))
  {
    hide RefsTo;
    var s', k := Apply(s, PutClear(r)), s.refs[r].slot;
    RefMoved(s, s', r, Freed);
    assert RefAt(s, r) && SlotAt(s, k) && Holder(s, k, r);
    forall j ensures SlotAt(s', j) {
      assert SlotAt(s, j);
      if j != k {
        SameElsewhere(s, s', j, r);
      }
      assert forall q :: Holder(s', j, q) <==> Holder(s, j, q);
    }
    forall q ensures RefAt(s', q) {
      assert RefAt(s, q);
      assert q != r && q in s.refs && s.refs[q].slot == k ==> !Holder(s, k, q);
    }
    forall i, j ensures OneSlot(s', i, j) {
      assert OneSlot(s, i, j);
    }
    forall i ensures NewbornAt(s', i) {
      assert NewbornAt(s, i);
    }
  }

  lemma {:induction false} StepKeeps(s: Cache, st: Step)
    requires Inv(s) && Enabled(s, st)
    ensures Inv(Apply(s, st))
  {
    hide Inv, RefsTo;
    match st
    case Iget(r, inum, k) => IgetKeeps(s, r, inum, k);
    case Idup(r, from) => IdupKeeps(s, r, from);
    case Lock(r) => LockKeeps(s, r, if s.slots[s.refs[r].slot].valid then Locked else Reading);
    case Load(r) => LoadKeeps(s, r);
    case Update(r, n) => UpdateKeeps(s, r, n);
    case Unlock(r) => UnlockKeeps(s, r, Holding);
    case Ialloc(inum, typ) => IallocKeeps(s, inum, typ);
    case PutStart(r) =>
      if LastOfUnlinked(s.slots[s.refs[r].slot]) {
        LockKeeps(s, r, Truncating);
      } else {
        DropKeeps(s, r);
      }
    case PutFree(r) => PutFreeKeeps(s, r);
    case PutClear(r) => PutClearKeeps(s, r);
    case PutUnlock(r) => UnlockKeeps(s, r, Dropping);
    case PutLast(r) => DropKeeps(s, r);
  }

  // ------------------------------------------------------------------
  // Runs

  /** The empty cache over a disk of inodes. */
  ghost predicate Start(s: Cache) {
    s.refs == map[] && s.newborn == {} && forall k :: 0 <= k < |s.slots| ==> s.slots[k].ref == 0 && !s.slots[k].locked
  }

  /** The steps can be taken from s one after the other and lead to s'. */
  ghost predicate Leads(s: Cache, steps: seq<Step>, s': Cache)
    decreases |steps|
  {
    if steps == [] then s == s' else Enabled(s, steps[0]) && Leads(Apply(s, steps[0]), steps[1..], s')
  }

  /** Every state of every run satisfies the invariant. */
  lemma {:induction false} RunKeeps(s: Cache, steps: seq<Step>, s': Cache)
    requires Inv(s) && Leads(s, steps, s')
    ensures Inv(s')
    decreases |steps|
  {
    hide Inv;
    if steps != [] {
      StepKeeps(s, steps[0]);
      RunKeeps(Apply(s, steps[0]), steps[1..], s');
    }
  }

  lemma {:induction false} LeadsOn(s: Cache, a: seq<Step>, m: Cache, b: seq<Step>, s': Cache)
    requires Leads(s, a, m) && Leads(m, b, s')
    ensures Leads(s, a + b, s')
    decreases |a|
  {
    hide Enabled, Apply;
    if a == [] {
      assert a + b == b;
    } else {
      assert (a + b)[1..] == a[1..] + b;
      LeadsOn(Apply(s, a[0]), a[1..], m, b, s');
    }
  }

  lemma {:induction false} StartKeeps(s: Cache)
    requires Start(s)
    ensures Inv(s)
  {
    forall k ensures SlotAt(s, k) {
      assert RefsTo(s, k) == {};
    }
  }

  /** iget's scan: the slot that caches inum, else the first without references. */
  method Scan(slots: seq<Entry>, inum: int) returns (found: bool, k: int)
    ensures found <==> exists j :: 0 <= j < |slots| && 0 < slots[j].ref && slots[j].inum == inum
    ensures found ==> 0 <= k < |slots| && 0 < slots[k].ref && slots[k].inum == inum
    ensures !found && k == -1 ==> forall j :: 0 <= j < |slots| ==> slots[j].ref != 0
    ensures !found && k != -1 ==> 0 <= k < |slots| && slots[k].ref == 0 && forall j :: 0 <= j < k ==> slots[j].ref != 0
  {
    k := -1;
    var i := 0;
    while i < |slots|
      invariant 0 <= i <= |slots| && -1 <= k < i
      invariant forall j :: 0 <= j < i ==> !(0 < slots[j].ref && slots[j].inum == inum)
      invariant k == -1 ==> forall j :: 0 <= j < i ==> slots[j].ref != 0
      invariant k != -1 ==> slots[k].ref == 0 && forall j :: 0 <= j < k ==> slots[j].ref != 0
    {
      if 0 < slots[i].ref && slots[i].inum == inum {
        return true, i;
      }
      if k == -1 && slots[i].ref == 0 {
        k := i;
      }
      i := i + 1;
    }
    found := false;
  }

  // ------------------------------------------------------------------
  // Inodes nobody can free

  ghost predicate InCache(s: Cache, i: int) {
    exists k :: Cached(s, k, i)
  }

  /** An allocated inode without links has just been allocated or is still referred to. */
  ghost predicate Accounted(s: Cache, i: int) {
    i in s.disk && s.disk[i].typ != 0 && s.disk[i].nlink == 0 ==> i in s.newborn || InCache(s, i)
  }

  ghost predicate NoOrphan(s: Cache) {
    forall i :: Accounted(s, i)
  }

  /** Allocated, without links, and not just made by ialloc. */
  predicate Loose(s: Cache, i: int) {
    i in s.disk && s.disk[i].typ != 0 && s.disk[i].nlink == 0 && i !in s.newborn
  }

  /** The step drops the last reference to an allocated inode without links and does not free it. */
  ghost predicate DropsUnfreed(s: Cache, st: Step)
    requires Enabled(s, st)
  {
    && (st.PutLast? || (st.PutStart? && !s.slots[s.refs[st.r].slot].valid))
    && var e := s.slots[s.refs[st.r].slot];
       e.ref == 1 && Loose(s, e.inum)
  }

  lemma {:induction false} DropOrphans(s: Cache, r: int)
    requires Inv(s) && NoOrphan(s) && (At(s, r, Holding) || At(s, r, Dropping))
    ensures var e := s.slots[s.refs[r].slot];
            NoOrphan(Drop(s, r)) <==> !(e.ref == 1 && Loose(s, e.inum))
  {
    hide Inv, RefsTo;
    var s', k := Drop(s, r), s.refs[r].slot;
    var e := s.slots[k];
    Counted(s, r);
    if e.ref == 1 {
      forall j ensures !Cached(s', j, e.inum) {
        Alone(s, j, k);
      }
      assert Accounted(s', e.inum) <==> !Loose(s, e.inum);
    }
    forall i ensures (i != e.inum || e.ref != 1) ==> Accounted(s', i) {
      assert Accounted(s, i);
      if j :| Cached(s, j, i) {
        assert (i != e.inum || e.ref != 1) ==> Cached(s', j, i);
      }
    }
  }

  lemma {:induction false} Alone(s: Cache, j: int, k: int)
    requires Inv(s) && 0 <= k < |s.slots| && 0 < s.slots[k].ref
    ensures Cached(s, j, s.slots[k].inum) ==> j == k
  {
    assert OneSlot(s, j, k) && OneSlot(s, k, j);
  }

  /** No step orphans an inode but the one that drops its last reference unfreed. */
  lemma {:induction false} OrphansExactly(s: Cache, st: Step)
    requires Inv(s) && NoOrphan(s) && Enabled(s, st)
    ensures NoOrphan(Apply(s, st)) <==> !DropsUnfreed(s, st)
  {
    hide Inv, RefsTo;
    if st.PutLast? {
      DropOrphans(s, st.r);
    } else if st.PutStart? && !LastOfUnlinked(s.slots[s.refs[st.r].slot]) {
      DropOrphans(s, st.r);
      ValidAgrees(s, st.r);
    } else {
      var s' := Apply(s, st);
      forall i ensures Accounted(s', i) {
        assert Accounted(s, i);
        KeepsAccount(s, st, i);
      }
    }
  }

  /** The only reference is not one that clears valid. */
  lemma {:induction false} ValidAgrees(s: Cache, r: int)
    requires Inv(s) && At(s, r, Holding)
    ensures var e := s.slots[s.refs[r].slot];
            e.ref == 1 && e.valid ==> e.inum in s.disk && s.disk[e.inum].nlink == e.nlink
  {
    var k := s.refs[r].slot;
    assert SlotAt(s, k);
    if s.slots[k].ref == 1 && InClearing(s, k) {
      var q :| Clears(s, k, q);
      OnlyRef(s, q, r);
    }
  }

  lemma {:induction false} KeepsAccount(s: Cache, st: Step, i: int)
    requires Inv(s) && Enabled(s, st) && Accounted(s, i) && !st.PutLast?
    requires st.PutStart? ==> LastOfUnlinked(s.slots[s.refs[st.r].slot])
    ensures Accounted(Apply(s, st), i)
  {
    hide RefsTo, Inv;
    var s' := Apply(s, st);
    if st.Update? || st.PutFree? {
      Counted(s, st.r);
      assert Cached(s', s.refs[st.r].slot, s.slots[s.refs[st.r].slot].inum);
    }
    if st.Iget? {
      assert Cached(s', st.k, st.inum);
    }
    if j :| Cached(s, j, i) {
      assert Cached(s', j, i);
    }
  }

  // ------------------------------------------------------------------
  // A discipline under which nothing is orphaned

  /** The references ialloc's caller got from iget and has not locked yet. */
  function NextRaw(s: Cache, raw: set<int>, st: Step): set<int> {
    match st
    case Iget(r, inum, k) => if inum in s.newborn then raw + {r} else raw
    case Lock(r) => raw - {r}
    case _ => raw
  }

  /** ialloc takes no number that is in the cache, and a new inode is locked before it is put. */
  predicate Disciplined(s: Cache, raw: set<int>, st: Step) {
    match st
    case Ialloc(inum, typ) => forall k :: 0 <= k < |s.slots| ==> !Cached(s, k, inum)
    case PutStart(r) => r !in raw
    case _ => true
  }

  /** A free number is in the cache exactly while somebody is between freeing it and dropping the reference. */
  lemma {:induction false} FreeInCache(s: Cache, inum: int)
    requires Inv(s) && inum in s.disk && s.disk[inum].typ == 0
    ensures InCache(s, inum) <==> exists r :: Leaving(s, inum, r)
  {
    hide RefsTo;
    if k :| Cached(s, k, inum) {
      assert SlotAt(s, k);
      var r := Sets.Pick(RefsTo(s, k));
      assert r in s.refs && s.refs[r].slot == k by {
        InRefsTo(s, k, r);
      }
      assert RefAt(s, r);
      assert Leaving(s, inum, r);
    }
    if r :| Leaving(s, inum, r) {
      Counted(s, r);
      assert Cached(s, s.refs[r].slot, inum);
    }
  }

  predicate Leaving(s: Cache, inum: int, r: int) {
    && r in s.refs && 0 <= s.refs[r].slot < |s.slots| && s.slots[s.refs[r].slot].inum == inum
    && s.refs[r].phase in {Clearing, Freed, Dropping}
  }

  lemma {:induction false} InRefsTo(s: Cache, k: int, r: int)
    ensures r in RefsTo(s, k) <==> r in s.refs && s.refs[r].slot == k
  {
  }

  ghost predicate RawAt(s: Cache, raw: set<int>, r: int) {
    r in raw ==> r in s.refs && s.refs[r].phase == Holding
  }

  /** Between freeing an inode and dropping the reference, its number is not allocated again. */
  ghost predicate WindowAt(s: Cache, r: int) {
    r in s.refs && !Using(s.refs[r].phase) && 0 <= s.refs[r].slot < |s.slots| ==>
      var i := s.slots[s.refs[r].slot].inum;
      i in s.disk && s.disk[i].typ == 0
  }

  predicate Reads(s: Cache, raw: set<int>, k: int, r: int) {
    r in s.refs && s.refs[r].slot == k && (r in raw || s.refs[r].phase == Reading)
  }

  predicate Unread(s: Cache, k: int) {
    && 0 <= k < |s.slots| && 0 < s.slots[k].ref && !s.slots[k].valid && s.slots[k].inum in s.disk
    && s.disk[s.slots[k].inum].typ != 0 && s.disk[s.slots[k].inum].nlink == 0 && s.slots[k].inum !in s.newborn
  }

  /** An allocated inode without links that is not read yet has somebody who will read it. */
  ghost predicate UnreadAt(s: Cache, raw: set<int>, k: int) {
    Unread(s, k) ==> exists r :: Reads(s, raw, k, r)
  }

  ghost predicate Kept(s: Cache, raw: set<int>) {
    && NoOrphan(s)
    && (forall r :: RawAt(s, raw, r))
    && (forall r :: WindowAt(s, r))
    && (forall k :: UnreadAt(s, raw, k))
  }

  lemma {:induction false} RawKeeps(s: Cache, raw: set<int>, st: Step, r: int)
    requires Enabled(s, st) && Disciplined(s, raw, st) && RawAt(s, raw, r)
    ensures RawAt(Apply(s, st), NextRaw(s, raw, st), r)
  {
  }

  lemma {:induction false} WindowKeeps(s: Cache, raw: set<int>, st: Step, r: int)
    requires Inv(s) && Enabled(s, st) && Disciplined(s, raw, st) && WindowAt(s, r)
    ensures WindowAt(Apply(s, st), r)
  {
    hide RefsTo, Inv;
    if r in s.refs {
      Counted(s, r);
      assert Cached(s, s.refs[r].slot, s.slots[s.refs[r].slot].inum);
    }
    if st.Update? || st.PutFree? {
      LockedOrFreeing(s, st.r);
    }
  }

  lemma {:induction false} LockedOrFreeing(s: Cache, r: int)
    requires Inv(s) && (At(s, r, Locked) || At(s, r, Truncating))
    ensures var e := s.slots[s.refs[r].slot]; e.inum in s.disk && s.disk[e.inum].typ == e.typ != 0 && e.valid
  {
    LockedSeesDisk(s, r);
    assert RefAt(s, r);
  }

  lemma {:induction false} UnreadKeeps(s: Cache, raw: set<int>, st: Step, k: int)
    requires Inv(s) && Enabled(s, st) && Disciplined(s, raw, st) && UnreadAt(s, raw, k)
    requires forall r :: RawAt(s, raw, r) && WindowAt(s, r)
    ensures UnreadAt(Apply(s, st), NextRaw(s, raw, st), k)
  {
    hide RefsTo, Inv;
    var s', raw' := Apply(s, st), NextRaw(s, raw, st);
    if Unread(s', k) {
      if st.Iget? && st.k == k {
        assert st.inum in s.newborn || Unread(s, k);
        if st.inum in s.newborn {
          assert Reads(s', raw', k, st.r);
        }
      } else {
        if st.Update? || st.PutFree? {
          LockedOrFreeing(s, st.r);
          Counted(s, st.r);
          Alone(s, k, s.refs[st.r].slot);
        }
        if st.Iget? && Cached(s, st.k, st.inum) {
          Alone(s, k, st.k);
        }
        if st.Idup? {
          Counted(s, st.from);
        }
        assert st.PutClear? ==> WindowAt(s, st.r);
        assert st.Iget? && !Cached(s, st.k, st.inum) ==> !Cached(s, k, st.inum);
        assert Unread(s, k);
      }
      if r :| Reads(s, raw, k, r) {
        assert RawAt(s, raw, r);
        Counted(s, r);
        assert Reads(s', raw', k, r);
      }
    }
  }

  /** A disciplined step keeps every unlinked inode referred to. */
  lemma {:induction false} DisciplineKeeps(s: Cache, raw: set<int>, st: Step)
    requires Inv(s) && Kept(s, raw) && Enabled(s, st) && Disciplined(s, raw, st)
    ensures Kept(Apply(s, st), NextRaw(s, raw, st))
  {
    hide Inv, RefsTo, Apply;
    NeverUnfreed(s, raw, st);
    OrphansExactly(s, st);
    forall r ensures RawAt(Apply(s, st), NextRaw(s, raw, st), r) && WindowAt(Apply(s, st), r) {
      RawKeeps(s, raw, st, r);
      WindowKeeps(s, raw, st, r);
    }
    forall k ensures UnreadAt(Apply(s, st), NextRaw(s, raw, st), k) {
      UnreadKeeps(s, raw, st, k);
    }
  }

  lemma {:induction false} NeverUnfreed(s: Cache, raw: set<int>, st: Step)
    requires Inv(s) && Kept(s, raw) && Enabled(s, st) && Disciplined(s, raw, st)
    ensures !DropsUnfreed(s, st)
  {
    hide Inv, RefsTo, NoOrphan;
    if st.PutLast? {
      assert WindowAt(s, st.r);
    } else if st.PutStart? {
      var k := s.refs[st.r].slot;
      Counted(s, st.r);
      if DropsUnfreed(s, st) {
        assert UnreadAt(s, raw, k);
        var q :| Reads(s, raw, k, q);
        OnlyRef(s, q, st.r);
      }
    }
  }

  /** The steps lead from s to s', each of them disciplined. */
  ghost predicate DisciplinedRun(s: Cache, raw: set<int>, steps: seq<Step>, s': Cache)
    decreases |steps|
  {
    if steps == [] then s == s'
    else
      Enabled(s, steps[0]) && Disciplined(s, raw, steps[0])
      && DisciplinedRun(Apply(s, steps[0]), NextRaw(s, raw, steps[0]), steps[1..], s')
  }

  /** In every disciplined run, the last reference to an inode without links frees it. */
  lemma {:induction false} NothingOrphaned(s: Cache, steps: seq<Step>, s': Cache)
    requires Start(s) && NoOrphan(s) && DisciplinedRun(s, {}, steps, s')
    ensures NoOrphan(s')
  {
    hide Inv, RefsTo;
    StartKeeps(s);
    DisciplinedKeeps(s, {}, steps, s');
  }

  lemma {:induction false} DisciplinedKeeps(s: Cache, raw: set<int>, steps: seq<Step>, s': Cache)
    requires Inv(s) && Kept(s, raw) && DisciplinedRun(s, raw, steps, s')
    ensures NoOrphan(s')
    decreases |steps|
  {
    hide Inv, RefsTo, NoOrphan, RawAt, WindowAt, UnreadAt;
    if steps != [] {
      StepKeeps(s, steps[0]);
      DisciplineKeeps(s, raw, steps[0]);
      DisciplinedKeeps(Apply(s, steps[0]), NextRaw(s, raw, steps[0]), steps[1..], s');
    }
  }

  /** Without the lock: a new inode that is put at once is left allocated, though no number was taken again. */
  lemma {:induction false} UnlockedOrphan() returns (steps: seq<Step>)
    ensures Start(EMPTY_0) && NoOrphan(EMPTY_0) && steps == [Ialloc(5, 1), Iget(1, 5, 0), PutStart(1)]
    ensures Leads(EMPTY_0, steps, EMPTY_3) && !NoOrphan(EMPTY_3) && Disciplined(EMPTY_0, {}, steps[0])
  {
    steps := [Ialloc(5, 1), Iget(1, 5, 0), PutStart(1)];
    var a := Cache([Entry(5, 0, false, 0, 0, false)], map[], map[5 := Dinode(1, 0)], {5});
    var b := Cache([Entry(5, 1, false, 0, 0, false)], map[1 := Ref(0, Holding)], map[5 := Dinode(1, 0)], {});
    assert Apply(EMPTY_0, steps[0]) == a;
    assert Apply(a, steps[1]) == b;
    assert Apply(b, steps[2]) == EMPTY_3;
    assert Leads(b, [steps[2]], EMPTY_3);
    assert steps[2..] == [steps[2]] && steps[1..][1..] == steps[2..];
    assert Leads(a, steps[1..], EMPTY_3);
    assert !Accounted(EMPTY_3, 5);
  }

  const EMPTY_0: Cache := Cache([Entry(5, 0, false, 0, 0, false)], map[], map[5 := Dinode(0, 0)], {})
  const EMPTY_3: Cache := Cache([Entry(5, 0, false, 0, 0, false)], map[], map[5 := Dinode(1, 0)], {})

  // A run that orphans an inode: it is freed and allocated again before its first holder
  // drops the reference, then used and unlinked by its second holder, who is not the last.

  const STATE_0: Cache := Cache([Entry(5, 0, false, 0, 0, false)], map[], map[5 := Dinode(1, 1)], {})
  const STATE_2: Cache := Cache([Entry(5, 1, false, 0, 0, true)], map[1 := Ref(0, Reading)], map[5 := Dinode(1, 1)], {})
  const STATE_4: Cache := Cache([Entry(5, 1, true, 1, 0, true)], map[1 := Ref(0, Locked)], map[5 := Dinode(1, 0)], {})
  const STATE_6: Cache := Cache([Entry(5, 1, true, 1, 0, true)], map[1 := Ref(0, Truncating)],
      map[5 := Dinode(1, 0)], {})
  const STATE_7: Cache := Cache([Entry(5, 1, true, 0, 0, true)], map[1 := Ref(0, Clearing)], map[5 := Dinode(0, 0)], {})
  const STATE_8: Cache := Cache([Entry(5, 1, false, 0, 0, false)], map[1 := Ref(0, Dropping)],
      map[5 := Dinode(0, 0)], {})
  const STATE_10: Cache := Cache([Entry(5, 2, false, 0, 0, false)], map[1 := Ref(0, Dropping), 2 := Ref(0, Holding)],
      map[5 := Dinode(1, 0)], {})
  const STATE_12: Cache := Cache([Entry(5, 2, true, 1, 0, true)], map[1 := Ref(0, Dropping), 2 := Ref(0, Locked)],
      map[5 := Dinode(1, 0)], {})
  const STATE_14: Cache := Cache([Entry(5, 2, true, 1, 0, true)], map[1 := Ref(0, Dropping), 2 := Ref(0, Locked)],
      map[5 := Dinode(1, 0)], {})
  const STATE_16: Cache := Cache([Entry(5, 1, true, 1, 0, false)], map[1 := Ref(0, Dropping)],
      map[5 := Dinode(1, 0)], {})
  const STATE_17: Cache := Cache([Entry(5, 0, true, 1, 0, false)], map[], map[5 := Dinode(1, 0)], {})

  lemma {:induction false} Extend(s: Cache, steps: seq<Step>, m: Cache, st: Step, s': Cache)
    requires Leads(s, steps, m) && Enabled(m, st) && Apply(m, st) == s'
    ensures Leads(s, steps + [st], s')
  {
    hide Enabled, Apply;
    assert [st][1..] == [];
    LeadsOn(s, steps, m, [st], s');
  }

  lemma {:induction false} Stretch1(steps: seq<Step>) returns (more: seq<Step>)
    requires Leads(STATE_0, steps, STATE_0)
    ensures Leads(STATE_0, more, STATE_2)
  {
    hide Leads;
    var m := Cache([Entry(5, 1, false, 0, 0, false)], map[1 := Ref(0, Holding)], map[5 := Dinode(1, 1)], {});
    Extend(STATE_0, steps, STATE_0, Iget(1, 5, 0), m);
    Extend(STATE_0, steps + [Iget(1, 5, 0)], m, Lock(1), STATE_2);
    more := steps + [Iget(1, 5, 0)] + [Lock(1)];
  }

  lemma {:induction false} Stretch2(steps: seq<Step>) returns (more: seq<Step>)
    requires Leads(STATE_0, steps, STATE_2)
    ensures Leads(STATE_0, more, STATE_4)
  {
    hide Leads;
    var m := Cache([Entry(5, 1, true, 1, 1, true)], map[1 := Ref(0, Locked)], map[5 := Dinode(1, 1)], {});
    Extend(STATE_0, steps, STATE_2, Load(1), m);
    Extend(STATE_0, steps + [Load(1)], m, Update(1, 0), STATE_4);
    more := steps + [Load(1)] + [Update(1, 0)];
  }

  lemma {:induction false} Stretch3(steps: seq<Step>) returns (more: seq<Step>)
    requires Leads(STATE_0, steps, STATE_4)
    ensures Leads(STATE_0, more, STATE_6)
  {
    hide Leads;
    var m := Cache([Entry(5, 1, true, 1, 0, false)], map[1 := Ref(0, Holding)], map[5 := Dinode(1, 0)], {});
    Extend(STATE_0, steps, STATE_4, Unlock(1), m);
    Extend(STATE_0, steps + [Unlock(1)], m, PutStart(1), STATE_6);
    more := steps + [Unlock(1)] + [PutStart(1)];
  }

  lemma {:induction false} Stretch4(steps: seq<Step>) returns (more: seq<Step>)
    requires Leads(STATE_0, steps, STATE_6)
    ensures Leads(STATE_0, more, STATE_7)
  {
    hide Leads;
    Extend(STATE_0, steps, STATE_6, PutFree(1), STATE_7);
    more := steps + [PutFree(1)];
  }

  lemma {:induction false} Stretch4Cleared(steps: seq<Step>) returns (more: seq<Step>)
    requires Leads(STATE_0, steps, STATE_7)
    ensures Leads(STATE_0, more, STATE_8)
  {
    hide Leads;
    var m := Cache([Entry(5, 1, false, 0, 0, true)], map[1 := Ref(0, Freed)], map[5 := Dinode(0, 0)], {});
    Extend(STATE_0, steps, STATE_7, PutClear(1), m);
    Extend(STATE_0, steps + [PutClear(1)], m, PutUnlock(1), STATE_8);
    more := steps + [PutClear(1)] + [PutUnlock(1)];
  }

  lemma {:induction false} Stretch5(steps: seq<Step>) returns (more: seq<Step>)
    requires Leads(STATE_0, steps, STATE_8)
    ensures Leads(STATE_0, more, STATE_10)
  {
    hide Leads;
    var m := Cache([Entry(5, 1, false, 0, 0, false)], map[1 := Ref(0, Dropping)], map[5 := Dinode(1, 0)], {5});
    Extend(STATE_0, steps, STATE_8, Ialloc(5, 1), m);
    Extend(STATE_0, steps + [Ialloc(5, 1)], m, Iget(2, 5, 0), STATE_10);
    more := steps + [Ialloc(5, 1)] + [Iget(2, 5, 0)];
  }

  lemma {:induction false} Stretch6(steps: seq<Step>) returns (more: seq<Step>)
    requires Leads(STATE_0, steps, STATE_10)
    ensures Leads(STATE_0, more, STATE_12)
  {
    hide Leads;
    var m := Cache([Entry(5, 2, false, 0, 0, true)], map[1 := Ref(0, Dropping), 2 := Ref(0, Reading)],
        map[5 := Dinode(1, 0)], {});
    Extend(STATE_0, steps, STATE_10, Lock(2), m);
    Extend(STATE_0, steps + [Lock(2)], m, Load(2), STATE_12);
    more := steps + [Lock(2)] + [Load(2)];
  }

  lemma {:induction false} Stretch7(steps: seq<Step>) returns (more: seq<Step>)
    requires Leads(STATE_0, steps, STATE_12)
    ensures Leads(STATE_0, more, STATE_14)
  {
    hide Leads;
    var m := Cache([Entry(5, 2, true, 1, 1, true)], map[1 := Ref(0, Dropping), 2 := Ref(0, Locked)],
        map[5 := Dinode(1, 1)], {});
    Extend(STATE_0, steps, STATE_12, Update(2, 1), m);
    Extend(STATE_0, steps + [Update(2, 1)], m, Update(2, 0), STATE_14);
    more := steps + [Update(2, 1)] + [Update(2, 0)];
  }

  lemma {:induction false} Stretch8(steps: seq<Step>) returns (more: seq<Step>)
    requires Leads(STATE_0, steps, STATE_14)
    ensures Leads(STATE_0, more, STATE_16)
  {
    hide Leads;
    var m := Cache([Entry(5, 2, true, 1, 0, false)], map[1 := Ref(0, Dropping), 2 := Ref(0, Holding)],
        map[5 := Dinode(1, 0)], {});
    Extend(STATE_0, steps, STATE_14, Unlock(2), m);
    Extend(STATE_0, steps + [Unlock(2)], m, PutStart(2), STATE_16);
    more := steps + [Unlock(2)] + [PutStart(2)];
  }

  lemma {:induction false} Stretch9(steps: seq<Step>) returns (more: seq<Step>)
    requires Leads(STATE_0, steps, STATE_16)
    ensures Leads(STATE_0, more, STATE_17)
  {
    hide Leads;
    Extend(STATE_0, steps, STATE_16, PutLast(1), STATE_17);
    more := steps + [PutLast(1)];
  }

  /** Some run from an empty cache leaves an allocated inode that has no link, no reference and nobody to free it. */
  lemma {:induction false} OrphanRun() returns (steps: seq<Step>)
    ensures Start(STATE_0) && NoOrphan(STATE_0) && Leads(STATE_0, steps, STATE_17) && !NoOrphan(STATE_17)
  {
    steps := [];
    steps := Stretch1(steps);
    steps := Stretch2(steps);
    steps := Stretch3(steps);
    steps := Stretch4(steps);
    steps := Stretch4Cleared(steps);
    steps := Stretch5(steps);
    steps := Stretch6(steps);
    steps := Stretch7(steps);
    steps := Stretch8(steps);
    steps := Stretch9(steps);
    assert Accounted(STATE_0, 5);
    assert !Accounted(STATE_17, 5);
  }

  /**
   What ilock has to guard against: a second holder gets a slot that is still valid with the type of the
   freed inode, while the disk has the new one.
   */
  lemma {:induction false} ReusedWhileValid() returns (steps: seq<Step>)
    ensures Start(STATE_0) && Leads(STATE_0, steps, REUSED)
    ensures REUSED.slots[0].valid && At(REUSED, 2, Holding) && REUSED.slots[0].typ != REUSED.disk[5].typ
  {
    hide Leads;
    assert Leads(STATE_0, [], STATE_0) by {
      NoSteps(STATE_0);
    }
    steps := Stretch1([]);
    steps := Stretch2(steps);
    steps := Stretch3(steps);
    steps := Stretch4(steps);
    var a := Cache([Entry(5, 1, true, 0, 0, true)], map[1 := Ref(0, Clearing)], map[5 := Dinode(1, 0)], {5});
    Extend(STATE_0, steps, STATE_7, Ialloc(5, 1), a);
    Extend(STATE_0, steps + [Ialloc(5, 1)], a, Iget(2, 5, 0), REUSED);
    steps := steps + [Ialloc(5, 1)] + [Iget(2, 5, 0)];
  }

  lemma {:induction false} NoSteps(s: Cache)
    ensures Leads(s, [], s)
  {
  }

  const REUSED: Cache := Cache([Entry(5, 2, true, 0, 0, true)],
                               map[1 := Ref(0, Clearing), 2 := Ref(0, Holding)], map[5 := Dinode(1, 0)], {})
}
