/**
 The three-level page tables of kernel/vm.c over the page free list of
 kernel/kalloc.c.

 Pages are physical page numbers and virtual pages are numbered by vpn = va / 4096.
 Beside the memory itself the state carries what the memory means: which page
 holds which node of which table, the flat map from virtual pages to
 mappings, and one owner for every page the allocator manages.
 */
module PageTable {
  import Sets

  const PGSIZE: nat := 4096
  const ENTRIES: nat := 512
  const MAX_VPN: nat := 0x400_0000 // MAXVA / PGSIZE
  const INT_LIMIT: nat := 0x8000_0000

  datatype Perm = Perm(r: bool, w: bool, x: bool, u: bool) {
    predicate Leafy() {
      r || w || x
    }
  }

  const NO_PERM := Perm(false, false, false, false)
  const USER := Perm(true, true, true, true)

  datatype Pte = Pte(ppn: int, v: bool, perm: Perm)

  const ZERO_PTE := Pte(0, false, NO_PERM)

  datatype Page = Junk | Table(ptes: seq<Pte>) | Data(bytes: seq<bv8>)

  /** A node of the table with the given root: the entries for the virtual pages whose high part is prefix. */
  datatype Key = Key(root: int, level: int, prefix: int)

  const NOTHING := Key(0, -1, 0)

  datatype Slot = Slot(root: int, vpn: int)

  /** What a virtual page maps to; an owned page goes back to the allocator with the mapping. */
  datatype Mapping = Mapping(ppn: int, perm: Perm, owned: bool)

  datatype Owner = Free | Held | Node(key: Key) | Leaf(slot: Slot)

  datatype Vm = Vm(lo: int, hi: int, free: seq<int>, mem: map<int, Page>,
                   node: map<Key, int>, flat: map<Slot, Mapping>, owner: map<int, Owner>)

  function Up(c: Key): Key {
    Key(c.root, c.level + 1, c.prefix / ENTRIES)
  }

  function NodeOf(s: Slot): Key {
    Key(s.root, 0, s.vpn / ENTRIES)
  }

  predicate KeyOk(k: Key) {
    || (k.level == 2 && k.prefix == 0)
    || (k.level == 1 && 0 <= k.prefix < ENTRIES)
    || (k.level == 0 && 0 <= k.prefix < ENTRIES * ENTRIES)
  }

  // ------------------------------------------------------------------
  // The invariant

  /** The free list holds each free page once and nothing else. */
  predicate FreeInv(free: seq<int>, owner: map<int, Owner>) {
    && (forall i, j :: 0 <= i < j < |free| ==> free[i] != free[j])
    && (forall p :: p in free ==> p in owner && owner[p] == Free)
    && (forall p :: p in owner && owner[p] == Free ==> p in free)
  }

  predicate IsTable(mem: map<int, Page>, p: int) {
    p in mem && mem[p].Table? && |mem[p].ptes| == ENTRIES
  }

  predicate IsData(mem: map<int, Page>, p: int) {
    p in mem && mem[p].Data? && |mem[p].bytes| == PGSIZE
  }

  predicate NodeAt(s: Vm, k: Key) {
    k in s.node ==>
      && KeyOk(k)
      && s.node[k] in s.owner && s.owner[s.node[k]] == Node(k)
      && IsTable(s.mem, s.node[k])
      && (k.level == 2 ==> s.node[k] == k.root)
      && (k.level < 2 ==> Up(k) in s.node)
  }

  predicate OwnsPage(flat: map<Slot, Mapping>, sl: Slot, p: int) {
    sl in flat && flat[sl].owned && flat[sl].ppn == p
  }

  predicate OwnerAt(s: Vm, p: int) {
    p in s.owner ==>
      && 0 < s.lo <= p < s.hi && p in s.mem
      && (s.owner[p].Node? ==> s.owner[p].key in s.node && s.node[s.owner[p].key] == p)
      && (s.owner[p].Leaf? ==> OwnsPage(s.flat, s.owner[p].slot, p))
  }

  function Entry(s: Vm, k: Key, i: int): Pte {
    if k in s.node && IsTable(s.mem, s.node[k]) && 0 <= i < ENTRIES then s.mem[s.node[k]].ptes[i] else ZERO_PTE
  }

  /** The entry for node c in its parent is valid exactly when c exists, and then points to it. */
  predicate DirAt(s: Vm, c: Key, stale: Key) {
    0 <= c.level < 2 && Up(c) in s.node ==>
      && (Entry(s, Up(c), c.prefix % ENTRIES).v <==> c in s.node || c == stale)
      && (c in s.node ==> Entry(s, Up(c), c.prefix % ENTRIES) == Pte(s.node[c], true, NO_PERM))
      && (c == stale ==> !Entry(s, Up(c), c.prefix % ENTRIES).perm.Leafy())
  }

  /** The bottom entry of a virtual page is valid exactly when the flat map has the page, and says the same. */
  predicate LeafAt(s: Vm, sl: Slot) {
    && (NodeOf(sl) in s.node ==> (Entry(s, NodeOf(sl), sl.vpn % ENTRIES).v <==> sl in s.flat))
    && (sl in s.flat ==>
          var m := s.flat[sl];
          && NodeOf(sl) in s.node
          && Entry(s, NodeOf(sl), sl.vpn % ENTRIES) == Pte(m.ppn, true, m.perm)
          && m.perm.Leafy() && (m.perm.u ==> m.owned)
          && (m.owned ==> m.ppn in s.owner && s.owner[m.ppn] == Leaf(sl) && IsData(s.mem, m.ppn)))
  }

  ghost predicate Inv(s: Vm, stale: Key) {
    && FreeInv(s.free, s.owner)
    && (forall k :: NodeAt(s, k))
    && (forall p :: OwnerAt(s, p))
    && (forall c :: DirAt(s, c, stale))
    && (forall sl :: LeafAt(s, sl))
  }

  // ------------------------------------------------------------------
  // The free list

  function Popped(s: Vm): Vm
    requires 0 < |s.free|
  {
    s.(free := s.free[1..], mem := s.mem[s.free[0] := Junk], owner := s.owner[s.free[0] := Held])
  }

  lemma {:induction false} PopFree(free: seq<int>, owner: map<int, Owner>)
    requires FreeInv(free, owner) && 0 < |free|
    ensures FreeInv(free[1..], owner[free[0] := Held])
    ensures free[0] in owner && owner[free[0]] == Free
  {
    var p, free', owner' := free[0], free[1..], owner[free[0] := Held];
    assert p in free;
    forall q | q in free' ensures q in owner' && owner'[q] == Free {
      var i :| 0 <= i < |free'| && free'[i] == q;
      assert free[i + 1] == q;
    }
    forall q | q in owner' && owner'[q] == Free ensures q in free' {
      var i :| 0 <= i < |free| && free[i] == q;
      assert free'[i - 1] == q;
    }
  }

  lemma {:induction false} PushFree(free: seq<int>, owner: map<int, Owner>, p: int)
    requires FreeInv(free, owner) && p in owner && owner[p] != Free
    ensures FreeInv([p] + free, owner[p := Free])
  {
  }

  lemma {:induction false} PushNew(free: seq<int>, owner: map<int, Owner>, p: int)
    requires FreeInv(free, owner) && p !in owner
    ensures FreeInv([p] + free, owner[p := Free])
  {
  }

  lemma {:induction false} AllFree(s: Vm)
    requires FreeInv(s.free, s.owner) && s.node == map[] && s.flat == map[]
    requires forall p :: p in s.owner ==> s.owner[p] == Free && p in s.mem && 0 < s.lo <= p < s.hi
    ensures Inv(s, NOTHING)
  {
  }

  lemma {:induction false} PoppedInv(s: Vm, stale: Key)
    requires Inv(s, stale) && 0 < |s.free|
    ensures Inv(Popped(s), stale)
  {
    hide FreeInv, KeyOk, Popped;
    PopFree(s.free, s.owner);
    var p, s' := s.free[0],
        s.(free := s.free[1..], mem := s.mem[s.free[0] := Junk], owner := s.owner[s.free[0] := Held]);
    assert s' == Popped(s) by { PoppedIs(s); }
    Unused(s, stale, p);
    forall k ensures NodeAt(s', k) {
      assert NodeAt(s, k);
    }
    forall q ensures OwnerAt(s', q) {
      assert OwnerAt(s, q);
    }
    forall c ensures DirAt(s', c, stale) {
      assert DirAt(s, c, stale) && NodeAt(s, Up(c));
    }
    forall sl ensures LeafAt(s', sl) {
      assert LeafAt(s, sl) && NodeAt(s, NodeOf(sl));
    }
  }

  lemma PoppedIs(s: Vm)
    requires 0 < |s.free|
    ensures Popped(s) == s.(free := s.free[1..], mem := s.mem[s.free[0] := Junk], owner := s.owner[s.free[0] := Held])
  {
  }

  /** A page that is free or merely held is no node's and no mapping's. */
  lemma {:induction false} Unused(s: Vm, stale: Key, p: int)
    requires Inv(s, stale) && p in s.owner && (s.owner[p] == Free || s.owner[p] == Held)
    ensures forall k :: k in s.node ==> s.node[k] != p
    ensures forall sl :: sl in s.flat && s.flat[sl].owned ==> s.flat[sl].ppn != p
    ensures p in s.mem && 0 < s.lo <= p < s.hi
  {
    assert OwnerAt(s, p);
    forall k | k in s.node ensures s.node[k] != p {
      assert NodeAt(s, k);
    }
    forall sl | sl in s.flat && s.flat[sl].owned ensures s.flat[sl].ppn != p {
      assert LeafAt(s, sl);
    }
  }

  // ------------------------------------------------------------------
  // Steps on the tables

  function Zeroed(): seq<Pte> {
    seq(ENTRIES, i => ZERO_PTE)
  }

  /** One entry of a table page is overwritten. */
  function WithEntry(mem: map<int, Page>, p: int, i: nat, e: Pte): map<int, Page>
    requires IsTable(mem, p) && i < ENTRIES
  {
    mem[p := Table(mem[p].ptes[i := e])]
  }

  /** A held page becomes the root of a new, empty table. */
  function RootAdded(s: Vm, p: int): Vm {
    s.(mem := s.mem[p := Table(Zeroed())], node := s.node[Key(p, 2, 0) := p], owner := s.owner[p := Node(Key(p, 2, 0))])
  }

  /** A held page becomes node c, linked from its parent. */
  function NodeAdded(s: Vm, p: int, c: Key): Vm
    requires Up(c) in s.node && IsTable(s.mem, s.node[Up(c)]) && s.node[Up(c)] != p
  {
    s.(mem := WithEntry(s.mem[p := Table(Zeroed())], s.node[Up(c)], c.prefix % ENTRIES, Pte(p, true, NO_PERM)),
       node := s.node[c := p],
       owner := s.owner[p := Node(c)])
  }

  /** A virtual page gets a mapping. */
  function Mapped(s: Vm, sl: Slot, m: Mapping): Vm
    requires NodeOf(sl) in s.node && IsTable(s.mem, s.node[NodeOf(sl)])
  {
    s.(mem := WithEntry(s.mem, s.node[NodeOf(sl)], sl.vpn % ENTRIES, Pte(m.ppn, true, m.perm)),
       flat := s.flat[sl := m],
       owner := if m.owned then s.owner[m.ppn := Leaf(sl)] else s.owner)
  }

  /** A virtual page loses its mapping; a page the mapping owned is freed when asked. */
  function Unmapped(s: Vm, sl: Slot, doFree: bool): Vm
    requires NodeOf(sl) in s.node && IsTable(s.mem, s.node[NodeOf(sl)]) && sl in s.flat
    requires doFree ==> s.flat[sl].ppn != s.node[NodeOf(sl)]
  {
    var p := s.flat[sl].ppn;
    var s1 := if doFree then s.(free := [p] + s.free, mem := s.mem[p := Junk], owner := s.owner[p := Free]) else s;
    s1.(mem := WithEntry(s1.mem, s.node[NodeOf(sl)], sl.vpn % ENTRIES, ZERO_PTE), flat := s.flat - {sl})
  }

  lemma {:induction false} RootAddedInv(s: Vm, p: int)
    requires Inv(s, NOTHING) && p in s.owner && s.owner[p] == Held
    ensures Inv(RootAdded(s, p), NOTHING)
    ensures forall k :: k in s.node ==> k.root != p
    ensures forall sl :: sl in s.flat ==> sl.root != p
  {
    var s', r := RootAdded(s, p), Key(p, 2, 0);
    Unused(s, NOTHING, p);
    forall k | k in s.node ensures k.root != p {
      RootOf(s, NOTHING, k);
    }
    forall sl | sl in s.flat ensures sl.root != p {
      assert LeafAt(s, sl);
    }
    forall k ensures NodeAt(s', k) {
      assert NodeAt(s, k);
    }
    forall q ensures OwnerAt(s', q) {
      assert OwnerAt(s, q);
    }
    forall c ensures DirAt(s', c, NOTHING) {
      assert DirAt(s, c, NOTHING) && NodeAt(s, Up(c)) && NodeAt(s, c);
    }
    forall sl ensures LeafAt(s', sl) {
      assert LeafAt(s, sl) && NodeAt(s, NodeOf(sl));
    }
  }

  /** Every node hangs below the root of its table. */
  lemma {:induction false} RootOf(s: Vm, stale: Key, k: Key)
    requires Inv(s, stale) && k in s.node
    ensures Key(k.root, 2, 0) in s.node && s.node[Key(k.root, 2, 0)] == k.root
    decreases 2 - k.level
  {
    assert NodeAt(s, k);
    if k.level < 2 {
      RootOf(s, stale, Up(k));
    }
  }

  lemma {:induction false} NodeAddedInv(s: Vm, p: int, c: Key)
    requires Inv(s, NOTHING) && p in s.owner && s.owner[p] == Held
    requires 0 <= c.level < 2 && KeyOk(c) && Up(c) in s.node && c !in s.node
    ensures s.node[Up(c)] != p && IsTable(s.mem, s.node[Up(c)])
    ensures Inv(NodeAdded(s, p, c), NOTHING)
  {
    hide FreeInv;
    Unused(s, NOTHING, p);
    assert NodeAt(s, Up(c));
    var s' := NodeAdded(s, p, c);
    assert FreeInv(s'.free, s'.owner) by { OtherOwner(s.free, s.owner, p, Node(c)); }
    forall k ensures NodeAt(s', k) {
      assert NodeAt(s, k);
    }
    forall q ensures OwnerAt(s', q) {
      assert OwnerAt(s, q);
    }
    forall d ensures DirAt(s', d, NOTHING) {
      assert DirAt(s, d, NOTHING) && NodeAt(s, Up(d)) && NodeAt(s, d);
    }
    forall sl ensures LeafAt(s', sl) {
      assert LeafAt(s, sl) && NodeAt(s, NodeOf(sl));
    }
  }

  lemma {:induction false} OtherOwner(free: seq<int>, owner: map<int, Owner>, p: int, o: Owner)
    requires FreeInv(free, owner) && p in owner && owner[p] != Free && o != Free
    ensures FreeInv(free, owner[p := o])
  {
  }

  lemma {:induction false} MappedInv(s: Vm, sl: Slot, m: Mapping)
    requires Inv(s, NOTHING) && sl !in s.flat && NodeOf(sl) in s.node
    requires m.perm.Leafy() && (m.perm.u ==> m.owned)
    requires m.owned ==> m.ppn in s.owner && s.owner[m.ppn] == Held && IsData(s.mem, m.ppn)
    ensures IsTable(s.mem, s.node[NodeOf(sl)])
    ensures Inv(Mapped(s, sl, m), NOTHING)
  {
    hide FreeInv;
    assert NodeAt(s, NodeOf(sl));
    if m.owned {
      Unused(s, NOTHING, m.ppn);
      OtherOwner(s.free, s.owner, m.ppn, Leaf(sl));
    }
    var s' := Mapped(s, sl, m);
    forall k ensures NodeAt(s', k) {
      assert NodeAt(s, k);
    }
    forall q ensures OwnerAt(s', q) {
      assert OwnerAt(s, q);
    }
    forall d ensures DirAt(s', d, NOTHING) {
      assert DirAt(s, d, NOTHING) && NodeAt(s, Up(d));
    }
    forall t ensures LeafAt(s', t) {
      assert LeafAt(s, t) && NodeAt(s, NodeOf(t));
    }
  }

  lemma {:induction false} UnmappedInv(s: Vm, sl: Slot, doFree: bool)
    requires Inv(s, NOTHING) && sl in s.flat && s.flat[sl].owned == doFree
    ensures NodeOf(sl) in s.node && IsTable(s.mem, s.node[NodeOf(sl)])
    ensures doFree ==> s.flat[sl].ppn != s.node[NodeOf(sl)] && 0 < s.lo <= s.flat[sl].ppn < s.hi
    ensures Entry(s, NodeOf(sl), sl.vpn % ENTRIES) == Pte(s.flat[sl].ppn, true, s.flat[sl].perm)
    ensures s.flat[sl].perm.Leafy()
    ensures Inv(Unmapped(s, sl, doFree), NOTHING)
  {
    hide FreeInv;
    assert LeafAt(s, sl) && NodeAt(s, NodeOf(sl));
    var p := s.flat[sl].ppn;
    if doFree {
      assert OwnerAt(s, p);
      PushFree(s.free, s.owner, p);
    }
    var s' := Unmapped(s, sl, doFree);
    forall k ensures NodeAt(s', k) {
      assert NodeAt(s, k);
    }
    forall q ensures OwnerAt(s', q) {
      assert OwnerAt(s, q);
    }
    forall d ensures DirAt(s', d, NOTHING) {
      assert DirAt(s, d, NOTHING) && NodeAt(s, Up(d));
    }
    forall t ensures LeafAt(s', t) {
      assert LeafAt(s, t) && NodeAt(s, NodeOf(t));
    }
  }

  /** Node k, with nothing below it, returns to the free list; its parent's entry goes stale. */
  function NodeRemoved(s: Vm, k: Key): Vm
    requires k in s.node
  {
    var p := s.node[k];
    s.(free := [p] + s.free, mem := s.mem[p := Junk], node := s.node - {k}, owner := s.owner[p := Free])
  }

  lemma {:induction false} NodeRemovedInv(s: Vm, k: Key)
    requires Inv(s, NOTHING) && k in s.node
    requires forall c :: c in s.node && c.level < 2 ==> Up(c) != k
    requires forall sl :: sl in s.flat ==> NodeOf(sl) != k
    ensures Inv(NodeRemoved(s, k), k)
    ensures 0 < s.lo <= s.node[k] < s.hi
  {
    hide FreeInv;
    assert NodeAt(s, k) && OwnerAt(s, s.node[k]);
    var s', p := NodeRemoved(s, k), s.node[k];
    PushFree(s.free, s.owner, p);
    forall j ensures NodeAt(s', j) {
      assert NodeAt(s, j);
    }
    forall q ensures OwnerAt(s', q) {
      assert OwnerAt(s, q);
    }
    forall c ensures DirAt(s', c, k) {
      assert DirAt(s, c, NOTHING) && NodeAt(s, Up(c)) && NodeAt(s, c);
    }
    forall t ensures LeafAt(s', t) {
      assert LeafAt(s, t) && NodeAt(s, NodeOf(t));
    }
  }

  /** The stale entry of a removed node is overwritten with zero. */
  function EntryCleared(s: Vm, c: Key): Vm
    requires Up(c) in s.node && IsTable(s.mem, s.node[Up(c)])
  {
    s.(mem := WithEntry(s.mem, s.node[Up(c)], c.prefix % ENTRIES, ZERO_PTE))
  }

  lemma {:induction false} EntryClearedInv(s: Vm, c: Key)
    requires Inv(s, c) && 0 <= c.level < 2 && c !in s.node && Up(c) in s.node
    ensures IsTable(s.mem, s.node[Up(c)])
    ensures Inv(EntryCleared(s, c), NOTHING)
  {
    assert NodeAt(s, Up(c));
    var s' := EntryCleared(s, c);
    forall j ensures NodeAt(s', j) {
      assert NodeAt(s, j);
    }
    forall q ensures OwnerAt(s', q) {
      assert OwnerAt(s, q);
    }
    forall d ensures DirAt(s', d, NOTHING) {
      assert DirAt(s, d, c) && NodeAt(s, Up(d));
    }
    forall t ensures LeafAt(s', t) {
      assert LeafAt(s, t) && NodeAt(s, NodeOf(t));
    }
  }

  // ------------------------------------------------------------------
  // What an operation leaves alone

  predicate SameSlot(s: Vm, s': Vm, sl: Slot) {
    && (sl in s.flat <==> sl in s'.flat)
    && (sl in s.flat ==>
          && s'.flat[sl] == s.flat[sl]
          && (s.flat[sl].owned && s.flat[sl].ppn in s.mem ==>
                s.flat[sl].ppn in s'.mem && s'.mem[s.flat[sl].ppn] == s.mem[s.flat[sl].ppn]))
  }

  predicate SameNode(s: Vm, s': Vm, k: Key) {
    (k in s.node <==> k in s'.node) && (k in s.node ==> s'.node[k] == s.node[k])
  }

  predicate StillHeld(s: Vm, s': Vm, p: int) {
    && p in s.owner && s.owner[p] == Held && p in s.mem
    && p in s'.owner && s'.owner[p] == Held && p in s'.mem && s'.mem[p] == s.mem[p]
  }

  /**
   Nothing changes but the nodes of one table and its virtual pages a .. b: every
   other mapping keeps its page and the page its contents, other tables keep
   their nodes, and the pages in held stay where they are.
   */
  ghost predicate Frame(s: Vm, s': Vm, root: int, a: int, b: int, held: set<int>) {
    && s'.lo == s.lo && s'.hi == s.hi && s'.owner.Keys == s.owner.Keys
    && (forall sl: Slot :: !(sl.root == root && a <= sl.vpn < b) ==> SameSlot(s, s', sl))
    && (forall k: Key :: k.root != root ==> SameNode(s, s', k))
    && (forall p :: p in held ==> StillHeld(s, s', p))
  }

  lemma {:induction false} FrameChain(s: Vm, s1: Vm, s2: Vm, root: int, a: int, b: int, held: set<int>)
    requires Frame(s, s1, root, a, b, held) && Frame(s1, s2, root, a, b, held)
    ensures Frame(s, s2, root, a, b, held)
  {
    forall sl: Slot | !(sl.root == root && a <= sl.vpn < b) ensures SameSlot(s, s2, sl) {
      assert SameSlot(s, s1, sl) && SameSlot(s1, s2, sl);
    }
    forall k: Key | k.root != root ensures SameNode(s, s2, k) {
      assert SameNode(s, s1, k) && SameNode(s1, s2, k);
    }
    forall p | p in held ensures StillHeld(s, s2, p) {
      assert StillHeld(s, s1, p) && StillHeld(s1, s2, p);
    }
  }

  lemma {:induction false} FrameWider(s: Vm, s': Vm, root: int, a: int, b: int, held: set<int>, a': int, b': int,
      held': set<int>)
    requires Frame(s, s', root, a, b, held) && (a >= b || (a' <= a && b <= b')) && held' <= held
    ensures Frame(s, s', root, a', b', held')
  {
  }

  ghost function HeldOf(owner: map<int, Owner>): set<int> {
    set p | p in owner && owner[p] == Held
  }

  lemma {:induction false} FrameNone(s: Vm, root: int, stale: Key)
    requires Inv(s, stale)
    ensures Frame(s, s, root, 0, 0, HeldOf(s.owner))
  {
    forall p | p in HeldOf(s.owner) ensures StillHeld(s, s, p) {
      assert OwnerAt(s, p);
    }
  }

  lemma {:induction false} PoppedFrame(s: Vm, root: int)
    requires Inv(s, NOTHING) && 0 < |s.free|
    ensures Frame(s, Popped(s), root, 0, 0, HeldOf(s.owner))
    ensures s.free[0] in s.owner && s.owner[s.free[0]] == Free && 0 < s.free[0]
    ensures HeldOf(Popped(s).owner) == HeldOf(s.owner) + {s.free[0]} && s.free[0] !in HeldOf(s.owner)
  {
    PopFree(s.free, s.owner);
    Unused(s, NOTHING, s.free[0]);
    FrameNone(s, root, NOTHING);
  }

  lemma {:induction false} RootAddedFrame(s: Vm, p: int)
    requires Inv(s, NOTHING) && p in s.owner && s.owner[p] == Held
    ensures Frame(s, RootAdded(s, p), p, 0, 0, HeldOf(s.owner) - {p})
    ensures HeldOf(RootAdded(s, p).owner) == HeldOf(s.owner) - {p}
  {
    Unused(s, NOTHING, p);
    FrameNone(s, p, NOTHING);
  }

  lemma {:induction false} NodeAddedFrame(s: Vm, p: int, c: Key)
    requires Inv(s, NOTHING) && p in s.owner && s.owner[p] == Held
    requires 0 <= c.level < 2 && Up(c) in s.node && c !in s.node && s.node[Up(c)] != p && IsTable(s.mem, s.node[Up(c)])
    ensures Frame(s, NodeAdded(s, p, c), c.root, 0, 0, HeldOf(s.owner) - {p})
    ensures HeldOf(NodeAdded(s, p, c).owner) == HeldOf(s.owner) - {p}
  {
    hide FreeInv;
    Unused(s, NOTHING, p);
    FrameNone(s, c.root, NOTHING);
    NodesApart(s, NOTHING, Up(c));
  }

  /** A node's page is neither held nor the page of a mapping. */
  lemma {:induction false} NodesApart(s: Vm, stale: Key, k: Key)
    requires Inv(s, stale) && k in s.node
    ensures s.node[k] !in HeldOf(s.owner)
    ensures forall sl :: sl in s.flat && s.flat[sl].owned ==> s.flat[sl].ppn != s.node[k]
    ensures s.node[k] in s.mem && IsTable(s.mem, s.node[k]) && 0 < s.node[k]
  {
    assert NodeAt(s, k) && OwnerAt(s, s.node[k]);
    forall sl | sl in s.flat && s.flat[sl].owned ensures s.flat[sl].ppn != s.node[k] {
      assert LeafAt(s, sl);
    }
  }

  lemma {:induction false} MappedFrame(s: Vm, sl: Slot, m: Mapping)
    requires Inv(s, NOTHING) && sl !in s.flat && NodeOf(sl) in s.node && IsTable(s.mem, s.node[NodeOf(sl)])
    requires m.owned ==> m.ppn in s.owner && s.owner[m.ppn] == Held
    ensures var minus := if m.owned then {m.ppn} else {};
            && Frame(s, Mapped(s, sl, m), sl.root, sl.vpn, sl.vpn + 1, HeldOf(s.owner) - minus)
            && HeldOf(Mapped(s, sl, m).owner) == HeldOf(s.owner) - minus
    ensures m.owned && m.ppn in s.mem ==> m.ppn in Mapped(s, sl, m).mem && Mapped(s, sl, m).mem[m.ppn] == s.mem[m.ppn]
  {
    hide FreeInv;
    FrameNone(s, sl.root, NOTHING);
    NodesApart(s, NOTHING, NodeOf(sl));
  }

  lemma {:induction false} UnmappedFrame(s: Vm, sl: Slot, doFree: bool)
    requires Inv(s, NOTHING) && sl in s.flat && s.flat[sl].owned == doFree
    requires NodeOf(sl) in s.node && IsTable(s.mem, s.node[NodeOf(sl)])
    requires doFree ==> s.flat[sl].ppn != s.node[NodeOf(sl)]
    ensures Frame(s, Unmapped(s, sl, doFree), sl.root, sl.vpn, sl.vpn + 1, HeldOf(s.owner))
    ensures HeldOf(Unmapped(s, sl, doFree).owner) == HeldOf(s.owner)
  {
    hide FreeInv;
    FrameNone(s, sl.root, NOTHING);
    NodesApart(s, NOTHING, NodeOf(sl));
    assert LeafAt(s, sl);
    var s', p := Unmapped(s, sl, doFree), s.flat[sl].ppn;
    assert doFree ==> p !in HeldOf(s.owner);
    forall t: Slot | !(t.root == sl.root && sl.vpn <= t.vpn < sl.vpn + 1) ensures SameSlot(s, s', t) {
      assert LeafAt(s, t);
    }
  }

  lemma {:induction false} NodeRemovedFrame(s: Vm, k: Key)
    requires Inv(s, NOTHING) && k in s.node
    ensures Frame(s, NodeRemoved(s, k), k.root, 0, 0, HeldOf(s.owner))
    ensures HeldOf(NodeRemoved(s, k).owner) == HeldOf(s.owner)
  {
    FrameNone(s, k.root, NOTHING);
    NodesApart(s, NOTHING, k);
    assert NodeAt(s, k);
  }

  lemma {:induction false} EntryClearedFrame(s: Vm, c: Key)
    requires Inv(s, c) && Up(c) in s.node && IsTable(s.mem, s.node[Up(c)])
    ensures Frame(s, EntryCleared(s, c), c.root, 0, 0, HeldOf(s.owner))
  {
    FrameNone(s, c.root, c);
    NodesApart(s, c, Up(c));
  }

  /** A held page goes back to the free list. */
  function Released(s: Vm, p: int): Vm {
    s.(free := [p] + s.free, mem := s.mem[p := Junk], owner := s.owner[p := Free])
  }

  lemma {:induction false} ReleasedInv(s: Vm, p: int, root: int)
    requires Inv(s, NOTHING) && p in s.owner && s.owner[p] == Held
    ensures Inv(Released(s, p), NOTHING)
    ensures Frame(s, Released(s, p), root, 0, 0, HeldOf(s.owner) - {p})
    ensures HeldOf(Released(s, p).owner) == HeldOf(s.owner) - {p}
    ensures 0 < s.lo <= p < s.hi
  {
    hide FreeInv;
    Unused(s, NOTHING, p);
    FrameNone(s, root, NOTHING);
    PushFree(s.free, s.owner, p);
    var s' := Released(s, p);
    forall k ensures NodeAt(s', k) {
      assert NodeAt(s, k);
    }
    forall q ensures OwnerAt(s', q) {
      assert OwnerAt(s, q);
    }
    forall c ensures DirAt(s', c, NOTHING) {
      assert DirAt(s, c, NOTHING) && NodeAt(s, Up(c));
    }
    forall sl ensures LeafAt(s', sl) {
      assert LeafAt(s, sl) && NodeAt(s, NodeOf(sl));
    }
  }

  /** A held page gets new contents. */
  lemma {:induction false} FilledInv(s: Vm, p: int, c: Page, root: int)
    requires Inv(s, NOTHING) && p in s.owner && s.owner[p] == Held
    ensures Inv(s.(mem := s.mem[p := c]), NOTHING)
    ensures Frame(s, s.(mem := s.mem[p := c]), root, 0, 0, HeldOf(s.owner) - {p})
  {
    hide FreeInv;
    Unused(s, NOTHING, p);
    FrameNone(s, root, NOTHING);
    var s' := s.(mem := s.mem[p := c]);
    forall k ensures NodeAt(s', k) {
      assert NodeAt(s, k);
    }
    forall q ensures OwnerAt(s', q) {
      assert OwnerAt(s, q);
    }
    forall d ensures DirAt(s', d, NOTHING) {
      assert DirAt(s, d, NOTHING) && NodeAt(s, Up(d));
    }
    forall sl ensures LeafAt(s', sl) {
      assert LeafAt(s, sl) && NodeAt(s, NodeOf(sl));
    }
  }

  // ------------------------------------------------------------------
  // The path of a virtual page

  /** The 9-bit index of va at a level of the tree. */
  function Px(level: nat, va: nat): (i: nat)
    requires level <= 2
    ensures i < ENTRIES
  {
    (if level == 0 then va / 0x1000 else if level == 1 then va / 0x20_0000 else va / 0x4000_0000) % ENTRIES
  }

  /** The node at a level on the way to a virtual page. */
  function KeyAt(sl: Slot, level: nat): Key {
    if level == 0 then NodeOf(sl) else Up(KeyAt(sl, level - 1))
  }

  lemma {:induction false} Path(root: int, va: nat)
    requires va / PGSIZE < MAX_VPN
    ensures var sl := Slot(root, va / PGSIZE);
            && KeyAt(sl, 2) == Key(root, 2, 0)
            && KeyAt(sl, 1) == Key(root, 1, sl.vpn / ENTRIES / ENTRIES) && KeyOk(KeyAt(sl, 1))
            && KeyAt(sl, 0) == NodeOf(sl) && KeyOk(KeyAt(sl, 0))
            && Px(2, va) == KeyAt(sl, 1).prefix % ENTRIES
            && Px(1, va) == KeyAt(sl, 0).prefix % ENTRIES
            && Px(0, va) == sl.vpn % ENTRIES
  {
    var vpn := va / PGSIZE;
    var a, b := vpn / ENTRIES, vpn / ENTRIES / ENTRIES;
    assert KeyAt(Slot(root, vpn), 0) == Key(root, 0, a);
    assert KeyAt(Slot(root, vpn), 1) == Up(KeyAt(Slot(root, vpn), 0));
    assert KeyAt(Slot(root, vpn), 2) == Up(KeyAt(Slot(root, vpn), 1));
    assert va / 0x20_0000 == a && va / 0x4000_0000 == b;
    assert b / ENTRIES == 0;
  }

  /** How many nodes on the path below a level are missing. */
  function Need(node: map<Key, int>, sl: Slot, level: nat): nat {
    if level == 0 then 0 else Need(node, sl, level - 1) + if KeyAt(sl, level - 1) in node then 0 else 1
  }

  lemma {:induction false} NeedSame(node: map<Key, int>, sl: Slot, level: nat, c: Key, p: int)
    requires c.level >= level
    ensures Need(node[c := p], sl, level) == Need(node, sl, level)
  {
    if level > 0 {
      NeedSame(node, sl, level - 1, c, p);
      KeyLevel(sl, level - 1);
    }
  }

  /** The nodes below the root that lie on the paths to the virtual pages a .. b of a table. */
  ghost function PathNodes(root: int, a: int, b: int): set<Key> {
    (set vpn | a <= vpn < b :: NodeOf(Slot(root, vpn))) + (set vpn | a <= vpn < b :: Up(NodeOf(Slot(root, vpn))))
  }

  /** Those of them that do not exist. */
  ghost function Missing(node: map<Key, int>, root: int, a: int, b: int): set<Key> {
    PathNodes(root, a, b) - node.Keys
  }

  lemma {:induction false} PathOne(node: map<Key, int>, root: int, vpn: int)
    ensures PathNodes(root, vpn, vpn + 1) == {KeyAt(Slot(root, vpn), 1), KeyAt(Slot(root, vpn), 0)}
    ensures |Missing(node, root, vpn, vpn + 1)| == Need(node, Slot(root, vpn), 2)
  {
    hide PathNodes, KeyAt, Need;
    var k1, k0 := KeyAt(Slot(root, vpn), 1), KeyAt(Slot(root, vpn), 0);
    PathPair(root, vpn);
    NeedTwo(node, Slot(root, vpn));
    TwoLess(k1, k0, node.Keys);
  }

  lemma TwoLess(k1: Key, k0: Key, keys: set<Key>)
    requires k1 != k0
    ensures |{k1, k0} - keys| == (if k1 in keys then 0 else 1) + (if k0 in keys then 0 else 1)
  {
    if k1 in keys {
      assert {k1, k0} - keys == {k0} - keys;
      assert {k0} - keys == if k0 in keys then {} else {k0};
    } else {
      assert {k1, k0} - keys == {k1} + if k0 in keys then {} else {k0};
    }
  }

  lemma {:induction false} PathPair(root: int, vpn: int)
    ensures PathNodes(root, vpn, vpn + 1) == {KeyAt(Slot(root, vpn), 1), KeyAt(Slot(root, vpn), 0)}
    ensures KeyAt(Slot(root, vpn), 1) != KeyAt(Slot(root, vpn), 0)
  {
    hide NodeOf;
    var sl := Slot(root, vpn);
    assert KeyAt(sl, 0) == NodeOf(sl) && KeyAt(sl, 1) == Up(NodeOf(sl));
    assert (set v | vpn <= v < vpn + 1 :: NodeOf(Slot(root, v))) == {NodeOf(sl)};
    assert (set v | vpn <= v < vpn + 1 :: Up(NodeOf(Slot(root, v)))) == {Up(NodeOf(sl))};
  }

  lemma {:induction false} NeedTwo(node: map<Key, int>, sl: Slot)
    ensures Need(node, sl, 2) == (if KeyAt(sl, 1) in node then 0 else 1) + (if KeyAt(sl, 0) in node then 0 else 1)
  {
    assert Need(node, sl, 2) == Need(node, sl, 1) + if KeyAt(sl, 1) in node then 0 else 1;
    assert Need(node, sl, 1) == Need(node, sl, 0) + if KeyAt(sl, 0) in node then 0 else 1;
  }

  lemma {:induction false} PathSplit(root: int, a: int, b: int, c: int)
    requires a <= b <= c
    ensures PathNodes(root, a, c) == PathNodes(root, a, b) + PathNodes(root, b, c)
  {
    hide NodeOf, Up;
  }

  /** The nodes that one range lacks and those that the next lacks once the first has its own. */
  lemma {:induction false} MissingNext(node0: map<Key, int>, node: map<Key, int>, root: int, a: int, b: int, c: int)
    requires a <= b <= c && node.Keys == node0.Keys + PathNodes(root, a, b)
    ensures |Missing(node0, root, a, c)| == |Missing(node0, root, a, b)| + |Missing(node, root, b, c)|
    ensures node.Keys + PathNodes(root, b, c) == node0.Keys + PathNodes(root, a, c)
  {
    hide PathNodes;
    PathSplit(root, a, b, c);
    var first, next := PathNodes(root, a, b), PathNodes(root, b, c);
    assert Missing(node0, root, a, c) == first + next - node0.Keys;
    assert Missing(node, root, b, c) == next - (node0.Keys + first);
    SetsApart(first, next, node0.Keys);
  }

  lemma SetsApart(first: set<Key>, next: set<Key>, keys: set<Key>)
    ensures |first + next - keys| == |first - keys| + |next - (keys + first)|
    ensures keys + first + next == keys + (first + next)
  {
    assert first + next - keys == (first - keys) + (next - (keys + first));
  }

  lemma {:induction false} MissingNone(node: map<Key, int>, root: int, a: int)
    ensures Missing(node, root, a, a) == {} && node.Keys + PathNodes(root, a, a) == node.Keys
  {
    assert PathNodes(root, a, a) == {};
  }

  lemma {:induction false} MissingMore(node: map<Key, int>, root: int, a: int, b: int, c: int)
    requires a <= b <= c
    ensures |Missing(node, root, a, b)| <= |Missing(node, root, a, c)|
  {
    hide PathNodes;
    PathSplit(root, a, b, c);
    Sets.SubsetSize(Missing(node, root, a, b), Missing(node, root, a, c));
  }

  lemma {:induction false} KeyLevel(sl: Slot, level: nat)
    ensures KeyAt(sl, level).level == level && KeyAt(sl, level).root == sl.root
  {
    if level > 0 {
      KeyLevel(sl, level - 1);
    }
  }

  /** What the entry on the path says. */
  lemma {:induction false} OnPath(s: Vm, c: Key)
    requires Inv(s, NOTHING) && 0 <= c.level < 2 && Up(c) in s.node
    ensures var p := s.node[Up(c)];
            && IsTable(s.mem, p)
            && s.mem[p].ptes[c.prefix % ENTRIES] == Entry(s, Up(c), c.prefix % ENTRIES)
            && (Entry(s, Up(c), c.prefix % ENTRIES).v <==> c in s.node)
            && (c in s.node ==> Entry(s, Up(c), c.prefix % ENTRIES).ppn == s.node[c])
  {
    assert NodeAt(s, Up(c)) && DirAt(s, c, NOTHING);
  }

  lemma {:induction false} MapStart(s: Vm, root: int, vpn: int, ppn: int, perm: Perm, owned: bool)
    requires Inv(s, NOTHING)
    ensures Frame(s, s, root, vpn, vpn, HeldOf(s.owner))
    ensures MapRange(s.flat, root, vpn, ppn, 0, perm, owned) == s.flat
    ensures ppn in s.owner && s.owner[ppn] == Held ==> ppn in HeldOf(s.owner)
  {
    hide Inv, Frame;
    FrameNone(s, root, NOTHING);
    FrameWider(s, s, root, 0, 0, HeldOf(s.owner), vpn, vpn, HeldOf(s.owner));
  }

  lemma {:induction false} MapWalked(s0: Vm, s1: Vm, s2: Vm, root: int, first: int, n: nat, held: set<int>)
    requires Frame(s0, s1, root, first, first + n, held) && Frame(s1, s2, root, 0, 0, held)
    ensures Frame(s0, s2, root, first, first + n, held)
  {
    hide Frame;
    FrameWider(s1, s2, root, 0, 0, held, first, first + n, held);
    FrameChain(s0, s1, s2, root, first, first + n, held);
  }

  lemma {:induction false} KeptHeld(s0: Vm, s: Vm, root: int, a: int, b: int, held: set<int>, p: int)
    requires Frame(s0, s, root, a, b, held) && p in held
    ensures StillHeld(s0, s, p)
  {
  }

  /** Mapping one more page of the range. */
  lemma {:induction false} MapOne(s0: Vm, s: Vm, sl: Slot, m: Mapping, first: int, ppn: int, n: nat, held: set<int>)
    requires Inv(s, NOTHING) && HeldOf(s.owner) == held && Frame(s0, s, sl.root, first, first + n, held)
    requires s.flat == MapRange(s0.flat, sl.root, first, ppn, n, m.perm, m.owned) && sl !in s0.flat
    requires sl.vpn == first + n && m.ppn == ppn + n && NodeOf(sl) in s.node
    requires m.perm.Leafy() && (m.perm.u ==> m.owned)
    requires m.owned ==> n == 0 && m.ppn in held && IsData(s0.mem, m.ppn)
    ensures IsTable(s.mem, s.node[NodeOf(sl)]) && !s.mem[s.node[NodeOf(sl)]].ptes[sl.vpn % ENTRIES].v
    ensures var s' := Mapped(s, sl, m);
            && Inv(s', NOTHING)
            && s'.flat == MapRange(s0.flat, sl.root, first, ppn, n + 1, m.perm, m.owned)
            && HeldOf(s'.owner) == held - Given(ppn, n + 1, m.owned)
            && Frame(s0, s', sl.root, first, first + n + 1, HeldOf(s'.owner))
            && (m.owned ==> m.ppn in s'.mem && s'.mem[m.ppn] == s0.mem[m.ppn])
  {
    hide Inv, Frame;
    MapRangeAt(s0.flat, sl.root, first, ppn, n, m.perm, m.owned, sl);
    if m.owned {
      KeptHeld(s0, s, sl.root, first, first + n, held, m.ppn);
    }
    assert !s.mem[s.node[NodeOf(sl)]].ptes[sl.vpn % ENTRIES].v && IsTable(s.mem, s.node[NodeOf(sl)]) by {
      NotMapped(s, sl);
    }
    MappedInv(s, sl, m);
    MappedFrame(s, sl, m);
    var s', held' := Mapped(s, sl, m), HeldOf(Mapped(s, sl, m).owner);
    FrameWider(s0, s, sl.root, first, first + n, held, first, first + n + 1, held');
    FrameWider(s, s', sl.root, sl.vpn, sl.vpn + 1, held', first, first + n + 1, held');
    FrameChain(s0, s, s', sl.root, first, first + n + 1, held');
  }

  lemma {:induction false} NotMapped(s: Vm, sl: Slot)
    requires Inv(s, NOTHING) && sl !in s.flat && NodeOf(sl) in s.node
    ensures IsTable(s.mem, s.node[NodeOf(sl)]) && !s.mem[s.node[NodeOf(sl)]].ptes[sl.vpn % ENTRIES].v
  {
    assert NodeAt(s, NodeOf(sl)) && LeafAt(s, sl);
  }

  lemma {:induction false} NodeGrows(s0: Vm, s: Vm, root: int, p: int, c: Key, held: set<int>)
    requires Inv(s, NOTHING) && p in s.owner && s.owner[p] == Held && HeldOf(s.owner) == held + {p} && p !in held
    requires 0 <= c.level < 2 && KeyOk(c) && c.root == root && Up(c) in s.node && c !in s.node
    requires Frame(s0, s, root, 0, 0, held)
    ensures s.node[Up(c)] != p && IsTable(s.mem, s.node[Up(c)])
    ensures Inv(NodeAdded(s, p, c), NOTHING)
    ensures Frame(s0, NodeAdded(s, p, c), root, 0, 0, held) && HeldOf(NodeAdded(s, p, c).owner) == held
  {
    hide Inv, Frame;
    NodeAddedInv(s, p, c);
    NodeAddedFrame(s, p, c);
    assert HeldOf(s.owner) - {p} == held;
    FrameChain(s0, s, NodeAdded(s, p, c), root, 0, 0, held);
  }

  class Machine {
    const lo: int
    const hi: int
    var freelist: seq<int>
    var mem: map<int, Page>
    ghost var node: map<Key, int>
    ghost var flat: map<Slot, Mapping>
    ghost var owner: map<int, Owner>

    ghost function State(): Vm
      reads this
    {
      Vm(lo, hi, freelist, mem, node, flat, owner)
    }

    ghost predicate Valid()
      reads this
    {
      Inv(State(), NOTHING)
    }

    /** kinit: every page from lo up to hi is pushed onto the empty free list. */
    constructor (first: int, limit: int)
      requires 0 < first <= limit
      ensures Valid() && lo == first && hi == limit && node == map[] && flat == map[]
      ensures forall p :: p in owner <==> first <= p < limit
      ensures forall p :: p in owner ==> owner[p] == Free
    {
      lo, hi := first, limit;
      freelist, mem := [], map[];
      node, flat, owner := map[], map[], map[];
      new;
      var p := lo;
      while p + 1 <= hi
        invariant lo <= p <= hi && node == map[] && flat == map[]
        invariant FreeInv(freelist, owner)
        invariant forall q :: q in owner <==> lo <= q < p
        invariant forall q :: q in owner ==> owner[q] == Free && q in mem
      {
        PushNew(freelist, owner, p);
        Kfree(p);
        owner := owner[p := Free];
        p := p + 1;
      }
      AllFree(State());
    }

    /** Takes the first page off the free list, or answers 0. */
    method Kalloc(ghost root: int) returns (p: int)
      requires Valid()
      modifies `freelist, `mem, `owner
      ensures Valid() && (p == 0 <==> old(freelist) == [])
      ensures p == 0 ==> State() == old(State())
      ensures p != 0 ==> p == old(freelist)[0] && freelist == old(freelist)[1..]
      ensures p != 0 ==>
                p in owner && owner[p] == Held && p !in old(HeldOf(owner)) && HeldOf(owner) == old(HeldOf(owner)) + {p}
      ensures Frame(old(State()), State(), root, 0, 0, old(HeldOf(owner)))
    {
      hide Inv, FreeInv, Frame, HeldOf;
      if |freelist| == 0 {
        FrameNone(State(), root, NOTHING);
        return 0;
      }
      PoppedInv(State(), NOTHING);
      PoppedFrame(State(), root);
      p := freelist[0];
      freelist, mem, owner := freelist[1..], mem[p := Junk], owner[p := Held];
    }

    /** Pushes a page onto the free list; the source panics outside the managed range. */
    method Kfree(p: int)
      requires lo <= p < hi
      modifies `freelist, `mem
      ensures freelist == [p] + old(freelist) && mem == old(mem)[p := Junk]
    {
      mem := mem[p := Junk];
      freelist := [p] + freelist;
    }

    /**
     The page and index of the bottom entry for va, creating missing nodes when
     asked.  It fails exactly when more nodes are missing than it may allocate.
     */
    method Walk(root: int, va: nat, alloc: bool) returns (page: int, idx: nat)
      requires Valid() && Key(root, 2, 0) in node && va / PGSIZE < MAX_VPN
      modifies this
      ensures Valid() && flat == old(flat) && HeldOf(owner) == old(HeldOf(owner))
      ensures idx == va / PGSIZE % ENTRIES
      ensures page == 0 <==> (if alloc then |old(freelist)| else 0) < Need(old(node), Slot(root, va / PGSIZE), 2)
      ensures page != 0 ==> NodeOf(Slot(root, va / PGSIZE)) in node && node[NodeOf(Slot(root, va / PGSIZE))] == page
      ensures page != 0 ==> Taken(old(State()), State(), root, va / PGSIZE, va / PGSIZE + 1, 0)
      ensures !alloc ==> State() == old(State())
      ensures Key(root, 2, 0) in node
      ensures Frame(old(State()), State(), root, 0, 0, old(HeldOf(owner)))
    {
      hide Inv, FreeInv, Frame, HeldOf, KeyAt, Need, Up, Px, PathNodes, PathFrom, Taken;
      ghost var sl := Slot(root, va / PGSIZE);
      ghost var held := HeldOf(owner);
      ghost var s0 := State();
      FrameNone(State(), root, NOTHING);
      WalkStart(State(), root, va);
      PathMore(node.Keys, sl, 2);
      var level := 2;
      page := root;
      idx := Px(0, va);
      while level > 0
        invariant 0 <= level <= 2
        invariant Valid() && flat == old(flat) && HeldOf(owner) == held
        invariant Frame(s0, State(), root, 0, 0, held)
        invariant KeyAt(sl, level) in node && node[KeyAt(sl, level)] == page
        invariant Key(root, 2, 0) in node && node.Keys == s0.node.Keys + PathFrom(sl, level)
        invariant !alloc ==> State() == s0
        invariant |s0.free| - |freelist| + Need(node, sl, level) == Need(s0.node, sl, 2) && |freelist| <= |s0.free|
      {
        ghost var c := KeyAt(sl, level - 1);
        WalkStep(State(), sl, va, level);
        var pte := mem[page].ptes[Px(level, va)];
        if pte.v {
          page := pte.ppn;
        } else {
          if !alloc {
            page := 0;
            return;
          }
          ghost var s1 := State();
          var p := Kalloc(root);
          if p == 0 {
            page := 0;
            return;
          }
          FrameChain(s0, s1, State(), root, 0, 0, held);
          NodeGrows(s0, State(), root, p, c, held);
          NeedSame(node, sl, level - 1, c, p);
          mem := mem[p := Table(Zeroed())];
          mem := WithEntry(mem, page, Px(level, va), Pte(p, true, NO_PERM));
          node, owner := node[c := p], owner[p := Node(c)];
          page := p;
        }
        PathMore(s0.node.Keys, sl, level);
        level := level - 1;
      }
      WalkEnd(s0, State(), sl);
    }

    /**
     Maps the virtual pages that va .. va + size touches to consecutive physical
     pages.  The caller gives unmapped pages (the source panics on others) and, when
     the mapping is to own its page, one held page.  If a node cannot be
     allocated the pages mapped so far, n of them, stay mapped: as many as there are free pages
     for the nodes their paths lack.
     */
    method MapPages(root: int, va: nat, size: nat, pa: nat, perm: Perm, ghost owned: bool)
        returns (ok: bool, ghost n: nat)
      requires Valid() && Key(root, 2, 0) in node && 0 < size && (va + size - 1) / PGSIZE < MAX_VPN
      requires perm.Leafy() && (perm.u ==> owned)
      requires forall vpn :: va / PGSIZE <= vpn <= (va + size - 1) / PGSIZE ==> Slot(root, vpn) !in flat
      requires owned ==> va / PGSIZE == (va + size - 1) / PGSIZE
      requires owned ==> pa / PGSIZE in owner && owner[pa / PGSIZE] == Held && IsData(mem, pa / PGSIZE)
      modifies this
      ensures Valid() && Key(root, 2, 0) in node
      ensures var count := (va + size - 1) / PGSIZE - va / PGSIZE + 1; n <= count && (ok <==> n == count)
      ensures Enough(old(State()), root, va / PGSIZE, va / PGSIZE + n, 0)
      ensures !ok ==> !Enough(old(State()), root, va / PGSIZE, va / PGSIZE + n + 1, 0)
      ensures ok ==> Taken(old(State()), State(), root, va / PGSIZE, va / PGSIZE + n, 0)
      ensures flat == MapRange(old(flat), root, va / PGSIZE, pa / PGSIZE, n, perm, owned)
      ensures HeldOf(owner) == old(HeldOf(owner)) - Given(pa / PGSIZE, n, owned)
      ensures Frame(old(State()), State(), root, va / PGSIZE, va / PGSIZE + n, HeldOf(owner))
      ensures owned ==> pa / PGSIZE in mem && mem[pa / PGSIZE] == old(mem)[pa / PGSIZE]
    {
      hide Inv, FreeInv, Frame, HeldOf, Need, Up, IsData, MapRange, Missing, PathNodes, Taken, Enough;
      ghost var first, count := va / PGSIZE, (va + size - 1) / PGSIZE - va / PGSIZE + 1;
      ghost var s0, held := State(), HeldOf(owner);
      ghost var ppn := pa / PGSIZE;
      MapStart(s0, root, first, ppn, perm, owned);
      TakenNone(s0, root, first);
      var a, last, q := va / PGSIZE, (va + size - 1) / PGSIZE, pa / PGSIZE;
      n := 0;
      while true
        invariant Valid() && Key(root, 2, 0) in node
        invariant n < count && a == first + n && q == ppn + n
        invariant flat == MapRange(s0.flat, root, first, ppn, n, perm, owned)
        invariant HeldOf(owner) == held
        invariant Frame(s0, State(), root, first, first + n, held)
        invariant Taken(s0, State(), root, first, first + n, 0)
        decreases count - n
      {
        ghost var s1 := State();
        NeedTaken(s0, s1, root, first, a);
        var page, idx := Walk(root, a * PGSIZE, true);
        MapWalked(s0, s1, State(), root, first, n, held);
        if page == 0 {
          if owned {
            KeptHeld(s0, State(), root, first, first + n, held, ppn);
          }
          return false, n;
        }
        TakenChain(s0, s1, State(), root, first, a, a + 1, 0, 0);
        ghost var sl, m := Slot(root, a), Mapping(q, perm, owned);
        MapOne(s0, State(), sl, m, first, ppn, n, held);
        TakenSame(s0, State(), Mapped(State(), sl, m), root, first, first + n + 1, 0);
        assert !mem[page].ptes[idx].v;
        mem := WithEntry(mem, page, idx, Pte(q, true, perm));
        flat := flat[sl := m];
        owner := if owned then owner[q := Leaf(sl)] else owner;
        n := n + 1;
        if a == last {
          break;
        }
        a, q := a + 1, q + 1;
      }
      ok := true;
    }

    /** The physical page of a user-accessible virtual address, or 0. */
    method WalkAddr(root: int, va: nat) returns (ppn: int)
      requires Valid() && Key(root, 2, 0) in node
      modifies this
      ensures State() == old(State())
      ensures ppn == UserPage(flat, root, va)
      ensures ppn != 0 ==> IsData(mem, ppn)
    {
      hide Inv, FreeInv, Frame, HeldOf, Need, Up;
      if va / PGSIZE >= MAX_VPN {
        return 0;
      }
      var page, idx := Walk(root, va, false);
      UserEntry(State(), Slot(root, va / PGSIZE));
      if page == 0 {
        return 0;
      }
      var pte := mem[page].ptes[idx];
      if !pte.v {
        return 0;
      }
      if !pte.perm.u {
        return 0;
      }
      return pte.ppn;
    }

    /**
     Removes npages mappings from va on, freeing their pages when asked.  Not ok is the panic,
     at the first page that is not mapped; the n pages before it are gone by then.
     */
    method UvmUnmap(root: int, va: nat, npages: nat, doFree: bool) returns (ok: bool, ghost n: nat)
      requires Valid() && Key(root, 2, 0) in node
      requires forall vpn :: va / PGSIZE <= vpn < va / PGSIZE + npages && Slot(root, vpn) in flat ==>
                 flat[Slot(root, vpn)].owned == doFree
      modifies this
      ensures Valid() && node == old(node) && HeldOf(owner) == old(HeldOf(owner))
      ensures ok <==> va % PGSIZE == 0 && forall vpn :: va / PGSIZE <= vpn < va / PGSIZE + npages ==>
                IsMapped(old(flat), root, vpn)
      ensures n <= npages && (ok ==> n == npages)
      ensures !ok && va % PGSIZE == 0 ==> n < npages && !IsMapped(old(flat), root, va / PGSIZE + n)
      ensures forall vpn :: va / PGSIZE <= vpn < va / PGSIZE + n ==>
                Slot(root, vpn) in old(flat) && Slot(root, vpn) !in flat
      ensures Frame(old(State()), State(), root, va / PGSIZE, va / PGSIZE + n, HeldOf(owner))
      ensures !doFree ==> owner == old(owner)
    {
      hide Inv, FreeInv, Frame, HeldOf, Need, Up, PathNodes, Taken;
      ghost var first := va / PGSIZE;
      ghost var s0, held := State(), HeldOf(owner);
      MapStart(s0, root, first, 0, NO_PERM, doFree);
      n := 0;
      if va % PGSIZE != 0 {
        return false, n;
      }
      var a := va / PGSIZE;
      while a < va / PGSIZE + npages
        invariant first <= a <= first + npages && n == a - first
        invariant Valid() && node == old(node) && HeldOf(owner) == held && (!doFree ==> owner == old(owner))
        invariant forall vpn :: first <= vpn < a ==> IsMapped(old(flat), root, vpn) && Slot(root, vpn) !in flat
        invariant forall vpn :: a <= vpn < first + npages ==>
                    var sl := Slot(root, vpn);
                    (sl in flat <==> sl in old(flat)) && (sl in flat ==> flat[sl].owned == doFree)
        invariant Frame(s0, State(), root, first, a, held)
      {
        ghost var sl := Slot(root, a);
        UserEntry(State(), sl);
        if a >= MAX_VPN {
          assert !IsMapped(old(flat), root, a);
          return false, n;
        }
        var page, idx := Walk(root, a * PGSIZE, false);
        if page == 0 {
          assert !IsMapped(old(flat), root, a);
          return false, n;
        }
        var pte := mem[page].ptes[idx];
        if !pte.v {
          assert !IsMapped(old(flat), root, a);
          return false, n;
        }
        assert pte.perm.Leafy();
        FrameWider(s0, State(), root, first, a, held, first, first + (n + 1), held);
        UnmapOne(s0, State(), sl, doFree, first, n + 1, held);
        if doFree {
          Kfree(pte.ppn);
          owner := owner[pte.ppn := Free];
        }
        mem := WithEntry(mem, page, idx, ZERO_PTE);
        flat := flat - {sl};
        a, n := a + 1, n + 1;
      }
      ok := true;
    }

    /**
     One round of uvmalloc or uvmcopy: a page from the allocator, filled, mapped at
     vpn and owned by that mapping; if either allocation fails the page goes back.  It succeeds
     exactly when a page is left for the contents and one for each missing node.
     */
    method NewPage(root: int, vpn: nat, bytes: seq<bv8>, perm: Perm) returns (ok: bool)
      requires Valid() && Key(root, 2, 0) in node && vpn < MAX_VPN && Slot(root, vpn) !in flat
      requires |bytes| == PGSIZE && perm.Leafy()
      modifies this
      ensures Valid() && Key(root, 2, 0) in node && HeldOf(owner) == old(HeldOf(owner))
      ensures ok <==> Enough(old(State()), root, vpn, vpn + 1, 1)
      ensures ok ==> Taken(old(State()), State(), root, vpn, vpn + 1, 1)
      ensures ok ==> Holds(State(), Slot(root, vpn), perm, bytes)
      ensures Frame(old(State()), State(), root, vpn, if ok then vpn + 1 else vpn, HeldOf(owner))
    {
      hide Inv, FreeInv, Frame, HeldOf, MapRange, IsData, Given, Missing, PathNodes;
      ghost var s0, held := State(), HeldOf(owner);
      MapStart(s0, root, vpn, 0, perm, true);
      var p := Kalloc(root);
      if p == 0 {
        return false;
      }
      ghost var s1 := State();
      PageFilled(s0, s1, root, p, bytes, held);
      mem := mem[p := Data(bytes)];
      ghost var s2 := State();
      ghost var n;
      ok, n := MapPages(root, vpn * PGSIZE, PGSIZE, p * PGSIZE, perm, true);
      assert ok ==> n == 1;
      assert !ok ==> n == 0;
      PageMapped(s0, s2, State(), root, vpn, p, bytes, perm, n, held);
      if !ok {
        Kfree(p);
        owner := owner[p := Free];
      }
    }

    /**
     Shrinks a table from oldsz to newsz bytes: the whole pages above newsz go back to the
     allocator.  Not ok is the panic: oldsz is above the mapped pages.
     */
    method UvmDealloc(root: int, oldsz: nat, newsz: nat) returns (ok: bool, sz: nat)
      requires Valid() && Key(root, 2, 0) in node && Pages(oldsz) < INT_LIMIT
      requires forall vpn :: Pages(newsz) <= vpn < Pages(oldsz) && Slot(root, vpn) in flat ==>
                 flat[Slot(root, vpn)].owned
      modifies this
      ensures Valid() && node == old(node) && HeldOf(owner) == old(HeldOf(owner))
      ensures ok <==> forall vpn :: Pages(newsz) <= vpn < Pages(oldsz) ==> IsMapped(old(flat), root, vpn)
      ensures sz == if newsz < oldsz then newsz else oldsz
      ensures ok ==> forall vpn :: Pages(newsz) <= vpn < Pages(oldsz) ==> Slot(root, vpn) !in flat
      ensures Frame(old(State()), State(), root, Pages(newsz), Pages(oldsz), HeldOf(owner))
    {
      hide Inv, FreeInv, Frame, HeldOf;
      MapStart(State(), root, Pages(newsz), 0, NO_PERM, true);
      FrameWider(State(), State(), root, Pages(newsz), Pages(newsz), HeldOf(owner), Pages(newsz), Pages(oldsz),
          HeldOf(owner));
      if newsz >= oldsz {
        return true, oldsz;
      }
      ok := true;
      if Pages(newsz) < Pages(oldsz) {
        ghost var s0, n := State(), 0;
        ok, n := UvmUnmap(root, Pages(newsz) * PGSIZE, Pages(oldsz) - Pages(newsz), true);
        FrameWider(s0, State(), root, Pages(newsz), Pages(newsz) + n, HeldOf(owner), Pages(newsz), Pages(oldsz),
            HeldOf(owner));
      }
      sz := newsz;
    }

    /**
     Grows a table from oldsz to newsz bytes with zeroed user pages.  Either every
     new page is there or no mapping of any table differs; the latter exactly when the free
     pages do not suffice for the new pages and the nodes their paths lack.
     */
    method UvmAlloc(root: int, oldsz: nat, newsz: nat) returns (sz: nat)
      requires Valid() && Key(root, 2, 0) in node && Pages(newsz) <= MAX_VPN
      requires forall vpn :: Pages(oldsz) <= vpn < Pages(newsz) ==> Slot(root, vpn) !in flat
      modifies this
      ensures Valid() && Key(root, 2, 0) in node && HeldOf(owner) == old(HeldOf(owner))
      ensures newsz < oldsz ==> sz == oldsz && State() == old(State())
      ensures oldsz <= newsz ==>
                sz == if Enough(old(State()), root, Pages(oldsz), Pages(newsz), Pages(newsz) - Pages(oldsz))
                    then newsz else 0
      ensures oldsz <= newsz == sz ==> Frame(old(State()), State(), root, Pages(oldsz), Pages(newsz), HeldOf(owner))
      ensures oldsz <= newsz == sz ==> forall vpn :: Pages(oldsz) <= vpn < Pages(newsz) ==>
                Holds(State(), Slot(root, vpn), USER, ZeroBytes())
      ensures oldsz <= newsz != sz ==> Frame(old(State()), State(), root, 0, 0, HeldOf(owner))
    {
      hide Inv, FreeInv, Frame, HeldOf, Holds, Missing, PathNodes, Enough, Taken;
      if newsz < oldsz {
        return oldsz;
      }
      ghost var s0, held, first := State(), HeldOf(owner), Pages(oldsz);
      MapStart(s0, root, first, 0, NO_PERM, true);
      TakenNone(s0, root, first);
      var a := Pages(oldsz);
      while a * PGSIZE < newsz
        invariant first <= a <= Pages(newsz) && Taken(s0, State(), root, first, a, a - first)
        invariant Valid() && Key(root, 2, 0) in node && HeldOf(owner) == held
        invariant Frame(s0, State(), root, first, a, held)
        invariant forall vpn :: first <= vpn < a ==> Holds(State(), Slot(root, vpn), USER, ZeroBytes())
        invariant forall vpn :: a <= vpn < Pages(newsz) ==> Slot(root, vpn) !in flat
        decreases newsz - a * PGSIZE
      {
        ghost var s1 := State();
        var ok := NewPage(root, a, ZeroBytes(), USER);
        TakenNext(s0, s1, State(), root, first, a, ok, Pages(newsz));
        GrewByOne(s0, s1, State(), root, first, a, ok, held, USER, ZeroBytes(), Pages(newsz));
        if !ok {
          HeldSlots(State(), root, first, a, USER, ZeroBytes());
          ghost var s2 := State();
          var _, _ := UvmDealloc(root, a * PGSIZE, Pages(oldsz) * PGSIZE);
          FrameChain(s0, s2, State(), root, first, a, held);
          FrameRestored(s0, State(), root, first, a, held);
          return 0;
        }
        a := a + 1;
      }
      TakenAll(s0, State(), root, first, a, a - first);
      return newsz;
    }

    /**
     Copies the first sz bytes of one table's memory into another: fresh pages with
     the same contents and permissions, or no mapping of any table differs; the former exactly
     when the free pages suffice for the copies and the nodes their paths lack.
     */
    method UvmCopy(from: int, to: int, sz: nat) returns (ok: bool)
      requires Valid() && Key(from, 2, 0) in node && Key(to, 2, 0) in node && from != to && Pages(sz) <= MAX_VPN
      requires forall vpn :: 0 <= vpn < Pages(sz) ==> Slot(from, vpn) in flat && flat[Slot(from, vpn)].owned
      requires forall vpn :: 0 <= vpn < Pages(sz) ==> Slot(to, vpn) !in flat
      modifies this
      ensures Valid() && Key(to, 2, 0) in node && Key(from, 2, 0) in node && HeldOf(owner) == old(HeldOf(owner))
      ensures ok <==> Enough(old(State()), to, 0, Pages(sz), Pages(sz))
      ensures ok ==> Frame(old(State()), State(), to, 0, Pages(sz), HeldOf(owner))
      ensures ok ==> forall vpn :: 0 <= vpn < Pages(sz) ==> Copied(State(), Slot(from, vpn), Slot(to, vpn))
      ensures !ok ==> Frame(old(State()), State(), to, 0, 0, HeldOf(owner))
    {
      hide Inv, FreeInv, Frame, HeldOf, Holds, Need, Missing, PathNodes, Enough, Taken;
      ghost var s0, held := State(), HeldOf(owner);
      FrameNone(s0, to, NOTHING);
      TakenNone(s0, to, 0);
      var i := 0;
      while i * PGSIZE < sz
        invariant 0 <= i <= Pages(sz) && Taken(s0, State(), to, 0, i, i)
        invariant Valid() && Key(to, 2, 0) in node && Key(from, 2, 0) in node && HeldOf(owner) == held
        invariant Frame(s0, State(), to, 0, i, held)
        invariant forall vpn :: 0 <= vpn < i ==> Copied(State(), Slot(from, vpn), Slot(to, vpn))
        invariant forall vpn :: i <= vpn < Pages(sz) ==> Slot(to, vpn) !in flat
        invariant forall vpn :: 0 <= vpn < Pages(sz) ==> Slot(from, vpn) in flat && flat[Slot(from, vpn)].owned
        decreases sz - i * PGSIZE
      {
        ghost var s1 := State();
        UserEntry(s1, Slot(from, i));
        var page, idx := Walk(from, i * PGSIZE, false);
        assert page != 0;
        var pte := mem[page].ptes[idx];
        assert pte.v;
        ok := NewPage(to, i, mem[pte.ppn].bytes, pte.perm);
        CopiedOne(s0, s1, State(), from, to, i, ok, held, Pages(sz));
        TakenNext(s0, s1, State(), to, 0, i, ok, Pages(sz));
        if !ok {
          CopiedSlots(State(), from, to, i);
          ghost var s2 := State();
          var _, _ := UvmUnmap(to, 0, i, true);
          FrameChain(s0, s2, State(), to, 0, i, held);
          FrameRestored(s0, State(), to, 0, i, held);
          OtherRoot(s0, State(), to, 0, 0, held, Key(from, 2, 0));
          return false;
        }
        i := i + 1;
      }
      TakenAll(s0, State(), to, 0, i, i);
      ok := true;
    }

    /**
     Frees the page of node k and of every node below it.  No mapping of the table
     is left, so the source's leaf panic is not reached.
     */
    method FreeWalk(page: int, ghost k: Key)
      requires Valid() && k in node && node[k] == page
      requires forall sl :: sl in flat ==> sl.root != k.root
      modifies this
      ensures Inv(State(), k) && flat == old(flat) && HeldOf(owner) == old(HeldOf(owner))
      ensures forall j :: Under(j, k) ==> j !in node
      ensures forall j :: !Under(j, k) ==> SameNode(old(State()), State(), j)
      ensures Frame(old(State()), State(), k.root, 0, 0, HeldOf(owner))
      decreases if 0 <= k.level then k.level else 0
    {
      hide Inv, FreeInv, Frame, HeldOf, Up, Under, Freeing, SameNode;
      ghost var s0, held := State(), HeldOf(owner);
      FreeStart(s0, k);
      var i := 0;
      while i < 512
        invariant 0 <= i <= 512 && Freeing(s0, State(), k, i, held)
      {
        ghost var c := Child(k, i);
        ghost var s1 := State();
        FreeEntry(s0, s1, k, c, i, held);
        var pte := mem[page].ptes[i];
        assert pte.v ==> !pte.perm.Leafy();
        if pte.v && !pte.perm.Leafy() {
          FreeWalk(pte.ppn, c);
          FreeChild(s0, s1, State(), k, c, i, held);
          mem := WithEntry(mem, page, i, ZERO_PTE);
        }
        i := i + 1;
      }
      FreeSelf(s0, State(), k, held);
      Kfree(page);
      node, owner := node - {k}, owner[page := Free];
    }

    /**
     Frees a table and the memory it maps, which is the first sz bytes and nothing
     else: each of its pages goes back to the free list once.
     */
    method UvmFree(root: int, sz: nat)
      requires Valid() && Key(root, 2, 0) in node && Pages(sz) <= MAX_VPN
      requires forall vpn :: 0 <= vpn < Pages(sz) ==> Slot(root, vpn) in flat && flat[Slot(root, vpn)].owned
      requires forall sl :: sl in flat && sl.root == root ==> 0 <= sl.vpn < Pages(sz)
      modifies this
      ensures Valid() && HeldOf(owner) == old(HeldOf(owner))
      ensures (forall k :: k in node ==> k.root != root) && (forall sl :: sl in flat ==> sl.root != root)
      ensures Frame(old(State()), State(), root, 0, Pages(sz), HeldOf(owner))
      ensures Returned(old(State()), State(), root)
    {
      hide Inv, FreeInv, Frame, HeldOf, Under;
      ghost var s0, held := State(), HeldOf(owner);
      FrameNone(s0, root, NOTHING);
      FrameWider(s0, s0, root, 0, 0, held, 0, Pages(sz), held);
      if sz > 0 {
        var _, _ := UvmUnmap(root, 0, Pages(sz), true);
      }
      ghost var s1 := State();
      NoneLeft(s0, s1, root, Pages(sz), held);
      FreeWalk(root, Key(root, 2, 0));
      Emptied(s0, s1, State(), root, Pages(sz), held);
    }

    /**
     A process's empty table: the trampoline and trapframe pages mapped at the top,
     neither for the user.  With fewer than three free pages, which its nodes take, nothing is left of it.
     */
    method ProcPagetable(trampoline: nat, trapframe: nat) returns (root: int)
      requires Valid()
      modifies this
      ensures Valid() && HeldOf(owner) == old(HeldOf(owner))
      ensures root == 0 <==> |old(freelist)| < 3
      ensures root == 0 ==>
                (forall sl :: SameSlot(old(State()), State(), sl)) && (forall k :: SameNode(old(State()), State(), k))
      ensures root != 0 ==> Key(root, 2, 0) in node && forall k :: k in old(node) ==> k.root != root
      ensures root != 0 ==> OnlySystemPages(flat, root, trampoline, trapframe)
      ensures root != 0 ==> Frame(old(State()), State(), root, TRAPFRAME, TRAMPOLINE + 1, HeldOf(owner))
    {
      hide Inv, FreeInv, Frame, HeldOf, MapRange, OnlySystemPages, Missing, PathNodes;
      ghost var s0, held := State(), HeldOf(owner);
      root := UvmCreate();
      if root == 0 {
        Unchanged(s0, State(), root, held);
        return;
      }
      ghost var s1 := State();
      ghost var n;
      var ok;
      TopPages(s1.flat, root, trampoline, trapframe);
      ok, n := MapPages(root, TRAMPOLINE * PGSIZE, PGSIZE, trampoline * PGSIZE, Perm(true, false, true, false), false);
      ghost var s2 := State();
      assert HeldOf(owner) == held;
      FirstMapped(s0, s1, s2, root, trampoline, n, held);
      if !ok {
        TopNodes(s1.node, root);
        UvmFree(root, 0);
        Undone(s0, s2, State(), root, held);
        return 0;
      }
      SystemNodes(s1.node, s2.node, root);
      ok, n := MapPages(root, TRAPFRAME * PGSIZE, PGSIZE, trapframe * PGSIZE, Perm(true, true, false, false), false);
      ghost var s3 := State();
      assert HeldOf(owner) == held;
      SecondMapped(s0, s2, s3, root, trampoline, trapframe, n, held);
      if !ok {
        var _, _ := UvmUnmap(root, TRAMPOLINE * PGSIZE, 1, false);
        ghost var s4 := State();
        LastUnmapped(s0, s3, s4, root, held);
        UvmFree(root, 0);
        Undone(s0, s4, State(), root, held);
        return 0;
      }
    }

    /**
     Undoes proc_pagetable and everything mapped since: all of the table's pages return, the two
     system pages stay.
     */
    method ProcFreePagetable(root: int, sz: nat)
      requires Valid() && Key(root, 2, 0) in node && Pages(sz) <= TRAPFRAME
      requires forall vpn :: 0 <= vpn < Pages(sz) ==> Slot(root, vpn) in flat && flat[Slot(root, vpn)].owned
      requires forall vpn :: TRAPFRAME <= vpn <= TRAMPOLINE ==> Slot(root, vpn) in flat && !flat[Slot(root, vpn)].owned
      requires forall sl :: sl in flat && sl.root == root ==>
                 0 <= sl.vpn < Pages(sz) || TRAPFRAME <= sl.vpn <= TRAMPOLINE
      modifies this
      ensures Valid() && HeldOf(owner) == old(HeldOf(owner))
      ensures (forall k :: k in node ==> k.root != root) && (forall sl :: sl in flat ==> sl.root != root)
      ensures Frame(old(State()), State(), root, 0, MAX_VPN, HeldOf(owner))
      ensures Returned(old(State()), State(), root)
    {
      hide Inv, FreeInv, Frame, HeldOf;
      ghost var s0, held := State(), HeldOf(owner);
      var _, _ := UvmUnmap(root, TRAMPOLINE * PGSIZE, 1, false);
      ghost var s1 := State();
      StillThere(s0, s1, root, TRAMPOLINE, TRAMPOLINE + 1, held);
      var _, _ := UvmUnmap(root, TRAPFRAME * PGSIZE, 1, false);
      ghost var s2 := State();
      StillThere(s1, s2, root, TRAPFRAME, TRAPFRAME + 1, held);
      UvmFree(root, sz);
      FrameWider(s0, s1, root, TRAMPOLINE, TRAMPOLINE + 1, held, 0, MAX_VPN, held);
      FrameWider(s1, s2, root, TRAPFRAME, TRAPFRAME + 1, held, 0, MAX_VPN, held);
      FrameWider(s2, State(), root, 0, Pages(sz), held, 0, MAX_VPN, held);
      FrameChain(s0, s1, s2, root, 0, MAX_VPN, held);
      FrameChain(s0, s2, State(), root, 0, MAX_VPN, held);
    }

    /** An empty table, or 0 when no page is left. */
    method UvmCreate() returns (root: int)
      requires Valid()
      modifies this
      ensures Valid() && (root == 0 <==> old(freelist) == []) && flat == old(flat) &&
                HeldOf(owner) == old(HeldOf(owner))
      ensures root == 0 ==> State() == old(State())
      ensures root != 0 ==> node == old(node)[Key(root, 2, 0) := root] && |freelist| == |old(freelist)| - 1
      ensures root != 0 ==>
                (forall k :: k in old(node) ==> k.root != root) && (forall sl :: sl in flat ==> sl.root != root)
      ensures Frame(old(State()), State(), root, 0, 0, HeldOf(owner))
    {
      hide Inv, FreeInv, Frame, HeldOf, RootAdded;
      ghost var s0, held := State(), HeldOf(owner);
      FrameNone(s0, 0, NOTHING);
      root := Kalloc(if freelist == [] then 0 else freelist[0]);
      if root == 0 {
        return;
      }
      RootGrows(s0, State(), root, held);
      mem := mem[root := Table(Zeroed())];
      node, owner := node[Key(root, 2, 0) := root], owner[root := Node(Key(root, 2, 0))];
    }
  }

  /** The flat map with n consecutive virtual pages mapped to consecutive physical ones. */
  function MapRange(flat: map<Slot, Mapping>, root: int, vpn: int, ppn: int, n: nat, perm: Perm,
      owned: bool): map<Slot, Mapping> {
    if n == 0 then flat
    else MapRange(flat, root, vpn, ppn, n - 1, perm,
        owned)[Slot(root, vpn + n - 1) := Mapping(ppn + n - 1, perm, owned)]
  }

  lemma {:induction false} MapRangeAt(flat: map<Slot, Mapping>, root: int, vpn: int, ppn: int, n: nat, perm: Perm,
      owned: bool, sl: Slot)
    ensures var f := MapRange(flat, root, vpn, ppn, n, perm, owned);
            var added := sl.root == root && vpn <= sl.vpn < vpn + n;
            && (sl in f <==> sl in flat || added)
            && (sl in f ==> f[sl] == if added then Mapping(ppn + (sl.vpn - vpn), perm, owned) else flat[sl])
  {
    if n > 0 {
      MapRangeAt(flat, root, vpn, ppn, n - 1, perm, owned, sl);
    }
  }

  ghost function Given(ppn: int, n: nat, owned: bool): set<int> {
    if owned && n == 1 then {ppn} else {}
  }

  function Pages(bytes: nat): nat {
    (bytes + PGSIZE - 1) / PGSIZE
  }

  function ZeroBytes(): (b: seq<bv8>)
    ensures |b| == PGSIZE
  {
    seq(PGSIZE, i => 0)
  }

  /** A virtual page owns a page with these contents. */
  predicate Holds(s: Vm, sl: Slot, perm: Perm, bytes: seq<bv8>) {
    && sl in s.flat && s.flat[sl].perm == perm && s.flat[sl].owned
    && s.flat[sl].ppn in s.mem && s.mem[s.flat[sl].ppn] == Data(bytes)
  }

  lemma {:induction false} PageFilled(s0: Vm, s: Vm, root: int, p: int, bytes: seq<bv8>, held: set<int>)
    requires Inv(s, NOTHING) && p in s.owner && s.owner[p] == Held && HeldOf(s.owner) == held + {p} && p !in held
    requires Frame(s0, s, root, 0, 0, held) && |bytes| == PGSIZE
    ensures var s' := s.(mem := s.mem[p := Data(bytes)]);
            Inv(s', NOTHING) && Frame(s0, s', root, 0, 0, held) && IsData(s'.mem, p) && 0 < p
  {
    hide Inv, Frame;
    FilledInv(s, p, Data(bytes), root);
    Unused(s, NOTHING, p);
    assert HeldOf(s.owner) - {p} == held;
    FrameChain(s0, s, s.(mem := s.mem[p := Data(bytes)]), root, 0, 0, held);
  }

  /** After mappages: the page is mapped, or it is still held and can go back. */
  lemma {:induction false} PageMapped(s0: Vm, s: Vm, s': Vm, root: int, vpn: nat, p: int, bytes: seq<bv8>,
      perm: Perm, n: nat, held: set<int>)
    requires Frame(s0, s, root, 0, 0, held) && HeldOf(s.owner) == held + {p} && p !in held && n <= 1
    requires Inv(s', NOTHING) && Frame(s, s', root, vpn, vpn + n, HeldOf(s'.owner)) &&
               HeldOf(s'.owner) == HeldOf(s.owner) - Given(p, n, true)
    requires s'.flat == MapRange(s.flat, root, vpn, p, n, perm, true)
    requires p in s.mem && s.mem[p] == Data(bytes) && p in s'.mem && s'.mem[p] == s.mem[p]
    ensures n == 1 ==> Frame(s0, s', root, vpn, vpn + 1, held) && HeldOf(s'.owner) == held
    ensures n == 1 ==> Holds(s', Slot(root, vpn), perm, bytes)
    ensures n == 0 ==> s'.lo <= p < s'.hi && Inv(Released(s', p), NOTHING)
    ensures n == 0 ==> Frame(s0, Released(s', p), root, vpn, vpn, held) && HeldOf(Released(s', p).owner) == held
  {
    hide Inv, Frame;
    if n == 1 {
      assert HeldOf(s'.owner) == held;
      FrameWider(s0, s, root, 0, 0, held, vpn, vpn + 1, held);
      FrameChain(s0, s, s', root, vpn, vpn + 1, held);
      MapRangeAt(s.flat, root, vpn, p, n, perm, true, Slot(root, vpn));
    } else {
      assert p in HeldOf(s'.owner);
      ReleasedInv(s', p, root);
      assert HeldOf(s'.owner) - {p} == held;
      FrameWider(s, s', root, vpn, vpn, HeldOf(s'.owner), 0, 0, held);
      FrameChain(s0, s, s', root, 0, 0, held);
      FrameChain(s0, s', Released(s', p), root, 0, 0, held);
      FrameWider(s0, Released(s', p), root, 0, 0, held, vpn, vpn, held);
    }
  }

  /** The pages already placed and those still to place are as before a round, but for the one it placed. */
  lemma {:induction false} GrewByOne(s0: Vm, s: Vm, s': Vm, root: int, first: int, a: int, ok: bool, held: set<int>,
      perm: Perm, bytes: seq<bv8>, end: int)
    requires Frame(s0, s, root, first, a, held) && first <= a && Frame(s, s', root, a, if ok then a + 1 else a, held)
    requires forall vpn :: first <= vpn < a ==> Holds(s, Slot(root, vpn), perm, bytes)
    requires forall vpn :: a <= vpn < end ==> Slot(root, vpn) !in s.flat
    ensures Frame(s0, s', root, first, if ok then a + 1 else a, held)
    ensures forall vpn :: first <= vpn < a ==> Holds(s', Slot(root, vpn), perm, bytes)
    ensures forall vpn :: (if ok then a + 1 else a) <= vpn < end ==> Slot(root, vpn) !in s'.flat
  {
    hide Holds;
    var b := if ok then a + 1 else a;
    forall vpn | first <= vpn < a ensures Holds(s', Slot(root, vpn), perm, bytes) {
      assert SameSlot(s, s', Slot(root, vpn));
      HoldsStill(s, s', Slot(root, vpn), perm, bytes);
    }
    forall vpn | b <= vpn < end ensures Slot(root, vpn) !in s'.flat {
      assert SameSlot(s, s', Slot(root, vpn));
    }
    FrameWider(s0, s, root, first, a, held, first, b, held);
    FrameWider(s, s', root, a, b, held, first, b, held);
    FrameChain(s0, s, s', root, first, b, held);
  }

  /** The free pages suffice for n pages and the nodes that the paths to the virtual pages a .. b lack. */
  ghost predicate Enough(s: Vm, root: int, a: int, b: int, n: int) {
    n + |Missing(s.node, root, a, b)| <= |s.free|
  }

  /** Exactly n pages and those nodes have been taken, and the nodes are there. */
  ghost predicate Taken(s0: Vm, s: Vm, root: int, a: int, b: int, n: int) {
    && |s.free| == |s0.free| - n - |Missing(s0.node, root, a, b)|
    && s.node.Keys == s0.node.Keys + PathNodes(root, a, b)
  }

  lemma {:induction false} TakenNone(s: Vm, root: int, a: int)
    ensures Taken(s, s, root, a, a, 0)
  {
    MissingNone(s.node, root, a);
  }

  lemma {:induction false} TakenChain(s0: Vm, s: Vm, s': Vm, root: int, a: int, b: int, c: int, n: int, m: int)
    requires Taken(s0, s, root, a, b, n) && Taken(s, s', root, b, c, m) && a <= b <= c
    ensures Taken(s0, s', root, a, c, n + m)
  {
    hide Missing, PathNodes;
    MissingNext(s0.node, s.node, root, a, b, c);
  }

  lemma {:induction false} TakenSame(s0: Vm, s: Vm, s': Vm, root: int, a: int, b: int, n: int)
    requires Taken(s0, s, root, a, b, n) && s'.free == s.free && s'.node == s.node
    ensures Taken(s0, s', root, a, b, n)
  {
  }

  /** What is missing for the next page is missing for the range up to it. */
  lemma {:induction false} NeedTaken(s0: Vm, s: Vm, root: int, first: int, a: int)
    requires Taken(s0, s, root, first, a, 0) && first <= a
    ensures Enough(s0, root, first, a, 0)
    ensures Enough(s0, root, first, a + 1, 0) <==> Need(s.node, Slot(root, a), 2) <= |s.free|
  {
    hide Missing, PathNodes, Need;
    PathOne(s.node, root, a);
    MissingNext(s0.node, s.node, root, first, a, a + 1);
  }

  /** A round takes its own or fails, and then there was not enough for any range that includes it. */
  lemma {:induction false} TakenNext(s0: Vm, s: Vm, s': Vm, root: int, first: int, a: int, ok: bool, end: int)
    requires Taken(s0, s, root, first, a, a - first) && first <= a < end
    requires ok <==> Enough(s, root, a, a + 1, 1)
    requires ok ==> Taken(s, s', root, a, a + 1, 1)
    ensures ok ==> Taken(s0, s', root, first, a + 1, a + 1 - first)
    ensures !ok ==> !Enough(s0, root, first, end, end - first)
  {
    hide Missing, PathNodes;
    MissingNext(s0.node, s.node, root, first, a, a + 1);
    MissingMore(s0.node, root, first, a + 1, end);
  }

  lemma {:induction false} TakenAll(s0: Vm, s: Vm, root: int, a: int, b: int, n: int)
    requires Taken(s0, s, root, a, b, n)
    ensures Enough(s0, root, a, b, n)
  {
  }

  lemma {:induction false} HoldsStill(s: Vm, s': Vm, sl: Slot, perm: Perm, bytes: seq<bv8>)
    requires SameSlot(s, s', sl) && Holds(s, sl, perm, bytes)
    ensures Holds(s', sl, perm, bytes)
  {
  }

  lemma {:induction false} HeldSlots(s: Vm, root: int, first: int, a: int, perm: Perm, bytes: seq<bv8>)
    requires forall vpn :: first <= vpn < a ==> Holds(s, Slot(root, vpn), perm, bytes)
    ensures forall vpn :: first <= vpn < a ==> Slot(root, vpn) in s.flat && s.flat[Slot(root, vpn)].owned
  {
    forall vpn | first <= vpn < a ensures Slot(root, vpn) in s.flat && s.flat[Slot(root, vpn)].owned {
      assert Holds(s, Slot(root, vpn), perm, bytes);
    }
  }

  /** What was mapped in between and unmapped again leaves no trace. */
  lemma {:induction false} FrameRestored(s0: Vm, s: Vm, root: int, a: int, b: int, held: set<int>)
    requires Frame(s0, s, root, a, b, held)
    requires forall vpn :: a <= vpn < b ==> Slot(root, vpn) !in s0.flat
    requires forall vpn :: a <= vpn < b ==> Slot(root, vpn) !in s.flat
    ensures Frame(s0, s, root, 0, 0, held)
  {
    forall sl: Slot ensures SameSlot(s0, s, sl) {
      assert sl == Slot(sl.root, sl.vpn);
      if sl.root == root && a <= sl.vpn < b {
        assert Slot(root, sl.vpn) !in s0.flat && Slot(root, sl.vpn) !in s.flat;
      } else {
        assert SameSlot(s0, s, sl);
      }
    }
  }

  /** Node j is node k or lies below it. */
  ghost predicate Under(j: Key, k: Key)
    decreases k.level - j.level
  {
    j == k || (j.root == k.root && j.level < k.level && Under(Up(j), k))
  }

  lemma {:induction false} UnderSelf(k: Key)
    ensures Under(k, k)
  {
  }

  lemma {:induction false} UnderChild(j: Key, c: Key)
    requires Under(j, c)
    ensures Under(j, Up(c)) && j.root == c.root && j.level <= c.level && j != Up(c)
    decreases c.level - j.level
  {
    if j == c {
      assert Under(Up(c), Up(c));
    } else {
      UnderChild(Up(j), c);
    }
  }

  /** freewalk at its i-th entry: the children before are gone and nothing outside node k has changed. */
  ghost predicate Freeing(s0: Vm, s: Vm, k: Key, i: nat, held: set<int>) {
    && Inv(s, NOTHING) && s.flat == s0.flat && HeldOf(s.owner) == held
    && k in s.node && k in s0.node && s.node[k] == s0.node[k]
    && (forall c: Key :: 0 <= c.level < 2 && Up(c) == k && c.prefix % ENTRIES < i ==> c !in s.node)
    && (forall j :: !Under(j, k) ==> SameNode(s0, s, j))
    && Frame(s0, s, k.root, 0, 0, held)
  }

  lemma {:induction false} FreeStart(s: Vm, k: Key)
    requires Inv(s, NOTHING) && k in s.node
    ensures Freeing(s, s, k, 0, HeldOf(s.owner)) && KeyOk(k)
  {
    FrameNone(s, k.root, NOTHING);
    assert NodeAt(s, k);
  }

  function Child(k: Key, i: nat): Key {
    Key(k.root, k.level - 1, k.prefix * ENTRIES + i)
  }

  lemma {:induction false} ChildOf(k: Key, i: nat)
    requires i < ENTRIES
    ensures Up(Child(k, i)) == k && Child(k, i).prefix % ENTRIES == i
    ensures forall d: Key :: Up(d) == k && d.prefix % ENTRIES == i ==> d == Child(k, i)
  {
  }

  /** The i-th entry of node k, whose table has no mapping, is empty or leads to a child. */
  lemma {:induction false} ChildEntry(s: Vm, k: Key, i: nat)
    requires Inv(s, NOTHING) && k in s.node && i < ENTRIES
    requires forall sl :: sl in s.flat ==> sl.root != k.root
    ensures IsTable(s.mem, s.node[k])
    ensures var c, e := Child(k, i), s.mem[s.node[k]].ptes[i];
            && (e.v ==> 0 <= c.level < 2 && c in s.node && e == Pte(s.node[c], true, NO_PERM))
            && (!e.v && 0 <= c.level < 2 ==> c !in s.node)
  {
    hide FreeInv, Up, OwnerAt;
    ChildOf(k, i);
    assert NodeAt(s, k);
    if k.level == 0 {
      var sl := Slot(k.root, k.prefix * ENTRIES + i);
      assert LeafAt(s, sl);
      assert NodeOf(sl) == k;
    } else {
      assert DirAt(s, Child(k, i), NOTHING);
    }
  }

  lemma {:induction false} FreeEntry(s0: Vm, s: Vm, k: Key, c: Key, i: nat, held: set<int>)
    requires Freeing(s0, s, k, i, held) && i < ENTRIES && c == Child(k, i)
    requires forall sl :: sl in s0.flat ==> sl.root != k.root
    ensures Inv(s, NOTHING) && s.flat == s0.flat && HeldOf(s.owner) == held
    ensures k in s.node && s.node[k] == s0.node[k] && IsTable(s.mem, s.node[k]) && Up(c) == k && c.prefix % ENTRIES == i
    ensures s.mem[s.node[k]].ptes[i].v ==>
              0 <= c.level < 2 && c in s.node && s.mem[s.node[k]].ptes[i] == Pte(s.node[c], true, NO_PERM)
    ensures !s.mem[s.node[k]].ptes[i].v ==> Freeing(s0, s, k, i + 1, held)
  {
    hide Inv, Frame, Under, SameNode, Up, Child;
    ChildEntry(s, k, i);
    ChildOf(k, i);
  }

  lemma {:induction false} FreeChild(s0: Vm, s1: Vm, s2: Vm, k: Key, c: Key, i: nat, held: set<int>)
    requires Freeing(s0, s1, k, i, held) && Inv(s2, c) && HeldOf(s2.owner) == held && s2.flat == s1.flat
    requires 0 <= c.level < 2 && Up(c) == k && c.root == k.root && c.prefix % ENTRIES == i
    requires forall j :: Under(j, c) ==> j !in s2.node
    requires forall j :: !Under(j, c) ==> SameNode(s1, s2, j)
    requires Frame(s1, s2, k.root, 0, 0, held)
    ensures k in s2.node && s2.node[k] == s0.node[k] && IsTable(s2.mem, s2.node[k])
    ensures Freeing(s0, EntryCleared(s2, c), k, i + 1, held)
  {
    hide Inv, Frame, Under;
    UnderSelf(c);
    assert !Under(k, c) by {
      if Under(k, c) {
        UnderChild(k, c);
      }
    }
    assert SameNode(s1, s2, k);
    forall j | !Under(j, k) ensures SameNode(s0, s2, j) {
      if Under(j, c) {
        UnderChild(j, c);
      }
      assert SameNode(s0, s1, j) && SameNode(s1, s2, j);
    }
    assert forall j :: j !in s1.node ==> j !in s2.node by {
      assert forall j :: SameNode(s1, s2, j) || j !in s2.node;
    }
    EntryClearedInv(s2, c);
    EntryClearedFrame(s2, c);
    FrameChain(s0, s1, s2, k.root, 0, 0, held);
    FrameChain(s0, s2, EntryCleared(s2, c), k.root, 0, 0, held);
    var s3 := EntryCleared(s2, c);
    forall d: Key | 0 <= d.level < 2 && Up(d) == k && d.prefix % ENTRIES < i + 1 ensures d !in s3.node {
      assert d.prefix % ENTRIES == i ==> d == c;
    }
    forall j | !Under(j, k) ensures SameNode(s0, s3, j) {
      assert SameNode(s0, s2, j);
    }
  }

  /** With no child left, node k has nothing below it and can be freed. */
  lemma {:induction false} FreeSelf(s0: Vm, s: Vm, k: Key, held: set<int>)
    requires Freeing(s0, s, k, 512, held)
    requires forall sl :: sl in s0.flat ==> sl.root != k.root
    ensures k in s.node && s.node[k] == s0.node[k] && s.lo <= s.node[k] < s.hi && s.flat == s0.flat
    ensures var s' := NodeRemoved(s, k);
            && Inv(s', k) && HeldOf(s'.owner) == held && Frame(s0, s', k.root, 0, 0, held)
            && (forall j :: Under(j, k) ==> j !in s'.node)
            && (forall j :: !Under(j, k) ==> SameNode(s0, s', j))
  {
    hide Inv, Frame, Under;
    NoChild(s, k);
    forall j | Under(j, k) ensures j !in NodeRemoved(s, k).node {
      if j != k {
        NothingUnder(s, j, k);
      }
    }
    UnderSelf(k);
    NodeRemovedInv(s, k);
    NodeRemovedFrame(s, k);
    FrameChain(s0, s, NodeRemoved(s, k), k.root, 0, 0, held);
    var s' := NodeRemoved(s, k);
    forall j | !Under(j, k) ensures SameNode(s0, s', j) {
      assert SameNode(s0, s, j) && j != k;
    }
  }

  lemma {:induction false} NoChild(s: Vm, k: Key)
    requires Inv(s, NOTHING) && k in s.node
    requires forall c: Key :: 0 <= c.level < 2 && Up(c) == k && c.prefix % ENTRIES < 512 ==> c !in s.node
    requires forall sl :: sl in s.flat ==> sl.root != k.root
    ensures forall c :: c in s.node && c.level < 2 ==> Up(c) != k
    ensures forall sl :: sl in s.flat ==> NodeOf(sl) != k
  {
    forall c | c in s.node && c.level < 2 ensures Up(c) != k {
      assert NodeAt(s, c);
    }
  }

  lemma {:induction false} NothingUnder(s: Vm, j: Key, k: Key)
    requires Inv(s, NOTHING) && k in s.node && Under(j, k) && j != k
    requires forall c :: c in s.node && c.level < 2 ==> Up(c) != k
    ensures j !in s.node
    decreases k.level - j.level
  {
    if j in s.node {
      assert NodeAt(s, j) && NodeAt(s, k);
      if Up(j) != k {
        NothingUnder(s, Up(j), k);
      }
      assert false;
    }
  }

  /** Two virtual pages hold the same contents with the same permissions in pages of their own. */
  predicate Copied(s: Vm, from: Slot, to: Slot) {
    && from in s.flat && s.flat[from].owned && s.flat[from].ppn in s.mem && s.mem[s.flat[from].ppn].Data?
    && Holds(s, to, s.flat[from].perm, s.mem[s.flat[from].ppn].bytes)
  }

  lemma {:induction false} CopiedOne(s0: Vm, s: Vm, s': Vm, from: int, to: int, i: nat, ok: bool, held: set<int>,
      end: int)
    requires from != to && Frame(s0, s, to, 0, i, held) && Frame(s, s', to, i, if ok then i + 1 else i, held) && i < end
    requires forall vpn :: 0 <= vpn < i ==> Copied(s, Slot(from, vpn), Slot(to, vpn))
    requires forall vpn :: i <= vpn < end ==> Slot(to, vpn) !in s.flat
    requires forall vpn :: 0 <= vpn < end ==> Slot(from, vpn) in s.flat && s.flat[Slot(from, vpn)].owned
    requires IsData(s.mem, s.flat[Slot(from, i)].ppn) && Key(from, 2, 0) in s.node
    requires ok ==> Holds(s', Slot(to, i), s.flat[Slot(from, i)].perm, s.mem[s.flat[Slot(from, i)].ppn].bytes)
    ensures Frame(s0, s', to, 0, if ok then i + 1 else i, held)
    ensures forall vpn :: 0 <= vpn < (if ok then i + 1 else i) ==> Copied(s', Slot(from, vpn), Slot(to, vpn))
    ensures forall vpn :: (if ok then i + 1 else i) <= vpn < end ==> Slot(to, vpn) !in s'.flat
    ensures forall vpn :: 0 <= vpn < end ==> Slot(from, vpn) in s'.flat && s'.flat[Slot(from, vpn)].owned
    ensures Key(from, 2, 0) in s'.node
  {
    hide Holds;
    var b := if ok then i + 1 else i;
    forall vpn | 0 <= vpn < b ensures Copied(s', Slot(from, vpn), Slot(to, vpn)) {
      assert SameSlot(s, s', Slot(from, vpn));
      if vpn < i {
        assert Copied(s, Slot(from, vpn), Slot(to, vpn));
        assert SameSlot(s, s', Slot(to, vpn));
        HoldsStill(s, s', Slot(to, vpn), s.flat[Slot(from, vpn)].perm, s.mem[s.flat[Slot(from, vpn)].ppn].bytes);
      }
    }
    forall vpn | b <= vpn < end ensures Slot(to, vpn) !in s'.flat {
      assert SameSlot(s, s', Slot(to, vpn));
    }
    forall vpn | 0 <= vpn < end ensures Slot(from, vpn) in s'.flat && s'.flat[Slot(from, vpn)].owned {
      assert SameSlot(s, s', Slot(from, vpn));
    }
    assert SameNode(s, s', Key(from, 2, 0));
    FrameWider(s0, s, to, 0, i, held, 0, b, held);
    FrameWider(s, s', to, i, b, held, 0, b, held);
    FrameChain(s0, s, s', to, 0, b, held);
  }

  lemma {:induction false} CopiedSlots(s: Vm, from: int, to: int, n: nat)
    requires forall vpn :: 0 <= vpn < n ==> Copied(s, Slot(from, vpn), Slot(to, vpn))
    ensures forall vpn :: 0 <= vpn < n ==> Slot(to, vpn) in s.flat && s.flat[Slot(to, vpn)].owned
  {
    forall vpn | 0 <= vpn < n ensures Slot(to, vpn) in s.flat && s.flat[Slot(to, vpn)].owned {
      assert Copied(s, Slot(from, vpn), Slot(to, vpn));
    }
  }

  lemma {:induction false} OtherRoot(s: Vm, s': Vm, root: int, a: int, b: int, held: set<int>, k: Key)
    requires Frame(s, s', root, a, b, held) && k.root != root
    ensures SameNode(s, s', k)
  {
  }

  const TRAMPOLINE: nat := MAX_VPN - 1
  const TRAPFRAME: nat := MAX_VPN - 2

  predicate OnlySystemPages(flat: map<Slot, Mapping>, root: int, trampoline: nat, trapframe: nat) {
    && (forall sl :: sl in flat && sl.root == root ==> sl.vpn == TRAMPOLINE || sl.vpn == TRAPFRAME)
    && Slot(root, TRAMPOLINE) in flat &&
        flat[Slot(root, TRAMPOLINE)] == Mapping(trampoline, Perm(true, false, true, false), false)
    && Slot(root, TRAPFRAME) in flat &&
        flat[Slot(root, TRAPFRAME)] == Mapping(trapframe, Perm(true, true, false, false), false)
  }

  lemma {:induction false} TopNodes(node: map<Key, int>, root: int)
    ensures |Missing(node, root, TRAMPOLINE, TRAMPOLINE + 1)| <= 2
  {
    hide KeyAt, PathNodes, Missing;
    PathOne(node, root, TRAMPOLINE);
    NeedTwo(node, Slot(root, TRAMPOLINE));
  }

  /** The two system pages lack two nodes in a new table. */
  lemma {:induction false} SystemNodes(node: map<Key, int>, node': map<Key, int>, root: int)
    requires forall k :: k in node && k.root == root ==> k.level == 2
    requires node'.Keys == node.Keys + PathNodes(root, TRAMPOLINE, TRAMPOLINE + 1)
    ensures |Missing(node, root, TRAMPOLINE, TRAMPOLINE + 1)| + |Missing(node', root, TRAPFRAME, TRAPFRAME + 1)| == 2
  {
    hide KeyAt, PathNodes, Missing, Need;
    var top, low := Slot(root, TRAMPOLINE), Slot(root, TRAPFRAME);
    PathOne(node, root, TRAMPOLINE);
    PathOne(node', root, TRAPFRAME);
    NeedTwo(node, top);
    NeedTwo(node', low);
    KeyLevel(top, 0);
    KeyLevel(top, 1);
    assert KeyAt(top, 0) == KeyAt(low, 0) && KeyAt(top, 1) == KeyAt(low, 1) by { SameNodes(root); }
  }

  lemma {:induction false} SameNodes(root: int)
    ensures var top, low := Slot(root, TRAMPOLINE), Slot(root, TRAPFRAME);
            KeyAt(top, 0) == KeyAt(low, 0) && KeyAt(top, 1) == KeyAt(low, 1)
  {
    var top, low := Slot(root, TRAMPOLINE), Slot(root, TRAPFRAME);
    assert KeyAt(top, 1) == Up(KeyAt(top, 0)) && KeyAt(low, 1) == Up(KeyAt(low, 0));
  }

  predicate BelongsTo(o: Owner, root: int) {
    (o.Node? && o.key.root == root) || (o.Leaf? && o.slot.root == root)
  }

  /** Every page of the table is free and every other page is where it was. */
  ghost predicate Returned(s: Vm, s': Vm, root: int) {
    s'.owner.Keys == s.owner.Keys
    && forall p :: p in s.owner && p in s'.owner ==>
        s'.owner[p] == if BelongsTo(s.owner[p], root) then Free else s.owner[p]
  }

  lemma {:induction false} NoneLeft(s0: Vm, s1: Vm, root: int, n: nat, held: set<int>)
    requires Inv(s1, NOTHING) && Frame(s0, s1, root, 0, n, held) && Key(root, 2, 0) in s1.node
    requires forall sl :: sl in s0.flat && sl.root == root ==> 0 <= sl.vpn < n
    requires forall vpn :: 0 <= vpn < n ==> Slot(root, vpn) !in s1.flat
    ensures forall sl :: sl in s1.flat ==> sl.root != root
    ensures s1.node[Key(root, 2, 0)] == root
  {
    forall sl | sl in s1.flat ensures sl.root != root {
      assert sl == Slot(sl.root, sl.vpn);
      assert SameSlot(s0, s1, sl) || (sl.root == root && 0 <= sl.vpn < n);
    }
    assert NodeAt(s1, Key(root, 2, 0));
  }

  lemma {:induction false} Emptied(s0: Vm, s1: Vm, s2: Vm, root: int, n: nat, held: set<int>)
    requires Inv(s0, NOTHING) && HeldOf(s0.owner) == held == HeldOf(s2.owner)
    requires Frame(s0, s1, root, 0, n, held) && Frame(s1, s2, root, 0, 0, held)
    requires Inv(s2, Key(root, 2, 0)) && (forall j :: Under(j, Key(root, 2, 0)) ==> j !in s2.node)
    requires s2.flat == s1.flat && forall sl :: sl in s1.flat ==> sl.root != root
    ensures Inv(s2, NOTHING) && (forall k :: k in s2.node ==> k.root != root)
    ensures Frame(s0, s2, root, 0, n, held) && Returned(s0, s2, root)
  {
    hide Inv, Frame, Under;
    RootStale(s2, root);
    forall k | k in s2.node ensures k.root != root {
      if k.root == root {
        BelowRoot(s2, k);
      }
    }
    FrameWider(s1, s2, root, 0, 0, held, 0, n, held);
    FrameChain(s0, s1, s2, root, 0, n, held);
    AllReturned(s0, s2, root, n, held);
  }

  lemma {:induction false} RootStale(s: Vm, root: int)
    requires Inv(s, Key(root, 2, 0))
    ensures Inv(s, NOTHING)
  {
    forall c ensures DirAt(s, c, NOTHING) {
      assert DirAt(s, c, Key(root, 2, 0));
    }
  }

  lemma {:induction false} BelowRoot(s: Vm, k: Key)
    requires Inv(s, NOTHING) && k in s.node
    ensures Under(k, Key(k.root, 2, 0))
    decreases 2 - k.level
  {
    assert NodeAt(s, k);
    if k.level < 2 {
      BelowRoot(s, Up(k));
    }
  }

  lemma {:induction false} AllReturned(s: Vm, s': Vm, root: int, n: nat, held: set<int>)
    requires Inv(s, NOTHING) && Inv(s', NOTHING) && HeldOf(s.owner) == held == HeldOf(s'.owner)
    requires Frame(s, s', root, 0, n, held)
    requires (forall k :: k in s'.node ==> k.root != root) && (forall sl :: sl in s'.flat ==> sl.root != root)
    ensures Returned(s, s', root)
  {
    forall p | p in s.owner &&
        p in s'.owner ensures s'.owner[p] == if BelongsTo(s.owner[p], root) then Free else s.owner[p] {
      PageReturned(s, s', root, n, held, p);
    }
  }

  lemma {:induction false} PageReturned(s: Vm, s': Vm, root: int, n: nat, held: set<int>, p: int)
    requires Inv(s, NOTHING) && Inv(s', NOTHING) && HeldOf(s.owner) == held == HeldOf(s'.owner)
    requires Frame(s, s', root, 0, n, held) && p in s.owner && p in s'.owner
    requires (forall k :: k in s'.node ==> k.root != root) && (forall sl :: sl in s'.flat ==> sl.root != root)
    ensures s'.owner[p] == if BelongsTo(s.owner[p], root) then Free else s.owner[p]
  {
    hide FreeInv, Entry;
    var o, o' := s.owner[p], s'.owner[p];
    assert OwnerAt(s, p) && OwnerAt(s', p);
    assert o == Held <==> o' == Held by {
      assert p in HeldOf(s.owner) <==> p in HeldOf(s'.owner);
    }
    match o' {
      case Node(k) =>
        assert NodeAt(s, k) && SameNode(s, s', k);
      case Leaf(sl) =>
        assert SameSlot(s, s', sl) && LeafAt(s, sl);
      case _ =>
    }
    match o {
      case Node(k) =>
        assert NodeAt(s', k) && (k.root != root ==> SameNode(s, s', k));
      case Leaf(sl) =>
        assert (sl.root != root ==> SameSlot(s, s', sl)) && LeafAt(s', sl);
      case _ =>
    }
  }

  lemma {:induction false} Unchanged(s: Vm, s': Vm, root: int, held: set<int>)
    requires s == s'
    ensures (forall sl :: SameSlot(s, s', sl)) && forall k :: SameNode(s, s', k)
  {
  }

  lemma {:induction false} FirstMapped(s0: Vm, s1: Vm, s2: Vm, root: int, trampoline: nat, n: nat, held: set<int>)
    requires Frame(s0, s1, root, 0, 0, held) && Frame(s1, s2, root, TRAMPOLINE, TRAMPOLINE + n, held) && n <= 1
    requires forall sl :: sl in s1.flat ==> sl.root != root
    requires s2.flat == MapRange(s1.flat, root, TRAMPOLINE, trampoline, n, Perm(true, false, true, false), false)
    ensures Frame(s0, s2, root, TRAPFRAME, TRAMPOLINE + 1, held)
    ensures n == 0 ==> forall sl :: sl in s2.flat ==> sl.root != root
    ensures n == 1 ==> Slot(root, TRAMPOLINE) in s2.flat
                       && s2.flat[Slot(root, TRAMPOLINE)] == Mapping(trampoline, Perm(true, false, true, false), false)
    ensures forall sl :: sl in s2.flat && sl.root == root ==> sl.vpn == TRAMPOLINE
  {
    hide Frame, MapRange;
    forall sl ensures sl in s2.flat && sl.root == root ==> n == 1 && sl.vpn == TRAMPOLINE {
      MapRangeAt(s1.flat, root, TRAMPOLINE, trampoline, n, Perm(true, false, true, false), false, sl);
    }
    MapRangeAt(s1.flat, root, TRAMPOLINE, trampoline, n, Perm(true, false, true, false), false, Slot(root, TRAMPOLINE));
    FrameWider(s0, s1, root, 0, 0, held, TRAPFRAME, TRAMPOLINE + 1, held);
    FrameWider(s1, s2, root, TRAMPOLINE, TRAMPOLINE + n, held, TRAPFRAME, TRAMPOLINE + 1, held);
    FrameChain(s0, s1, s2, root, TRAPFRAME, TRAMPOLINE + 1, held);
  }

  lemma {:induction false} SecondMapped(s0: Vm, s2: Vm, s3: Vm, root: int, trampoline: nat, trapframe: nat, n: nat,
      held: set<int>)
    requires Frame(s0, s2, root, TRAPFRAME, TRAMPOLINE + 1, held) &&
               Frame(s2, s3, root, TRAPFRAME, TRAPFRAME + n, held) && n <= 1
    requires Slot(root, TRAMPOLINE) in s2.flat
             && s2.flat[Slot(root, TRAMPOLINE)] == Mapping(trampoline, Perm(true, false, true, false), false)
    requires forall sl :: sl in s2.flat && sl.root == root ==> sl.vpn == TRAMPOLINE
    requires s3.flat == MapRange(s2.flat, root, TRAPFRAME, trapframe, n, Perm(true, true, false, false), false)
    ensures Frame(s0, s3, root, TRAPFRAME, TRAMPOLINE + 1, held)
    ensures n == 1 ==> OnlySystemPages(s3.flat, root, trampoline, trapframe)
    ensures n == 0 ==> s3.flat == s2.flat
  {
    hide Frame, MapRange;
    forall sl ensures sl in s3.flat && sl.root == root ==> sl.vpn == TRAMPOLINE || sl.vpn == TRAPFRAME {
      MapRangeAt(s2.flat, root, TRAPFRAME, trapframe, n, Perm(true, true, false, false), false, sl);
    }
    MapRangeAt(s2.flat, root, TRAPFRAME, trapframe, n, Perm(true, true, false, false), false, Slot(root, TRAMPOLINE));
    MapRangeAt(s2.flat, root, TRAPFRAME, trapframe, n, Perm(true, true, false, false), false, Slot(root, TRAPFRAME));
    if n == 0 {
      MapNone(s2.flat, root, TRAPFRAME, trapframe);
    }
    FrameWider(s2, s3, root, TRAPFRAME, TRAPFRAME + n, held, TRAPFRAME, TRAMPOLINE + 1, held);
    FrameChain(s0, s2, s3, root, TRAPFRAME, TRAMPOLINE + 1, held);
  }

  lemma {:induction false} MapNone(flat: map<Slot, Mapping>, root: int, vpn: int, ppn: int)
    ensures MapRange(flat, root, vpn, ppn, 0, Perm(true, true, false, false), false) == flat
  {
  }

  lemma {:induction false} LastUnmapped(s0: Vm, s3: Vm, s4: Vm, root: int, held: set<int>)
    requires Frame(s0, s3, root, TRAPFRAME, TRAMPOLINE + 1, held) &&
               Frame(s3, s4, root, TRAMPOLINE, TRAMPOLINE + 1, held)
    requires forall sl :: sl in s3.flat && sl.root == root ==> sl.vpn == TRAMPOLINE
    requires Slot(root, TRAMPOLINE) !in s4.flat
    ensures Frame(s0, s4, root, TRAPFRAME, TRAMPOLINE + 1, held)
    ensures forall sl :: sl in s4.flat ==> sl.root != root
  {
    forall sl | sl in s4.flat ensures sl.root != root {
      assert sl == Slot(sl.root, sl.vpn);
      assert SameSlot(s3, s4, sl) || (sl.root == root && sl.vpn == TRAMPOLINE);
    }
    FrameWider(s3, s4, root, TRAMPOLINE, TRAMPOLINE + 1, held, TRAPFRAME, TRAMPOLINE + 1, held);
    FrameChain(s0, s3, s4, root, TRAPFRAME, TRAMPOLINE + 1, held);
  }

  /** A table that was built and freed leaves no trace. */
  lemma {:induction false} Undone(s0: Vm, s: Vm, s': Vm, root: int, held: set<int>)
    requires Frame(s0, s, root, TRAPFRAME, TRAMPOLINE + 1, held) && Frame(s, s', root, 0, 0, held)
    requires (forall k :: k in s0.node ==> k.root != root) && (forall sl :: sl in s0.flat ==> sl.root != root)
    requires (forall k :: k in s'.node ==> k.root != root) && (forall sl :: sl in s'.flat ==> sl.root != root)
    ensures (forall sl :: SameSlot(s0, s', sl)) && forall k :: SameNode(s0, s', k)
  {
    FrameWider(s, s', root, 0, 0, held, TRAPFRAME, TRAMPOLINE + 1, held);
    FrameChain(s0, s, s', root, TRAPFRAME, TRAMPOLINE + 1, held);
    forall sl ensures SameSlot(s0, s', sl) {
      assert sl.root == root ==> sl !in s0.flat && sl !in s'.flat;
    }
    forall k ensures SameNode(s0, s', k) {
      assert k.root == root ==> k !in s0.node && k !in s'.node;
    }
  }

  lemma {:induction false} StillThere(s: Vm, s': Vm, root: int, a: int, b: int, held: set<int>)
    requires Frame(s, s', root, a, b, held)
    ensures forall vpn :: !(a <= vpn < b) ==> SameSlot(s, s', Slot(root, vpn))
    ensures forall sl :: sl in s'.flat && !(sl.root == root && a <= sl.vpn < b) ==> sl in s.flat
  {
    forall sl | sl in s'.flat && !(sl.root == root && a <= sl.vpn < b) ensures sl in s.flat {
      assert SameSlot(s, s', sl);
    }
  }

  lemma {:induction false} TopPages(flat: map<Slot, Mapping>, root: int, trampoline: nat, trapframe: nat)
    ensures TRAMPOLINE * PGSIZE / PGSIZE == TRAMPOLINE == (TRAMPOLINE * PGSIZE + PGSIZE - 1) / PGSIZE
    ensures TRAPFRAME * PGSIZE / PGSIZE == TRAPFRAME == (TRAPFRAME * PGSIZE + PGSIZE - 1) / PGSIZE
    ensures trampoline * PGSIZE / PGSIZE == trampoline && trapframe * PGSIZE / PGSIZE == trapframe
  {
  }

  /** The page behind va when it is mapped for the user, else 0. */
  function UserPage(flat: map<Slot, Mapping>, root: int, va: nat): int {
    var sl := Slot(root, va / PGSIZE);
    if sl.vpn < MAX_VPN && sl in flat && flat[sl].perm.u then flat[sl].ppn else 0
  }

  lemma {:induction false} UserEntry(s: Vm, sl: Slot)
    requires Inv(s, NOTHING)
    ensures NodeOf(sl) in s.node ==>
              && IsTable(s.mem, s.node[NodeOf(sl)])
              && var e := s.mem[s.node[NodeOf(sl)]].ptes[sl.vpn % ENTRIES];
                 (e.v <==> sl in s.flat) && (sl in s.flat ==> e == Pte(s.flat[sl].ppn, true, s.flat[sl].perm))
    ensures sl in s.flat ==> NodeOf(sl) in s.node && s.flat[sl].perm.Leafy()
    ensures sl in s.flat && s.flat[sl].perm.u ==> s.flat[sl].owned
    ensures sl in s.flat && s.flat[sl].owned ==> IsData(s.mem, s.flat[sl].ppn) && 0 < s.flat[sl].ppn
    ensures NodeOf(sl) in s.node <==> Need(s.node, sl, 2) == 0
  {
    assert KeyAt(sl, 0) == NodeOf(sl) && KeyAt(sl, 1) == Up(NodeOf(sl));
    assert Need(s.node, sl, 1) == if NodeOf(sl) in s.node then 0 else 1;
    assert NodeAt(s, NodeOf(sl)) && LeafAt(s, sl);
    if sl in s.flat && s.flat[sl].owned {
      assert OwnerAt(s, s.flat[sl].ppn);
    }
  }

  /** walk takes no address from MAXVA on. */
  predicate IsMapped(flat: map<Slot, Mapping>, root: int, vpn: int) {
    vpn < MAX_VPN && Slot(root, vpn) in flat
  }

  /** A size above what is mapped, which uvmdealloc's comment allows: the table is empty and the call panics. */
  method OldSizeTooLarge() returns (ok: bool)
    ensures !ok
  {
    hide Inv, Frame, HeldOf;
    var m := new Machine(1, 10);
    PagePartition(m.State(), 1);
    var root := m.UvmCreate();
    assert !IsMapped(m.flat, root, 0);
    var sz;
    ok, sz := m.UvmDealloc(root, PGSIZE, 0);
  }

  lemma {:induction false} UnmapOne(s0: Vm, s: Vm, sl: Slot, doFree: bool, first: int, n: nat, held: set<int>)
    requires Inv(s, NOTHING) && sl in s.flat && s.flat[sl].owned == doFree && HeldOf(s.owner) == held
    requires Frame(s0, s, sl.root, first, first + n, held) && first <= sl.vpn < first + n
    ensures NodeOf(sl) in s.node && IsTable(s.mem, s.node[NodeOf(sl)])
    ensures doFree ==> s.flat[sl].ppn != s.node[NodeOf(sl)] && s.lo <= s.flat[sl].ppn < s.hi
    ensures s.mem[s.node[NodeOf(sl)]].ptes[sl.vpn % ENTRIES] == Pte(s.flat[sl].ppn, true, s.flat[sl].perm)
    ensures s.flat[sl].perm.Leafy() && Need(s.node, sl, 2) == 0
    ensures var s' := Unmapped(s, sl, doFree);
            Inv(s', NOTHING) && HeldOf(s'.owner) == held && Frame(s0, s', sl.root, first, first + n, held)
  {
    hide Inv, Frame;
    UserEntry(s, sl);
    UnmappedInv(s, sl, doFree);
    UnmappedFrame(s, sl, doFree);
    FrameWider(s, Unmapped(s, sl, doFree), sl.root, sl.vpn, sl.vpn + 1, held, first, first + n, held);
    FrameChain(s0, s, Unmapped(s, sl, doFree), sl.root, first, first + n, held);
  }

  lemma {:induction false} RootGrows(s0: Vm, s: Vm, p: int, held: set<int>)
    requires Inv(s, NOTHING) && p in s.owner && s.owner[p] == Held && HeldOf(s.owner) == held + {p} && p !in held
    requires Frame(s0, s, p, 0, 0, held)
    ensures Inv(RootAdded(s, p), NOTHING)
    ensures forall k :: k in s.node ==> k.root != p
    ensures forall sl :: sl in s.flat ==> sl.root != p
    ensures Frame(s0, RootAdded(s, p), p, 0, 0, held) && HeldOf(RootAdded(s, p).owner) == held
    ensures RootAdded(s, p) == s.(mem := s.mem[p := Table(Zeroed())], node := s.node[Key(p, 2, 0) := p],
              owner := s.owner[p := Node(Key(p, 2, 0))])
  {
    hide Inv, Frame;
    RootAddedInv(s, p);
    RootAddedFrame(s, p);
    assert HeldOf(s.owner) - {p} == held;
    FrameChain(s0, s, RootAdded(s, p), p, 0, 0, held);
  }

  lemma {:induction false} WalkStart(s: Vm, root: int, va: nat)
    requires Inv(s, NOTHING) && Key(root, 2, 0) in s.node && va / PGSIZE < MAX_VPN
    ensures s.node[Key(root, 2, 0)] == root && KeyAt(Slot(root, va / PGSIZE), 2) == Key(root, 2, 0)
    ensures Px(0, va) == va / PGSIZE % ENTRIES
  {
    assert NodeAt(s, Key(root, 2, 0));
    Path(root, va);
  }

  lemma {:induction false} WalkStep(s: Vm, sl: Slot, va: nat, level: nat)
    requires Inv(s, NOTHING) && sl.vpn == va / PGSIZE < MAX_VPN && 0 < level <= 2 && KeyAt(sl, level) in s.node
    ensures var c, p := KeyAt(sl, level - 1), s.node[KeyAt(sl, level)];
            && c.level == level - 1 && c.root == sl.root && KeyOk(c) && Up(c) == KeyAt(sl, level)
            && IsTable(s.mem, p) && Px(level, va) == c.prefix % ENTRIES
            && (s.mem[p].ptes[Px(level, va)].v <==> c in s.node)
            && (c in s.node ==> s.mem[p].ptes[Px(level, va)].ppn == s.node[c])
            && Need(s.node, sl, level) == Need(s.node, sl, level - 1) + if c in s.node then 0 else 1
  {
    hide Inv, Px;
    Path(sl.root, va);
    OnPath(s, KeyAt(sl, level - 1));
  }

  /** The nodes on the path to a virtual page from a level up, without the root. */
  ghost function PathFrom(sl: Slot, level: nat): set<Key> {
    (if level <= 1 then {KeyAt(sl, 1)} else {}) + (if level == 0 then {KeyAt(sl, 0)} else {})
  }

  lemma PathMore(keys: set<Key>, sl: Slot, level: nat)
    requires 1 <= level <= 2
    ensures keys + PathFrom(sl, level - 1) == keys + PathFrom(sl, level) + {KeyAt(sl, level - 1)}
    ensures level == 2 ==> keys + PathFrom(sl, 2) == keys
    ensures PathFrom(sl, 0) == {KeyAt(sl, 1), KeyAt(sl, 0)}
  {
  }

  lemma {:induction false} WalkEnd(s0: Vm, s: Vm, sl: Slot)
    requires Inv(s, NOTHING) && KeyAt(sl, 0) in s.node
    requires |s0.free| - |s.free| + Need(s.node, sl, 0) == Need(s0.node, sl, 2)
    requires s.node.Keys == s0.node.Keys + PathFrom(sl, 0)
    ensures KeyAt(sl, 0) == NodeOf(sl) && Need(s.node, sl, 0) == 0 && s.node[KeyAt(sl, 0)] != 0
    ensures Taken(s0, s, sl.root, sl.vpn, sl.vpn + 1, 0)
  {
    hide Inv, PathNodes, Missing;
    NodesApart(s, NOTHING, KeyAt(sl, 0));
    PathOne(s0.node, sl.root, sl.vpn);
  }

  // ------------------------------------------------------------------
  // What the invariant says of every page

  /**
   Every managed page is exactly one of: once on the free list, the page of one node
   of one table, the page owned by one virtual page of one table, or held.
   */
  lemma {:induction false} PagePartition(s: Vm, p: int)
    requires Inv(s, NOTHING) && p in s.owner
    ensures p in s.free <==> s.owner[p] == Free
    ensures (exists k :: k in s.node && s.node[k] == p) <==> s.owner[p].Node?
    ensures (exists sl :: OwnsPage(s.flat, sl, p)) <==> s.owner[p].Leaf?
    ensures forall k, j :: k in s.node && j in s.node && s.node[k] == p == s.node[j] ==> k == j
    ensures forall sl, t :: OwnsPage(s.flat, sl, p) && OwnsPage(s.flat, t, p) ==> sl == t
    ensures forall i, j :: 0 <= i < |s.free| && 0 <= j < |s.free| && s.free[i] == p == s.free[j] ==> i == j
  {
    assert OwnerAt(s, p);
    forall k | k in s.node && s.node[k] == p ensures s.owner[p] == Node(k) {
      assert NodeAt(s, k);
    }
    forall sl | OwnsPage(s.flat, sl, p) ensures s.owner[p] == Leaf(sl) {
      assert LeafAt(s, sl);
    }
    if s.owner[p].Node? {
      assert s.owner[p].key in s.node && s.node[s.owner[p].key] == p;
    }
    if s.owner[p].Leaf? {
      assert OwnsPage(s.flat, s.owner[p].slot, p);
    }
  }

  /** A page owned by a mapping gets new contents of the same size. */
  lemma {:induction false} WrittenInv(s: Vm, sl: Slot, bytes: seq<bv8>)
    requires Inv(s, NOTHING) && sl in s.flat && s.flat[sl].owned && |bytes| == PGSIZE
    ensures Inv(s.(mem := s.mem[s.flat[sl].ppn := Data(bytes)]), NOTHING)
  {
    hide FreeInv;
    var s', p := s.(mem := s.mem[s.flat[sl].ppn := Data(bytes)]), s.flat[sl].ppn;
    assert LeafAt(s, sl) && OwnerAt(s, p);
    forall k ensures NodeAt(s', k) {
      assert NodeAt(s, k);
    }
    forall q ensures OwnerAt(s', q) {
      assert OwnerAt(s, q);
    }
    forall c ensures DirAt(s', c, NOTHING) {
      assert DirAt(s, c, NOTHING) && NodeAt(s, Up(c));
    }
    forall t ensures LeafAt(s', t) {
      assert LeafAt(s, t) && NodeAt(s, NodeOf(t));
    }
  }
}
