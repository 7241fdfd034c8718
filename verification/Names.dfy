/**
 Names and link counts: the directory operations of kernel/fs.c and the create, link,
 unlink and mkdir calls of kernel/sysfile.c, as completed calls.

 An inode's link count is a C short.  References held by open files and working
 directories are counted beside the inodes; the last one to go frees an inode
 without links.
 */
module Names {
  import Sets

  const DIRSIZ: nat := 14 // skipelem hands over no longer names, so strncmp over DIRSIZ bytes is equality
  const ROOTINO: int := 1
  const SHORT_MAX: int := 32767
  const MAX_ENTRIES: nat := 17152 // MAXFILE * BSIZE / sizeof(struct dirent)

  datatype Entry = Entry(inum: int, name: string)

  datatype Kind = Dir | File | Device

  datatype Node = Node(kind: Kind, nlink: int, entries: seq<Entry>)

  type Inodes = map<int, Node>

  /** What a call comes to; nothing is said of the state after a panic. */
  datatype Outcome = Done | Refused | Panic

  /** n++ on a short. */
  function IncShort(n: int): int {
    if n == SHORT_MAX then -SHORT_MAX - 1 else n + 1
  }

  function DecShort(n: int): int {
    if n == -SHORT_MAX - 1 then SHORT_MAX else n - 1
  }

  /** The k-th entry of directory p names i, other than as "." or "..". */
  predicate NameAt(ino: Inodes, p: int, k: int, i: int) {
    p in ino && ino[p].kind == Dir && 2 <= k < |ino[p].entries| && ino[p].entries[k].inum == i
  }

  ghost function Names(ino: Inodes, i: int): set<(int, int)> {
    set p, k | p in ino && 0 <= k < |ino[p].entries| && NameAt(ino, p, k, i) :: (p, k)
  }

  ghost predicate Named(ino: Inodes, i: int) {
    exists p, k :: NameAt(ino, p, k, i)
  }

  /** Directory d has a name and its ".." is i. */
  ghost predicate DotAt(ino: Inodes, d: int, i: int) {
    d in ino && ino[d].kind == Dir && 2 <= |ino[d].entries| && ino[d].entries[1].inum == i && Named(ino, d)
  }

  ghost function Dots(ino: Inodes, i: int): set<int> {
    set d | d in ino && DotAt(ino, d, i)
  }

  function Extra(i: int): int {
    if i == ROOTINO then 1 else 0
  }

  // ------------------------------------------------------------------
  // The invariant

  predicate DirAt(ino: Inodes, p: int) {
    p in ino && ino[p].kind == Dir ==>
      var es := ino[p].entries;
      && 2 <= |es|
      && es[0] == Entry(p, ".") && es[1].name == ".." && es[1].inum != 0
      && forall j, k :: 0 <= j < k < |es| && es[j].inum != 0 && es[k].inum != 0 ==> es[j].name != es[k].name
  }

  /** An entry leads to an inode; one that names a directory is that directory's only name and its "..". */
  predicate EntryAt(ino: Inodes, p: int, k: int) {
    p in ino && ino[p].kind == Dir && 2 <= k < |ino[p].entries| && ino[p].entries[k].inum != 0 ==>
      var i := ino[p].entries[k].inum;
      && i in ino && i != ROOTINO
      && (ino[i].kind == Dir ==> 2 <= |ino[i].entries| && ino[i].entries[1].inum == p)
  }

  ghost predicate OneName(ino: Inodes, d: int) {
    d in ino && ino[d].kind == Dir ==> forall p, k, q, l :: NameAt(ino, p, k, d) && NameAt(ino, q, l, d) ==>
        p == q && k == l
  }

  ghost predicate LinksAt(ino: Inodes, i: int) {
    i in ino ==> 0 < i && |Names(ino, i)| + |Dots(ino, i)| + Extra(i) <= ino[i].nlink
  }

  ghost predicate Inv(ino: Inodes) {
    && ROOTINO in ino && ino[ROOTINO].kind == Dir
    && (forall p :: DirAt(ino, p))
    && (forall p, k :: EntryAt(ino, p, k))
    && (forall d :: OneName(ino, d))
    && (forall i :: LinksAt(ino, i))
  }

  /** The slots of a directory that name directories. */
  ghost function Subs(ino: Inodes, p: int): set<int>
    requires p in ino
  {
    set k | 2 <= k < |ino[p].entries| && ino[p].entries[k].inum in ino && ino[ino[p].entries[k].inum].kind == Dir
  }

  /** A directory has a link for its own name and one for each directory it names. */
  ghost predicate BoundAt(ino: Inodes, p: int) {
    p in ino && ino[p].kind == Dir ==> |ino[p].entries| <= MAX_ENTRIES && ino[p].nlink <= 1 + |Subs(ino, p)|
  }

  ghost predicate Bounded(ino: Inodes) {
    forall p :: BoundAt(ino, p)
  }

  /** No directory's count can wrap. */
  lemma {:induction false} CountFits(ino: Inodes, p: int)
    requires Inv(ino) && Bounded(ino) && p in ino && ino[p].kind == Dir
    ensures ino[p].nlink < MAX_ENTRIES < SHORT_MAX
  {
    assert DirAt(ino, p) && BoundAt(ino, p);
    var all := Sets.Indices(|ino[p].entries|) - {0, 1};
    assert Sets.Indices(|ino[p].entries|) == all + {0} + {1};
    Sets.SubsetSize(Subs(ino, p), all);
  }

  lemma {:induction false} InNames(ino: Inodes, p: int, k: int, i: int)
    ensures (p, k) in Names(ino, i) <==> NameAt(ino, p, k, i)
  {
  }

  lemma {:induction false} NamedNotEmpty(ino: Inodes, i: int)
    ensures Named(ino, i) <==> Names(ino, i) != {}
  {
    if p, k :| NameAt(ino, p, k, i) {
      InNames(ino, p, k, i);
    }
    if Names(ino, i) != {} {
      var x := Sets.Pick(Names(ino, i));
      InNames(ino, x.0, x.1, i);
    }
  }

  /** An inode without links is named by nothing, and no named directory leads back to it. */
  lemma {:induction false} NoLinksNoNames(ino: Inodes, i: int)
    requires Inv(ino) && i in ino && ino[i].nlink <= 0
    ensures !Named(ino, i) && Names(ino, i) == {} && Dots(ino, i) == {} && i != ROOTINO
  {
    assert LinksAt(ino, i);
    NamedNotEmpty(ino, i);
  }

  // ------------------------------------------------------------------
  // Steps

  /** The k-th entry is written, at the end if k is the number of entries. */
  function PutEntry(es: seq<Entry>, k: nat, e: Entry): seq<Entry>
    requires k <= |es|
  {
    if k < |es| then es[k := e] else es + [e]
  }

  function WithEntry(ino: Inodes, p: int, k: nat, e: Entry): Inodes
    requires p in ino && k <= |ino[p].entries|
  {
    ino[p := ino[p].(entries := PutEntry(ino[p].entries, k, e))]
  }

  function WithLinks(ino: Inodes, i: int, n: int): Inodes
    requires i in ino
  {
    ino[i := ino[i].(nlink := n)]
  }

  /** Slot k of directory p is free for an entry: an empty one, or the end. */
  predicate Vacant(ino: Inodes, p: int, k: nat) {
    p in ino && ino[p].kind == Dir && (k < |ino[p].entries| ==> ino[p].entries[k].inum == 0) && k <= |ino[p].entries|
  }

  /** The slot dirlink writes: the first unused one, or the one past the end. */
  predicate FirstVacant(ino: Inodes, p: int, k: nat) {
    Vacant(ino, p, k) && forall j :: 0 <= j < k ==> ino[p].entries[j].inum != 0
  }

  /** The entry dirlookup finds: the first one in use with the name. */
  predicate FirstNamed(ino: Inodes, p: int, name: string, k: nat) {
    && p in ino && k < |ino[p].entries| && ino[p].entries[k].inum != 0 && ino[p].entries[k].name == name
    && forall j :: 0 <= j < k && ino[p].entries[j].inum != 0 ==> ino[p].entries[j].name != name
  }

  predicate Absent(ino: Inodes, p: int, name: string) {
    p in ino && forall k :: 0 <= k < |ino[p].entries| && ino[p].entries[k].inum != 0 ==> ino[p].entries[k].name != name
  }

  /** Only slot (p, k) may name something else. */
  ghost predicate SameNames(ino: Inodes, ino': Inodes, p: int, k: int, i: int) {
    forall q, l, j :: 0 < j ==> (NameAt(ino', q, l, j) <==> if q == p && l == k then j == i else NameAt(ino, q, l, j))
  }

  lemma {:induction false} NamesPlus(ino: Inodes, ino': Inodes, p: int, k: int, i: int)
    requires SameNames(ino, ino', p, k, i) && 0 < i && (forall j :: 0 < j ==> !NameAt(ino, p, k, j))
    ensures Names(ino', i) == Names(ino, i) + {(p, k)} && |Names(ino', i)| == |Names(ino, i)| + 1 && Named(ino', i)
    ensures forall j :: 0 < j && j != i ==> Names(ino', j) == Names(ino, j) && (Named(ino', j) <==> Named(ino, j))
  {
    assert NameAt(ino', p, k, i);
    forall j | 0 < j ensures Names(ino', j) == if j == i then Names(ino, j) + {(p, k)} else Names(ino, j) {
      forall x: (int, int) ensures x in Names(ino', j) <==> x in Names(ino, j) || (j == i && x == (p, k)) {
        InNames(ino, x.0, x.1, j);
        InNames(ino', x.0, x.1, j);
      }
    }
    forall j | 0 < j && j != i ensures Named(ino', j) <==> Named(ino, j) {
      NamedNotEmpty(ino, j);
      NamedNotEmpty(ino', j);
    }
    InNames(ino, p, k, i);
  }

  lemma {:induction false} NamesMinus(ino: Inodes, ino': Inodes, p: int, k: int, i: int)
    requires SameNames(ino, ino', p, k, 0) && 0 < i && NameAt(ino, p, k, i)
    ensures Names(ino', i) == Names(ino, i) - {(p, k)} && |Names(ino', i)| == |Names(ino, i)| - 1
    ensures forall j :: 0 < j && j != i ==> Names(ino', j) == Names(ino, j) && (Named(ino', j) <==> Named(ino, j))
  {
    forall j | 0 < j ensures Names(ino', j) == if j == i then Names(ino, j) - {(p, k)} else Names(ino, j) {
      forall x: (int, int) ensures x in Names(ino', j) <==> x in Names(ino, j) && !(j == i && x == (p, k)) {
        InNames(ino, x.0, x.1, j);
        InNames(ino', x.0, x.1, j);
      }
    }
    forall j | 0 < j && j != i ensures Named(ino', j) <==> Named(ino, j) {
      NamedNotEmpty(ino, j);
      NamedNotEmpty(ino', j);
    }
    InNames(ino, p, k, i);
  }

  lemma {:induction false} EntryPut(ino: Inodes, p: int, k: nat, e: Entry)
    requires p in ino && ino[p].kind == Dir && 2 <= k <= |ino[p].entries|
    ensures SameNames(ino, WithEntry(ino, p, k, e), p, k, e.inum)
  {
  }

  // ------------------------------------------------------------------
  // link

  /** What a link call leaves: one more link, one more entry. */
  function LinkedTo(ino: Inodes, i: int, p: int, k: nat, name: string): Inodes
    requires i in ino && p in ino && i != p && k <= |ino[p].entries|
  {
    WithEntry(WithLinks(ino, i, IncShort(ino[i].nlink)), p, k, Entry(i, name))
  }

  lemma {:induction false} VacantSlot(ino: Inodes, p: int, k: nat)
    requires Inv(ino) && Vacant(ino, p, k)
    ensures 2 <= k && forall j :: 0 < j ==> !NameAt(ino, p, k, j)
  {
    assert DirAt(ino, p) && LinksAt(ino, p);
  }

  lemma {:induction false} LinkShape(ino: Inodes, i: int, p: int, k: nat, name: string)
    requires Inv(ino) && i in ino && ino[i].kind != Dir && Vacant(ino, p, k) && Absent(ino, p, name)
    ensures var ino' := LinkedTo(ino, i, p, k, name);
            && SameNames(ino, ino', p, k, i)
            && (forall q :: DirAt(ino', q)) && (forall q, l :: EntryAt(ino', q, l))
  {
    var ino' := LinkedTo(ino, i, p, k, name);
    assert LinksAt(ino, i);
    VacantSlot(ino, p, k);
    EntryPut(WithLinks(ino, i, IncShort(ino[i].nlink)), p, k, Entry(i, name));
    forall q ensures DirAt(ino', q) {
      assert DirAt(ino, q);
    }
    forall q, l ensures EntryAt(ino', q, l) {
      assert EntryAt(ino, q, l);
    }
  }

  lemma {:induction false} LinkKeepsDots(ino: Inodes, i: int, p: int, k: nat, name: string, j: int)
    requires Inv(ino) && i in ino && ino[i].kind != Dir && Vacant(ino, p, k) && 2 <= k
    requires forall d :: 0 < d && d != i ==> (Named(LinkedTo(ino, i, p, k, name), d) <==> Named(ino, d))
    ensures Dots(LinkedTo(ino, i, p, k, name), j) == Dots(ino, j)
  {
    hide Named, Names, NameAt;
    var ino' := LinkedTo(ino, i, p, k, name);
    forall d | d in ino && ino[d].kind == Dir
      ensures (2 <= |ino[d].entries| <==> 2 <= |ino'[d].entries|) && (Named(ino', d) <==> Named(ino, d))
      ensures 2 <= |ino[d].entries| ==> ino'[d].entries[1] == ino[d].entries[1]
    {
      assert LinksAt(ino, d) && DirAt(ino, d);
    }
    DotsSame(ino, ino', j);
  }

  lemma {:induction false} OneNameKept(ino: Inodes, ino': Inodes, p: int, k: int, i: int, d: int)
    requires OneName(ino, d) && SameNames(ino, ino', p, k, i) && 0 < d && d != i
    requires d in ino' && ino'[d].kind == Dir ==> d in ino && ino[d].kind == Dir
    ensures OneName(ino', d)
  {
    hide NameAt;
  }

  /** A link call keeps the invariant exactly when the count does not wrap. */
  lemma {:induction false} LinkExactly(ino: Inodes, i: int, p: int, k: nat, name: string)
    requires Inv(ino) && i in ino && ino[i].kind != Dir && ino[i].nlink <= SHORT_MAX && Vacant(ino, p, k) &&
               Absent(ino, p, name)
    ensures Inv(LinkedTo(ino, i, p, k, name)) <==> ino[i].nlink < SHORT_MAX
  {
    hide NameAt, DirAt, EntryAt, Named, Names, Dots, OneName, SameNames, Absent, PutEntry;
    var ino' := LinkedTo(ino, i, p, k, name);
    assert LinksAt(ino, i);
    VacantSlot(ino, p, k);
    LinkShape(ino, i, p, k, name);
    NamesPlus(ino, ino', p, k, i);
    forall d ensures OneName(ino', d) {
      LinkOneName(ino, i, p, k, name, d);
    }
    forall j ensures j != i ==> LinksAt(ino', j) {
      assert LinksAt(ino, j);
      LinkKeepsDots(ino, i, p, k, name, j);
    }
    LinkKeepsDots(ino, i, p, k, name, i);
    assert LinksAt(ino', i) <==> ino[i].nlink < SHORT_MAX;
  }

  lemma {:induction false} LinkOneName(ino: Inodes, i: int, p: int, k: nat, name: string, d: int)
    requires Inv(ino) && i in ino && ino[i].kind != Dir && Vacant(ino, p, k) &&
               SameNames(ino, LinkedTo(ino, i, p, k, name), p, k, i)
    ensures OneName(LinkedTo(ino, i, p, k, name), d)
  {
    hide NameAt, Names, Dots;
    if d in ino && ino[d].kind == Dir {
      assert LinksAt(ino, d) && OneName(ino, d);
      OneNameKept(ino, LinkedTo(ino, i, p, k, name), p, k, i, d);
    }
  }

  /** With the same directories, the same ".." and the same named directories, the same ".." entries count. */
  lemma {:induction false} DotsSame(ino: Inodes, ino': Inodes, j: int)
    requires ino'.Keys == ino.Keys && forall d :: d in ino ==> ino'[d].kind == ino[d].kind
    requires forall d :: d in ino && ino[d].kind == Dir ==>
               && (2 <= |ino[d].entries| <==> 2 <= |ino'[d].entries|)
               && (2 <= |ino[d].entries| ==> ino'[d].entries[1] == ino[d].entries[1])
               && (Named(ino', d) <==> Named(ino, d))
    ensures Dots(ino', j) == Dots(ino, j)
  {
    hide Named;
  }

  // ------------------------------------------------------------------
  // create and mkdir

  function NewNode(i: int, kind: Kind, p: int): Node {
    Node(kind, 1, if kind == Dir then [Entry(i, "."), Entry(p, "..")] else [])
  }

  /**
   What a create call leaves: a new inode with one link and its entry, and one more link for the
   ".." of a directory.
   */
  function Created(ino: Inodes, i: int, kind: Kind, p: int, k: nat, name: string): Inodes
    requires i !in ino && p in ino && k <= |ino[p].entries|
  {
    var ino1 := ino[i := NewNode(i, kind, p)];
    WithEntry(if kind == Dir then WithLinks(ino1, p, IncShort(ino[p].nlink)) else ino1, p, k, Entry(i, name))
  }

  lemma {:induction false} CreateShape(ino: Inodes, i: int, kind: Kind, p: int, k: nat, name: string)
    requires Inv(ino) && i !in ino && 0 < i && Vacant(ino, p, k) && Absent(ino, p, name)
    ensures var ino' := Created(ino, i, kind, p, k, name);
            && SameNames(ino, ino', p, k, i)
            && (forall q :: DirAt(ino', q)) && (forall q, l :: EntryAt(ino', q, l))
  {
    hide Inv, Absent, Created, PutEntry, Names, Dots;
    VacantSlot(ino, p, k);
    CreateNames(ino, i, kind, p, k, name);
    var ino' := Created(ino, i, kind, p, k, name);
    forall q ensures DirAt(ino', q) {
      CreateDir(ino, i, kind, p, k, name, q);
    }
    forall q, l ensures EntryAt(ino', q, l) {
      CreateEntry(ino, i, kind, p, k, name, q, l);
    }
  }

  lemma {:induction false} CreateNames(ino: Inodes, i: int, kind: Kind, p: int, k: nat, name: string)
    requires i !in ino && Vacant(ino, p, k) && 2 <= k
    ensures SameNames(ino, Created(ino, i, kind, p, k, name), p, k, i)
  {
  }

  lemma {:induction false} CreateDir(ino: Inodes, i: int, kind: Kind, p: int, k: nat, name: string, q: int)
    requires Inv(ino) && i !in ino && 0 < i && Vacant(ino, p, k) && 2 <= k && Absent(ino, p, name)
    ensures DirAt(Created(ino, i, kind, p, k, name), q)
  {
    assert DirAt(ino, q) && LinksAt(ino, p);
  }

  lemma {:induction false} CreateEntry(ino: Inodes, i: int, kind: Kind, p: int, k: nat, name: string, q: int, l: int)
    requires Inv(ino) && i !in ino && 0 < i && Vacant(ino, p, k) && 2 <= k
    ensures EntryAt(Created(ino, i, kind, p, k, name), q, l)
  {
    assert EntryAt(ino, q, l);
  }

  /** A number no inode has is named by nothing. */
  lemma {:induction false} FreshUnnamed(ino: Inodes, i: int)
    requires Inv(ino) && i !in ino && 0 < i
    ensures !Named(ino, i) && Names(ino, i) == {} && Dots(ino, i) == {}
  {
    forall p, k ensures !NameAt(ino, p, k, i) {
      assert EntryAt(ino, p, k);
    }
    NamedNotEmpty(ino, i);
    forall d ensures !DotAt(ino, d, i) {
      if d in ino && ino[d].kind == Dir && Named(ino, d) {
        ParentExists(ino, d);
      }
    }
  }

  /** The ".." of a named directory leads to the directory that names it. */
  lemma {:induction false} ParentExists(ino: Inodes, d: int)
    requires Inv(ino) && d in ino && ino[d].kind == Dir && Named(ino, d)
    ensures 2 <= |ino[d].entries| && ino[d].entries[1].inum in ino
  {
    var p, k :| NameAt(ino, p, k, d);
    assert EntryAt(ino, p, k) && LinksAt(ino, d);
  }

  lemma {:induction false} CreateDots(ino: Inodes, i: int, kind: Kind, p: int, k: nat, name: string, j: int)
    requires Inv(ino) && i !in ino && 0 < i && Vacant(ino, p, k) && 2 <= k
    requires Named(Created(ino, i, kind, p, k, name), i)
    requires forall d :: 0 < d && d != i ==> (Named(Created(ino, i, kind, p, k, name), d) <==> Named(ino, d))
    ensures Dots(Created(ino, i, kind, p, k, name), j) == if kind == Dir &&
              j == p then Dots(ino, j) + {i} else Dots(ino, j)
    ensures i !in Dots(ino, j)
  {
    hide Named, Names, NameAt;
    var ino' := Created(ino, i, kind, p, k, name);
    forall d ensures DotAt(ino', d, j) <==> DotAt(ino, d, j) || (d == i && kind == Dir && j == p) {
      assert LinksAt(ino, d) && DirAt(ino, d);
    }
  }

  lemma {:induction false} CreateOneName(ino: Inodes, i: int, kind: Kind, p: int, k: nat, name: string, d: int)
    requires Inv(ino) && i !in ino && 0 < i && Vacant(ino, p, k) &&
               SameNames(ino, Created(ino, i, kind, p, k, name), p, k, i)
    requires !Named(ino, i)
    ensures OneName(Created(ino, i, kind, p, k, name), d)
  {
    hide NameAt, Names, Dots;
    var ino' := Created(ino, i, kind, p, k, name);
    if d != i && d in ino' && ino'[d].kind == Dir {
      assert LinksAt(ino, d) && OneName(ino, d);
      OneNameKept(ino, ino', p, k, i, d);
    } else if d == i {
      assert forall q, l :: !NameAt(ino, q, l, i);
    }
  }

  lemma {:induction false} CreateLinks(ino: Inodes, i: int, kind: Kind, p: int, k: nat, name: string)
    requires Inv(ino) && i !in ino && 0 < i && Vacant(ino, p, k) && Absent(ino, p, name)
    requires kind == Dir ==> ino[p].nlink < SHORT_MAX
    ensures Inv(Created(ino, i, kind, p, k, name))
  {
    hide NameAt, DirAt, EntryAt, Named, Names, Dots, OneName, SameNames, Absent, PutEntry;
    var ino' := Created(ino, i, kind, p, k, name);
    assert LinksAt(ino, p);
    VacantSlot(ino, p, k);
    CreateShape(ino, i, kind, p, k, name);
    FreshUnnamed(ino, i);
    NamesPlus(ino, ino', p, k, i);
    forall d ensures OneName(ino', d) {
      CreateOneName(ino, i, kind, p, k, name, d);
    }
    forall j ensures LinksAt(ino', j) {
      assert LinksAt(ino, j);
      CreateDots(ino, i, kind, p, k, name, j);
    }
  }

  /** A create call keeps the invariant: a directory has too few entries for the count of its subdirectories to wrap. */
  lemma {:induction false} CreateKeeps(ino: Inodes, i: int, kind: Kind, p: int, k: nat, name: string)
    requires Inv(ino) && Bounded(ino) && i !in ino && 0 < i && Absent(ino, p, name)
    requires Vacant(ino, p, k) && k < MAX_ENTRIES
    ensures Inv(Created(ino, i, kind, p, k, name)) && Bounded(Created(ino, i, kind, p, k, name))
  {
    hide Inv, Absent, Created;
    CountFits(ino, p);
    CreateLinks(ino, i, kind, p, k, name);
    forall q ensures BoundAt(Created(ino, i, kind, p, k, name), q) {
      CreateBound(ino, i, kind, p, k, name, q);
    }
  }

  // ------------------------------------------------------------------
  // unlink

  predicate IsEmpty(n: Node) {
    forall k :: 2 <= k < |n.entries| ==> n.entries[k].inum == 0
  }

  /** The entry zeroed, and one link less on the directory for the ".." of one it named. */
  function EntryRemoved(ino: Inodes, p: int, k: nat): Inodes
    requires p in ino && k < |ino[p].entries| && ino[p].entries[k].inum in ino && ino[p].entries[k].inum != p
  {
    var ino1 := WithEntry(ino, p, k, Entry(0, ""));
    if ino[ino[p].entries[k].inum].kind == Dir then WithLinks(ino1, p, DecShort(ino[p].nlink)) else ino1
  }

  /** The entry unlink removes: it exists, it is not in itself, and its inode has a link. */
  lemma {:induction false} UnlinkTarget(ino: Inodes, p: int, k: nat)
    requires Inv(ino) && p in ino && ino[p].kind == Dir && 2 <= k < |ino[p].entries| && ino[p].entries[k].inum != 0
    ensures var i := ino[p].entries[k].inum;
            && i in ino && 0 < i && 1 <= ino[i].nlink && NameAt(ino, p, k, i)
            && (ino[i].kind == Dir && IsEmpty(ino[i]) ==> i != p && i in Dots(ino, p) && 1 <= ino[p].nlink)
            && (ino[i].kind != Dir ==> i != p)
  {
    var i := ino[p].entries[k].inum;
    assert EntryAt(ino, p, k) && LinksAt(ino, i) && LinksAt(ino, p);
    InNames(ino, p, k, i);
    assert (p, k) in Names(ino, i);
    if ino[i].kind == Dir && IsEmpty(ino[i]) {
      assert NameAt(ino, p, k, i);
      assert DotAt(ino, i, p) && i in Dots(ino, p);
    }
  }

  lemma {:induction false} UnlinkShape(ino: Inodes, p: int, k: nat)
    requires Inv(ino) && p in ino && ino[p].kind == Dir && 2 <= k < |ino[p].entries| && ino[p].entries[k].inum != 0
    requires var i := ino[p].entries[k].inum; i in ino && i != p
    ensures var ino' := EntryRemoved(ino, p, k);
            && SameNames(ino, ino', p, k, 0)
            && (forall q :: DirAt(ino', q)) && (forall q, l :: EntryAt(ino', q, l))
  {
    var ino' := EntryRemoved(ino, p, k);
    forall q ensures DirAt(ino', q) {
      assert DirAt(ino, q);
    }
    forall q, l ensures EntryAt(ino', q, l) {
      assert EntryAt(ino, q, l);
    }
  }

  lemma {:induction false} UnlinkDots(ino: Inodes, p: int, k: nat, j: int)
    requires Inv(ino) && p in ino && ino[p].kind == Dir && 2 <= k < |ino[p].entries| && ino[p].entries[k].inum != 0
    requires ino[p].entries[k].inum in ino && ino[p].entries[k].inum != p
    requires var i, ino' := ino[p].entries[k].inum, EntryRemoved(ino, p, k);
             && (ino[i].kind == Dir ==> 2 <= |ino[i].entries| && ino[i].entries[1].inum == p && !Named(ino', i))
             && forall d :: 0 < d && d != i ==> (Named(ino', d) <==> Named(ino, d))
    ensures var i, ino' := ino[p].entries[k].inum, EntryRemoved(ino, p, k);
            Dots(ino', j) == if ino[i].kind == Dir && j == p then Dots(ino, j) - {i} else Dots(ino, j)
  {
    hide Named, Names, NameAt;
    var i, ino' := ino[p].entries[k].inum, EntryRemoved(ino, p, k);
    forall d ensures DotAt(ino', d, j) <==> DotAt(ino, d, j) && !(d == i && ino[i].kind == Dir && j == p) {
      assert LinksAt(ino, d) && DirAt(ino, d);
    }
  }

  ghost predicate Spare(ino: Inodes, i: int) {
    i in ino && |Names(ino, i)| + |Dots(ino, i)| + Extra(i) < ino[i].nlink
  }

  /** A link too many can be given back. */
  lemma {:induction false} DropLink(ino: Inodes, i: int)
    requires Inv(ino) && Spare(ino, i)
    ensures Inv(WithLinks(ino, i, ino[i].nlink - 1))
  {
    hide Names, Dots, Named;
    var ino' := WithLinks(ino, i, ino[i].nlink - 1);
    forall p ensures DirAt(ino', p) {
      assert DirAt(ino, p);
    }
    forall p, k ensures EntryAt(ino', p, k) {
      assert EntryAt(ino, p, k);
    }
    SameEntries(ino, ino');
    forall d ensures OneName(ino', d) {
      assert OneName(ino, d);
    }
    forall j ensures LinksAt(ino', j) {
      assert LinksAt(ino, j);
    }
  }

  lemma {:induction false} SameEntries(ino: Inodes, ino': Inodes)
    requires ino'.Keys == ino.Keys && forall i :: i in ino ==>
               ino'[i].kind == ino[i].kind && ino'[i].entries == ino[i].entries
    ensures forall p, k, i :: NameAt(ino', p, k, i) <==> NameAt(ino, p, k, i)
    ensures forall i :: Names(ino', i) == Names(ino, i) && Dots(ino', i) == Dots(ino, i)
  {
    forall i ensures Names(ino', i) == Names(ino, i) {
      forall x: (int, int) ensures x in Names(ino', i) <==> x in Names(ino, i) {
        InNames(ino, x.0, x.1, i);
        InNames(ino', x.0, x.1, i);
      }
    }
    forall d ensures Named(ino', d) <==> Named(ino, d) {
      NamedNotEmpty(ino, d);
      NamedNotEmpty(ino', d);
    }
    forall i ensures Dots(ino', i) == Dots(ino, i) {
      DotsSame(ino, ino', i);
    }
  }

  lemma {:induction false} UnlinkOneName(ino: Inodes, ino': Inodes, p: int, k: int, d: int)
    requires Inv(ino) && SameNames(ino, ino', p, k, 0) && ino'.Keys == ino.Keys && forall j :: j in ino ==>
               ino'[j].kind == ino[j].kind
    ensures OneName(ino', d)
  {
    hide NameAt, Names, Dots;
    if d in ino && ino[d].kind == Dir {
      assert LinksAt(ino, d) && OneName(ino, d);
      OneNameKept(ino, ino', p, k, 0, d);
    }
  }

  /**
   Removing an ordinary entry of a file, or of an empty directory, keeps the invariant and leaves
   its inode a link too many.
   */
  lemma {:induction false} UnlinkKeeps(ino: Inodes, p: int, k: nat)
    requires Inv(ino) && p in ino && ino[p].kind == Dir && 2 <= k < |ino[p].entries| && ino[p].entries[k].inum != 0
    requires var i := ino[p].entries[k].inum; i in ino ==> ino[i].kind != Dir || IsEmpty(ino[i])
    ensures var i := ino[p].entries[k].inum;
            && i in ino && i != p && 1 <= ino[i].nlink && (ino[i].kind == Dir ==> 1 <= ino[p].nlink)
            && Inv(EntryRemoved(ino, p, k)) && Spare(EntryRemoved(ino, p, k), i)
  {
    hide NameAt, DirAt, EntryAt, Named, Names, Dots, OneName, SameNames, PutEntry, IsEmpty;
    var i := ino[p].entries[k].inum;
    UnlinkTarget(ino, p, k);
    var ino' := EntryRemoved(ino, p, k);
    UnlinkShape(ino, p, k);
    NamesMinus(ino, ino', p, k, i);
    if ino[i].kind == Dir {
      LosesItsName(ino, ino', p, k, i);
    }
    forall d ensures OneName(ino', d) {
      UnlinkOneName(ino, ino', p, k, d);
    }
    forall j ensures LinksAt(ino', j) {
      assert LinksAt(ino, j);
      UnlinkDots(ino, p, k, j);
      if ino[i].kind == Dir && j == p {
        assert Dots(ino', j) == Dots(ino, j) - {i};
      }
    }
    assert LinksAt(ino, i);
    UnlinkDots(ino, p, k, i);
  }

  lemma {:induction false} LosesItsName(ino: Inodes, ino': Inodes, p: int, k: int, i: int)
    requires Inv(ino) && i in ino && ino[i].kind == Dir && NameAt(ino, p, k, i) && 0 < i &&
               SameNames(ino, ino', p, k, 0)
    ensures !Named(ino', i) && 2 <= |ino[i].entries| && ino[i].entries[1].inum == p
  {
    assert OneName(ino, i) && EntryAt(ino, p, k);
    forall q, l ensures !NameAt(ino', q, l, i) {
      assert NameAt(ino, q, l, i) ==> q == p && l == k;
    }
  }

  // ------------------------------------------------------------------
  // Freeing an inode

  lemma {:induction false} FewerNames(ino: Inodes, i: int, j: int)
    ensures Names(ino - {i}, j) <= Names(ino, j) && |Names(ino - {i}, j)| <= |Names(ino, j)|
    ensures Named(ino - {i}, j) ==> Named(ino, j)
    ensures Dots(ino - {i}, j) <= Dots(ino, j) && |Dots(ino - {i}, j)| <= |Dots(ino, j)|
  {
    var ino' := ino - {i};
    forall p, k, d ensures NameAt(ino', p, k, d) ==> NameAt(ino, p, k, d) {
    }
    forall x: (int, int) | x in Names(ino', j) ensures x in Names(ino, j) {
      InNames(ino', x.0, x.1, j);
      InNames(ino, x.0, x.1, j);
    }
    forall d | d in Dots(ino', j) ensures d in Dots(ino, j) {
      var p, k :| NameAt(ino', p, k, d);
      assert NameAt(ino, p, k, d);
    }
    Sets.SubsetSize(Names(ino', j), Names(ino, j));
    Sets.SubsetSize(Dots(ino', j), Dots(ino, j));
  }

  function Reaped(ino: Inodes, refs: map<int, int>, i: int): Inodes {
    if i in ino && ino[i].nlink == 0 && !(i in refs && 0 < refs[i]) then ino - {i} else ino
  }

  lemma {:induction false} SpareStays(ino: Inodes, refs: map<int, int>, d: int, i: int)
    requires Inv(ino) && Spare(ino, i)
    ensures Inv(Reaped(ino, refs, d)) && Spare(Reaped(ino, refs, d), i)
  {
    hide Names, Dots, Inv;
    if Reaped(ino, refs, d) != ino {
      ReapKeeps(ino, d);
      FewerNames(ino, d, i);
    }
  }

  /** An inode without links can go: no entry of any other directory names it. */
  lemma {:induction false} ReapKeeps(ino: Inodes, i: int)
    requires Inv(ino) && i in ino && ino[i].nlink == 0
    ensures Inv(ino - {i}) && !Named(ino, i)
  {
    hide Names, Dots;
    var ino' := ino - {i};
    NoLinksNoNames(ino, i);
    forall p ensures DirAt(ino', p) {
      assert DirAt(ino, p);
    }
    forall p, k ensures EntryAt(ino', p, k) {
      assert EntryAt(ino, p, k) && !NameAt(ino, p, k, i);
    }
    forall d ensures OneName(ino', d) {
      assert OneName(ino, d);
      forall p, k ensures NameAt(ino', p, k, d) ==> NameAt(ino, p, k, d) {
      }
    }
    forall j ensures LinksAt(ino', j) {
      assert LinksAt(ino, j);
      FewerNames(ino, i, j);
    }
  }

  // ------------------------------------------------------------------
  // The bound on the links of a directory

  /** Directories with the same slots naming directories and no more links stay within the bound. */
  lemma {:induction false} BoundFrame(ino: Inodes, ino': Inodes, q: int)
    requires BoundAt(ino, q) && q in ino && q in ino' && ino'[q].kind == ino[q].kind
    requires |ino'[q].entries| <= MAX_ENTRIES && Subs(ino', q) == Subs(ino, q) && ino'[q].nlink <= ino[q].nlink
    ensures BoundAt(ino', q)
  {
  }

  lemma {:induction false} LinkBound(ino: Inodes, i: int, p: int, k: nat, name: string)
    requires Inv(ino) && Bounded(ino) && i in ino && ino[i].kind != Dir && Vacant(ino, p, k) && k < MAX_ENTRIES
    ensures Bounded(LinkedTo(ino, i, p, k, name))
  {
    hide Names, Dots, OneName, DirAt, EntryAt;
    var ino' := LinkedTo(ino, i, p, k, name);
    forall q ensures BoundAt(ino', q) {
      assert BoundAt(ino, q) && LinksAt(ino, 0);
      if q in ino && ino[q].kind == Dir {
        assert Subs(ino', q) == Subs(ino, q);
        BoundFrame(ino, ino', q);
      }
    }
  }

  lemma {:induction false} CreateSubs(ino: Inodes, i: int, kind: Kind, p: int, k: nat, name: string, q: int)
    requires i !in ino && 0 < i && Vacant(ino, p, k) && 2 <= k && 0 !in ino && q in ino
    requires forall l :: 2 <= l < |ino[q].entries| ==> ino[q].entries[l].inum != i
    ensures var subs := Subs(ino, q);
            Subs(Created(ino, i, kind, p, k, name), q) == if q == p && kind == Dir then subs + {k} else subs
    ensures p == q ==> k !in Subs(ino, q)
  {
  }

  lemma {:induction false} CreateBound(ino: Inodes, i: int, kind: Kind, p: int, k: nat, name: string, q: int)
    requires Inv(ino) && Bounded(ino) && i !in ino && 0 < i && Vacant(ino, p, k) && k < MAX_ENTRIES &&
               ino[p].nlink < SHORT_MAX
    ensures BoundAt(Created(ino, i, kind, p, k, name), q)
  {
    hide Inv, Bounded, Subs;
    var ino' := Created(ino, i, kind, p, k, name);
    VacantSlot(ino, p, k);
    if q in ino && ino[q].kind == Dir {
      BoundOf(ino, q);
      EntriesExist(ino, q);
      CreateSubs(ino, i, kind, p, k, name, q);
    } else if q == i && kind == Dir {
      assert ino'[q] == NewNode(i, kind, p);
    }
  }

  lemma {:induction false} EntriesExist(ino: Inodes, q: int)
    requires Inv(ino) && q in ino && ino[q].kind == Dir
    ensures 0 !in ino && forall l :: 2 <= l < |ino[q].entries| ==>
              ino[q].entries[l].inum == 0 || ino[q].entries[l].inum in ino
  {
    hide Names, Dots;
    assert LinksAt(ino, 0);
    forall l | 2 <= l < |ino[q].entries| ensures ino[q].entries[l].inum == 0 || ino[q].entries[l].inum in ino {
      assert EntryAt(ino, q, l);
    }
  }

  lemma {:induction false} BoundOf(ino: Inodes, q: int)
    requires Bounded(ino)
    ensures BoundAt(ino, q)
  {
  }

  lemma {:induction false} UnlinkBound(ino: Inodes, p: int, k: nat)
    requires Inv(ino) && Bounded(ino) && p in ino && ino[p].kind == Dir && 2 <= k < |ino[p].entries|
    requires var i := ino[p].entries[k].inum; i in ino && i != p && (ino[i].kind == Dir ==> 1 <= ino[p].nlink)
    ensures Bounded(EntryRemoved(ino, p, k))
  {
    hide Names, Dots, OneName, DirAt, EntryAt;
    var i, ino' := ino[p].entries[k].inum, EntryRemoved(ino, p, k);
    forall q ensures BoundAt(ino', q) {
      assert BoundAt(ino, q) && LinksAt(ino, 0);
      if q == p && ino[i].kind == Dir {
        assert Subs(ino, q) == Subs(ino', q) + {k};
      } else if q in ino && ino[q].kind == Dir {
        assert Subs(ino', q) == Subs(ino, q);
        BoundFrame(ino, ino', q);
      }
    }
  }

  lemma {:induction false} DropBound(ino: Inodes, i: int)
    requires Bounded(ino) && i in ino
    ensures Bounded(WithLinks(ino, i, ino[i].nlink - 1))
  {
    var ino' := WithLinks(ino, i, ino[i].nlink - 1);
    forall q ensures BoundAt(ino', q) {
      assert BoundAt(ino, q);
      if q in ino && ino[q].kind == Dir {
        assert Subs(ino', q) == Subs(ino, q);
        BoundFrame(ino, ino', q);
      }
    }
  }

  lemma {:induction false} ReapBound(ino: Inodes, refs: map<int, int>, i: int)
    requires Inv(ino) && Bounded(ino)
    ensures Bounded(Reaped(ino, refs, i))
  {
    hide Names, Dots, OneName;
    var ino' := Reaped(ino, refs, i);
    if ino' != ino {
      NoLinksNoNames(ino, i);
      forall q ensures BoundAt(ino', q) {
        assert BoundAt(ino, q);
        if q in ino' && ino[q].kind == Dir {
          assert Subs(ino', q) == Subs(ino, q) by {
            forall l | 2 <= l < |ino[q].entries| ensures ino[q].entries[l].inum != i {
              assert !NameAt(ino, q, l, i);
            }
          }
          BoundFrame(ino, ino', q);
        }
      }
    }
  }

  // ------------------------------------------------------------------
  // Links that nothing accounts for

  /** The links of an inode beyond its names and the ".." entries of named directories that lead to it. */
  ghost function Slack(ino: Inodes, i: int): int {
    if i in ino then ino[i].nlink - |Names(ino, i)| - |Dots(ino, i)| - Extra(i) else 0
  }

  /** Every inode there before and after has as many such links as before. */
  ghost predicate KeepsSlack(ino: Inodes, ino': Inodes) {
    forall j :: j in ino && j in ino' ==> Slack(ino', j) == Slack(ino, j)
  }

  /** A new inode of any kind has that kind and one link, which is its name; no other count goes wrong. */
  lemma {:induction false} CreateCounts(ino: Inodes, i: int, kind: Kind, p: int, k: nat, name: string)
    requires Inv(ino) && i !in ino && 0 < i && Vacant(ino, p, k) && Absent(ino, p, name)
    requires kind == Dir ==> ino[p].nlink < SHORT_MAX
    ensures var ino' := Created(ino, i, kind, p, k, name);
            && i in ino' && ino'[i].kind == kind && ino'[i].nlink == 1 && Names(ino', i) == {(p, k)}
            && Slack(ino', i) == 0 && KeepsSlack(ino, ino')
  {
    hide NameAt, DirAt, EntryAt, Named, Names, Dots, OneName, SameNames, Absent, PutEntry;
    var ino' := Created(ino, i, kind, p, k, name);
    VacantSlot(ino, p, k);
    CreateShape(ino, i, kind, p, k, name);
    FreshUnnamed(ino, i);
    NamesPlus(ino, ino', p, k, i);
    CreateDots(ino, i, kind, p, k, name, i);
    forall j | j in ino && j in ino' ensures Slack(ino', j) == Slack(ino, j) {
      assert LinksAt(ino, j);
      CreateDots(ino, i, kind, p, k, name, j);
    }
  }

  lemma {:induction false} LinkCounts(ino: Inodes, i: int, p: int, k: nat, name: string)
    requires Inv(ino) && i in ino && ino[i].kind != Dir && ino[i].nlink < SHORT_MAX && Vacant(ino, p, k) &&
               Absent(ino, p, name)
    ensures KeepsSlack(ino, LinkedTo(ino, i, p, k, name))
  {
    hide NameAt, DirAt, EntryAt, Named, Names, Dots, OneName, SameNames, Absent, PutEntry;
    var ino' := LinkedTo(ino, i, p, k, name);
    assert LinksAt(ino, i);
    VacantSlot(ino, p, k);
    LinkShape(ino, i, p, k, name);
    NamesPlus(ino, ino', p, k, i);
    forall j | j in ino && j in ino' ensures Slack(ino', j) == Slack(ino, j) {
      assert LinksAt(ino, j);
      LinkKeepsDots(ino, i, p, k, name, j);
    }
  }

  /** The entry goes and the inode loses a link for it. */
  lemma {:induction false} UnlinkCounts(ino: Inodes, p: int, k: nat)
    requires Inv(ino) && p in ino && ino[p].kind == Dir && 2 <= k < |ino[p].entries| && ino[p].entries[k].inum != 0
    requires var i := ino[p].entries[k].inum; i in ino ==> ino[i].kind != Dir || IsEmpty(ino[i])
    ensures var i := ino[p].entries[k].inum;
            && i in ino && i != p
            && KeepsSlack(ino, WithLinks(EntryRemoved(ino, p, k), i, ino[i].nlink - 1))
  {
    hide NameAt, DirAt, EntryAt, Named, Names, Dots, OneName, SameNames, PutEntry, IsEmpty;
    var i := ino[p].entries[k].inum;
    UnlinkTarget(ino, p, k);
    var ino1 := EntryRemoved(ino, p, k);
    var ino2 := WithLinks(ino1, i, ino[i].nlink - 1);
    UnlinkShape(ino, p, k);
    NamesMinus(ino, ino1, p, k, i);
    if ino[i].kind == Dir {
      LosesItsName(ino, ino1, p, k, i);
    }
    SameEntries(ino1, ino2);
    forall j | j in ino && j in ino2 ensures Slack(ino2, j) == Slack(ino, j) {
      assert LinksAt(ino, j);
      UnlinkDots(ino, p, k, j);
      if ino[i].kind == Dir && j == p {
        assert Dots(ino1, j) == Dots(ino, j) - {i};
      }
    }
  }

  /** Nothing is named by an inode: it is no directory, or an empty one. */
  predicate NamesNothing(n: Node) {
    n.kind == Dir ==> IsEmpty(n)
  }

  /**
   Freeing an inode leaves every other count right exactly when the inode names nothing: what
   a removed directory still names keeps its link and has no name.
   */
  lemma {:induction false} ReapCounts(ino: Inodes, i: int)
    requires Inv(ino) && i in ino && ino[i].nlink == 0
    ensures KeepsSlack(ino, ino - {i}) <==> NamesNothing(ino[i])
  {
    hide Names, Dots, OneName, DirAt;
    var ino' := ino - {i};
    NoLinksNoNames(ino, i);
    if NamesNothing(ino[i]) {
      forall p, k, j | 0 < j ensures NameAt(ino', p, k, j) <==> NameAt(ino, p, k, j) {
      }
      forall j | j in ino' ensures Slack(ino', j) == Slack(ino, j) {
        assert LinksAt(ino, j);
        SameCounts(ino, ino', i, j);
      }
    } else {
      var k :| 2 <= k < |ino[i].entries| && ino[i].entries[k].inum != 0;
      var j := ino[i].entries[k].inum;
      assert EntryAt(ino, i, k) && NameAt(ino, i, k, j);
      FewerNames(ino, i, j);
      InNames(ino, i, k, j);
      InNames(ino', i, k, j);
      Sets.SubsetSize(Names(ino', j), Names(ino, j) - {(i, k)});
      assert j != i && Slack(ino', j) > Slack(ino, j);
    }
  }

  lemma {:induction false} SameCounts(ino: Inodes, ino': Inodes, i: int, j: int)
    requires Inv(ino) && ino' == ino - {i} && 0 < j && !Named(ino, i)
    requires forall p, k, d :: 0 < d ==> (NameAt(ino', p, k, d) <==> NameAt(ino, p, k, d))
    ensures Names(ino', j) == Names(ino, j) && Dots(ino', j) == Dots(ino, j)
  {
    hide OneName, DirAt, EntryAt, NameAt;
    forall x: (int, int) ensures x in Names(ino', j) <==> x in Names(ino, j) {
      InNames(ino', x.0, x.1, j);
      InNames(ino, x.0, x.1, j);
    }
    forall d ensures DotAt(ino', d, j) <==> DotAt(ino, d, j) {
      assert LinksAt(ino, d);
    }
  }

  // ------------------------------------------------------------------
  // The calls

  predicate HasRoom(es: seq<Entry>) {
    |es| < MAX_ENTRIES || exists k :: 0 <= k < |es| && es[k].inum == 0
  }

  /** ialloc finds an inode. */
  predicate SomeFree(ino: Inodes, ninodes: nat) {
    exists i :: 1 <= i < ninodes && i !in ino
  }

  /** Counts fit a short, and an inode without links is there only while something refers to it. */
  predicate InUse(ino: Inodes, refs: map<int, int>) {
    forall i :: i in ino ==> ino[i].nlink <= SHORT_MAX && (ino[i].nlink == 0 ==> i in refs && 0 < refs[i])
  }

  class Namespace {
    const ninodes: nat
    var ino: Inodes
    var refs: map<int, int>

    ghost predicate Valid()
      reads this
    {
      Inv(ino) && Bounded(ino) && InUse(ino, refs)
    }

    /** The image mkfs starts from: a root directory that is its own parent. */
    constructor (n: nat)
      ensures Valid() && ninodes == n &&
                ino == map[ROOTINO := Node(Dir, 1, [Entry(ROOTINO, "."), Entry(ROOTINO, "..")])] && refs == map[]
    {
      ninodes := n;
      ino := map[ROOTINO := Node(Dir, 1, [Entry(ROOTINO, "."), Entry(ROOTINO, "..")])];
      refs := map[];
      new;
      RootOnly(ino);
    }

    /** The first entry in use with the given name. */
    method DirLookup(dp: int, name: string) returns (found: bool, k: nat)
      requires dp in ino && ino[dp].kind == Dir
      ensures found <==> !Absent(ino, dp, name)
      ensures found ==> FirstNamed(ino, dp, name, k)
    {
      k := 0;
      while k < |ino[dp].entries|
        invariant k <= |ino[dp].entries|
        invariant forall j :: 0 <= j < k && ino[dp].entries[j].inum != 0 ==> ino[dp].entries[j].name != name
      {
        var de := ino[dp].entries[k];
        if de.inum != 0 && name == de.name {
          return true, k;
        }
        k := k + 1;
      }
      found := false;
    }

    /** Writes an entry into the first empty slot, or at the end, unless the name is taken; a full directory panics. */
    method DirLink(dp: int, name: string, inum: int) returns (o: Outcome, k: nat)
      requires dp in ino && ino[dp].kind == Dir
      modifies `ino
      ensures o == Refused <==> !Absent(old(ino), dp, name)
      ensures o == Panic <==> Absent(old(ino), dp, name) && !HasRoom(old(ino)[dp].entries)
      ensures o != Done ==> ino == old(ino)
      ensures o == Done ==> FirstVacant(old(ino), dp, k) && (|old(ino)[dp].entries| <= MAX_ENTRIES ==> k < MAX_ENTRIES)
      ensures o == Done ==> ino == WithEntry(old(ino), dp, k, Entry(inum, name))
    {
      var found;
      found, k := DirLookup(dp, name);
      if found {
        return Refused, k;
      }
      k := 0;
      while k < |ino[dp].entries|
        invariant k <= |ino[dp].entries| && ino == old(ino)
        invariant forall j :: 0 <= j < k ==> ino[dp].entries[j].inum != 0
      {
        if ino[dp].entries[k].inum == 0 {
          break;
        }
        k := k + 1;
      }
      if k == |ino[dp].entries| && MAX_ENTRIES <= k {
        return Panic, k;
      }
      ino := WithEntry(ino, dp, k, Entry(inum, name));
      o := Done;
    }

    method IsDirEmpty(dp: int) returns (r: bool)
      requires dp in ino
      ensures r <==> IsEmpty(ino[dp])
    {
      var k := 2;
      while k < |ino[dp].entries|
        invariant 2 <= k && forall j :: 2 <= j < k && j < |ino[dp].entries| ==> ino[dp].entries[j].inum == 0
      {
        if ino[dp].entries[k].inum != 0 {
          return false;
        }
        k := k + 1;
      }
      r := true;
    }

    /** The lowest free inode number; 0 stands for the panic when there is none. */
    method Ialloc() returns (inum: int)
      ensures inum == 0 <==> forall i :: 1 <= i < ninodes ==> i in ino
      ensures inum != 0 ==> 1 <= inum < ninodes && inum !in ino && forall i :: 1 <= i < inum ==> i in ino
    {
      inum := 1;
      while inum < ninodes
        invariant 1 <= inum && forall i :: 1 <= i < inum && i < ninodes ==> i in ino
      {
        if inum !in ino {
          return;
        }
        inum := inum + 1;
      }
      inum := 0;
    }

    /** A reference is taken, as by opening a file or entering a directory. */
    method Iget(i: int)
      requires Valid() && i in ino
      modifies `refs
      ensures Valid() && refs == OneMore(old(refs), i)
    {
      refs := OneMore(refs, i);
    }

    /** The last part of iput: an inode without links and without references is freed, and then nothing names it. */
    method Reap(i: int)
      requires Inv(ino) && Bounded(ino)
      modifies `ino
      ensures Inv(ino) && Bounded(ino) && ino == Reaped(old(ino), refs, i)
      ensures ino != old(ino) ==> !Named(old(ino), i)
    {
      hide Inv, Bounded;
      ReapBound(ino, refs, i);
      if i in ino && ino[i].nlink == 0 && !(i in refs && 0 < refs[i]) {
        ReapKeeps(ino, i);
        ino := ino - {i};
      }
    }

    /** A reference is dropped. */
    method Iput(i: int)
      requires Valid() && i in refs && 0 < refs[i]
      modifies this
      ensures Valid() && refs == old(refs)[i := old(refs)[i] - 1]
      ensures ino == Reaped(old(ino), refs, i) && (ino != old(ino) ==> !Named(old(ino), i))
      ensures KeepsSlack(old(ino), ino) <==> ino == old(ino) || NamesNothing(old(ino)[i])
    {
      hide Inv, Bounded, Named, Slack, KeepsSlack, NamesNothing;
      SameSlack(ino);
      if i in ino && ino[i].nlink == 0 {
        ReapCounts(ino, i);
      }
      refs := refs[i := refs[i] - 1];
      Reap(i);
    }

    /** Creates name in directory dp, or finds it there, and takes a reference to the inode it returns. */
    method Create(dp: int, name: string, kind: Kind) returns (o: Outcome, r: int)
      requires Valid() && dp in ino && ino[dp].kind == Dir && |name| <= DIRSIZ
      modifies `ino, `refs
      ensures !Absent(old(ino), dp, name) ==> ino == old(ino) && Opens(ino, dp, name, kind, o, r)
      ensures Absent(old(ino), dp, name) ==>
                (o == if HasRoom(old(ino)[dp].entries) && SomeFree(old(ino), ninodes) then Done else Panic)
      ensures o == Done && Absent(old(ino), dp, name) ==>
                0 < r < ninodes && r !in old(ino) && forall i :: 1 <= i < r ==> i in old(ino)
      ensures o == Done && Absent(old(ino), dp, name) ==> CreatedIn(old(ino), ino, r, kind, dp, name)
      ensures o == Done && Absent(old(ino), dp, name) ==>
                r in ino && ino[r].kind == kind && ino[r].nlink == 1 && Slack(ino, r) == 0 && KeepsSlack(old(ino), ino)
      ensures o == Done && name != ".." ==> r in ino && Named(ino, r)
      ensures o != Panic ==> Valid()
      ensures refs == if o == Done then OneMore(old(refs), r) else old(refs)
    {
      hide Inv, Named, Bounded, Slack, KeepsSlack;
      var found, k := DirLookup(dp, name);
      if found {
        r := ino[dp].entries[k].inum;
        if r !in ino {
          return Panic, r;
        }
        FoundFile(ino, dp, k);
        if kind == File && ino[r].kind != Dir {
          refs := OneMore(refs, r);
          return Done, r;
        }
        return Refused, r;
      }
      o, r := CreateNew(dp, name, kind);
      if o == Done {
        refs := OneMore(refs, r);
      }
    }

    /** The part of create for a name that is not there. */
    method CreateNew(dp: int, name: string, kind: Kind) returns (o: Outcome, r: int)
      requires Valid() && dp in ino && ino[dp].kind == Dir && Absent(ino, dp, name)
      modifies `ino
      ensures o == if HasRoom(old(ino)[dp].entries) && SomeFree(old(ino), ninodes) then Done else Panic
      ensures o == Done ==> Valid() && 0 < r < ninodes && r !in old(ino) && forall i :: 1 <= i < r ==> i in old(ino)
      ensures o == Done ==> r in ino && Named(ino, r) && CreatedIn(old(ino), ino, r, kind, dp, name)
      ensures o == Done ==> ino[r].kind == kind && ino[r].nlink == 1 && Slack(ino, r) == 0 && KeepsSlack(old(ino), ino)
    {
      hide Inv, Names, Dots, Named, Bounded, Slack, KeepsSlack;
      ghost var ino0 := ino;
      r := Ialloc();
      if r == 0 {
        return Panic, r;
      }
      ino := ino[r := Node(kind, 1, [])];
      if kind == Dir {
        ino := WithLinks(ino, dp, IncShort(ino[dp].nlink));
        ino := WithEntry(ino, r, 0, Entry(r, "."));
        ino := WithEntry(ino, r, 1, Entry(dp, ".."));
      }
      var k;
      o, k := DirLink(dp, name, r);
      if o == Panic {
        return;
      }
      assert ino[r] == NewNode(r, kind, dp);
      assert ino == Created(ino0, r, kind, dp, k, name);
      BoundOf(ino0, dp);
      LinksPositive(ino0, dp);
      CreateKeeps(ino0, r, kind, dp, k, name);
      CreateNamed(ino0, r, kind, dp, k, name);
      CountFits(ino0, dp);
      CreateCounts(ino0, r, kind, dp, k, name);
    }

    /**
     Gives the file ip the further name in directory dp.  dp is 0 when the new path
     has no parent directory, and the count taken in advance is given back.
     */
    method Link(ip: int, dp: int, name: string) returns (o: Outcome)
      requires Valid() && ip in ino && |name| <= DIRSIZ && (dp == 0 || (dp in ino && ino[dp].kind == Dir))
      modifies `ino
      ensures o == Refused <==> old(ino)[ip].kind == Dir || dp == 0 || !Absent(old(ino), dp, name)
      ensures o == Panic ==> !HasRoom(old(ino)[dp].entries)
      ensures o == Refused ==> ino == old(ino) && Valid()
      ensures o == Done ==> HasRoom(old(ino)[dp].entries) && LinkedIn(old(ino), ino, ip, dp, name)
      ensures o == Done ==> (Valid() <==> old(ino)[ip].nlink < SHORT_MAX)
      ensures o == Done && old(ino)[ip].nlink < SHORT_MAX ==> KeepsSlack(old(ino), ino)
    {
      hide Inv, Names, Dots, Named, Bounded, Slack, KeepsSlack;
      ghost var ino0 := ino;
      LinksPositive(ino0, ip);
      if ino[ip].kind == Dir {
        return Refused;
      }
      ino := WithLinks(ino, ip, IncShort(ino[ip].nlink));
      if dp != 0 {
        var k;
        o, k := DirLink(dp, name, ip);
        if o == Done {
          assert ino == LinkedTo(ino0, ip, dp, k, name);
          BoundOf(ino0, dp);
          LinkExactly(ino0, ip, dp, k, name);
          LinkBound(ino0, ip, dp, k, name);
          if ino0[ip].nlink < SHORT_MAX {
            LinkCounts(ino0, ip, dp, k, name);
          }
        }
        if o != Refused {
          return;
        }
      }
      ino := WithLinks(ino, ip, DecShort(ino[ip].nlink));
      assert ino == ino0;
      o := Refused;
    }

    /**
     Removes name from directory dp.  The inode it named always has a link, so the
     source's panic is not reached; it is freed if that was its last link and
     nothing refers to it.
     */
    method Unlink(dp: int, name: string) returns (ok: bool, ghost k: nat)
      requires Valid() && dp in ino && ino[dp].kind == Dir && |name| <= DIRSIZ
      modifies `ino
      ensures Valid()
      ensures !ok ==> ino == old(ino)
      ensures !Reserved(name) && !Absent(old(ino), dp, name) ==> FirstNamed(old(ino), dp, name, k)
      ensures ok <==> !Reserved(name) && !Absent(old(ino), dp, name) && !NotEmptyDir(old(ino), dp, k)
      ensures ok ==> UnlinkedFrom(old(ino), ino, refs, dp, k)
      ensures dp in ino ==> KeepsSlack(old(ino), ino)
    {
      hide Inv, Names, Dots, Named, EntryRemoved, Reaped, Spare, Bounded, Slack, KeepsSlack;
      ghost var ino0 := ino;
      SameSlack(ino0);
      k := 0;
      if name == "." || name == ".." {
        return false, k;
      }
      var found, off := DirLookup(dp, name);
      k := off;
      if !found {
        return false, k;
      }
      OrdinaryEntry(ino, dp, off);
      UnlinkTarget(ino, dp, off);
      var ip := ino[dp].entries[off].inum;
      assert 1 <= ino[ip].nlink;
      if ino[ip].kind == Dir {
        var empty := IsDirEmpty(ip);
        if !empty {
          return false, k;
        }
      }
      UnlinkKeeps(ino, dp, off);
      UnlinkBound(ino, dp, off);
      RemovedIs(ino, dp, off);
      ino := WithEntry(ino, dp, off, Entry(0, ""));
      if ino[ip].kind == Dir {
        ino := WithLinks(ino, dp, DecShort(ino[dp].nlink));
      }
      ghost var ino1 := ino;
      SpareStays(ino1, refs, dp, ip);
      Reap(dp);
      ghost var ino2 := ino;
      SpareNode(ino1, refs, dp, ip);
      DropLink(ino2, ip);
      DropBound(ino2, ip);
      ino := WithLinks(ino, ip, DecShort(ino[ip].nlink));
      Reap(ip);
      LinksPositive(ino0, dp);
      AllInUse(ino0, refs, dp, off);
      if dp in ino {
        UnlinkedSlack(ino0, ino, refs, dp, off);
      }
      ok := true;
    }
  }

  function OneMore(refs: map<int, int>, i: int): map<int, int> {
    refs[i := (if i in refs && 0 < refs[i] then refs[i] else 0) + 1]
  }

  lemma {:induction false} CreateNamed(ino: Inodes, i: int, kind: Kind, p: int, k: nat, name: string)
    requires Inv(ino) && i !in ino && 0 < i && Vacant(ino, p, k)
    ensures i in Created(ino, i, kind, p, k, name) && Named(Created(ino, i, kind, p, k, name), i)
  {
    hide Inv, Names, Dots;
    VacantSlot(ino, p, k);
    assert NameAt(Created(ino, i, kind, p, k, name), p, k, i);
  }

  lemma {:induction false} FoundFile(ino: Inodes, dp: int, k: nat)
    requires Inv(ino) && dp in ino && ino[dp].kind == Dir && k < |ino[dp].entries| && ino[dp].entries[k].inum != 0
    ensures var e := ino[dp].entries[k]; e.inum in ino && ino[e.inum].kind != Dir && e.name != ".." ==>
              Named(ino, e.inum)
  {
    assert DirAt(ino, dp);
    if k >= 2 {
      assert NameAt(ino, dp, k, ino[dp].entries[k].inum);
    }
  }

  lemma {:induction false} LinksPositive(ino: Inodes, i: int)
    requires Inv(ino) && i in ino
    ensures 0 <= ino[i].nlink
  {
    assert LinksAt(ino, i);
  }

  lemma {:induction false} OrdinaryEntry(ino: Inodes, dp: int, k: nat)
    requires Inv(ino) && dp in ino && ino[dp].kind == Dir && k < |ino[dp].entries|
    ensures ino[dp].entries[k].name != "." && ino[dp].entries[k].name != ".." ==> 2 <= k
  {
    assert DirAt(ino, dp);
  }

  lemma {:induction false} RemovedIs(ino: Inodes, p: int, k: nat)
    requires p in ino && k < |ino[p].entries| && ino[p].entries[k].inum in ino && ino[p].entries[k].inum != p
    ensures var ino1 := WithEntry(ino, p, k, Entry(0, ""));
            EntryRemoved(ino, p, k) == if ino[ino[p].entries[k].inum].kind == Dir
                then WithLinks(ino1, p, DecShort(ino[p].nlink)) else ino1
  {
  }

  lemma {:induction false} SpareNode(ino: Inodes, refs: map<int, int>, d: int, i: int)
    requires Spare(Reaped(ino, refs, d), i)
    ensures i in ino && i in Reaped(ino, refs, d) && Reaped(ino, refs, d)[i] == ino[i] && 0 < ino[i].nlink
  {
    hide Names, Dots;
  }

  /**
   The state an unlink call leaves: the entry and the directory's link for it are gone,
   the directory is freed if that was all that kept it, then the inode loses its
   link and is freed if that was all that kept it.
   */
  ghost predicate UnlinkedFrom(ino: Inodes, ino': Inodes, refs: map<int, int>, dp: int, k: nat) {
    && dp in ino && k < |ino[dp].entries|
    && var i := ino[dp].entries[k].inum;
       && i in ino && i != dp && (ino[i].kind == Dir ==> IsEmpty(ino[i]))
       && var ino2 := Reaped(EntryRemoved(ino, dp, k), refs, dp);
          && i in ino2 && ino2[i].nlink == ino[i].nlink
          && ino' == Reaped(WithLinks(ino2, i, ino[i].nlink - 1), refs, i)
  }

  lemma SameSlack(ino: Inodes)
    ensures KeepsSlack(ino, ino)
  {
  }

  lemma {:induction false} UnlinkedSlack(ino: Inodes, ino': Inodes, refs: map<int, int>, dp: int, k: nat)
    requires Inv(ino) && UnlinkedFrom(ino, ino', refs, dp, k) && dp in ino' && ino[dp].kind == Dir && 2 <= k
    requires ino[dp].entries[k].inum != 0
    ensures KeepsSlack(ino, ino')
  {
    hide Inv, Slack, EntryRemoved;
    var i := ino[dp].entries[k].inum;
    UnlinkCounts(ino, dp, k);
    UnlinkKeeps(ino, dp, k);
    RemovedIs(ino, dp, k);
    var ino1 := EntryRemoved(ino, dp, k);
    assert Reaped(ino1, refs, dp) == ino1;
    var ino3 := WithLinks(ino1, i, ino[i].nlink - 1);
    DropLink(ino1, i);
    if ino' != ino3 {
      ReapCounts(ino3, i);
    }
  }

  lemma {:induction false} AllInUse(ino: Inodes, refs: map<int, int>, dp: int, k: nat)
    requires InUse(ino, refs) && dp in ino && k < |ino[dp].entries| && 0 <= ino[dp].nlink
    requires var i := ino[dp].entries[k].inum;
               i in ino && i != dp && 1 <= ino[i].nlink && (ino[i].kind == Dir ==> 1 <= ino[dp].nlink)
    ensures var i, ino2 := ino[dp].entries[k].inum, Reaped(EntryRemoved(ino, dp, k), refs, dp);
            i in ino2 && InUse(Reaped(WithLinks(ino2, i, ino[i].nlink - 1), refs, i), refs)
  {
  }

  /**
   Opening what is there: a file is returned to a caller that wants a file, anything else is refused.
   The panic is ilock's, on a ".." that leads to an inode freed meanwhile.
   */
  ghost predicate Opens(ino: Inodes, dp: int, name: string, kind: Kind, o: Outcome, r: int) {
    exists k: nat :: FirstNamed(ino, dp, name, k) && r == ino[dp].entries[k].inum
                     && o == if r !in ino then Panic else if kind == File && ino[r].kind != Dir then Done else Refused
  }

  predicate Reserved(name: string) {
    name == "." || name == ".."
  }

  predicate NotEmptyDir(ino: Inodes, dp: int, k: nat) {
    dp in ino && k < |ino[dp].entries| && ino[dp].entries[k].inum in ino
    && ino[ino[dp].entries[k].inum].kind == Dir && !IsEmpty(ino[ino[dp].entries[k].inum])
  }

  ghost predicate LinkedIn(ino: Inodes, ino': Inodes, i: int, p: int, name: string)
    requires i in ino && p in ino && i != p
  {
    exists k: nat :: FirstVacant(ino, p, k) && ino' == LinkedTo(ino, i, p, k, name)
  }

  ghost predicate CreatedIn(ino: Inodes, ino': Inodes, i: int, kind: Kind, p: int, name: string)
    requires i !in ino && p in ino
  {
    exists k: nat :: FirstVacant(ino, p, k) && ino' == Created(ino, i, kind, p, k, name)
  }

  lemma {:induction false} RootOnly(ino: Inodes)
    requires ino == map[ROOTINO := Node(Dir, 1, [Entry(ROOTINO, "."), Entry(ROOTINO, "..")])]
    ensures Inv(ino) && Bounded(ino)
  {
    forall i ensures !Named(ino, i) && Names(ino, i) == {} {
      NamedNotEmpty(ino, i);
    }
    forall i ensures LinksAt(ino, i) {
      assert Dots(ino, i) == {};
    }
  }

  // ------------------------------------------------------------------
  // Calls that wrap a link count

  function LinkName(k: nat): (s: string)
    requires k < MAX_ENTRIES
    ensures |s| == 3
  {
    ['n', (k / 256) as char, (k % 256) as char]
  }

  function LinkEntries(n: nat): (es: seq<Entry>)
    requires n <= MAX_ENTRIES
    ensures |es| == n
  {
    seq(n, k requires 0 <= k < n => Entry(2, LinkName(k)))
  }

  /** A root with the file 2 and the directory 3, and a and b further names of the file in them. */
  function TwoDirs(a: nat, b: nat): Inodes
    requires a <= MAX_ENTRIES && b <= MAX_ENTRIES
  {
    map[1 := Node(Dir, 2, [Entry(1, "."), Entry(1, ".."), Entry(2, "f"), Entry(3, "d")] + LinkEntries(a)),
        2 := Node(File, 1 + a + b, []),
        3 := Node(Dir, 1, [Entry(3, "."), Entry(1, "..")] + LinkEntries(b))]
  }

  lemma {:induction false} NextName(es: seq<Entry>, n: nat)
    requires n < MAX_ENTRIES && (forall k :: 0 <= k < |es| ==> |es[k].name| < 3 && es[k].inum != 0)
    ensures forall k :: 0 <= k < |es| + n ==> var e := (es + LinkEntries(n))[k]; e.inum != 0 && e.name != LinkName(n)
    ensures es + LinkEntries(n) + [Entry(2, LinkName(n))] == es + LinkEntries(n + 1)
  {
    forall k | 0 <= k < n ensures LinkName(k) != LinkName(n) {
      assert LinkName(k)[1] == LinkName(n)[1] && LinkName(k)[2] == LinkName(n)[2] ==> k == n;
    }
  }

  lemma {:induction false} LinkMore(a: nat, b: nat, p: int, k: nat)
    requires a < MAX_ENTRIES && b < MAX_ENTRIES && (p == 1 || p == 3)
    ensures var n := if p == 1 then a else b;
            && Absent(TwoDirs(a, b), p, LinkName(n))
            && (FirstVacant(TwoDirs(a, b), p, k) && 1 + a + b < SHORT_MAX ==>
                  LinkedTo(TwoDirs(a, b), 2, p, k, LinkName(n)) == if p == 1 then TwoDirs(a + 1, b)
                      else TwoDirs(a, b + 1))
  {
    hide LinkName, LinkEntries;
    NextName([Entry(1, "."), Entry(1, ".."), Entry(2, "f"), Entry(3, "d")], a);
    NextName([Entry(3, "."), Entry(1, "..")], b);
  }

  method LinkOnce(ns: Namespace, ghost a: nat, ghost b: nat, p: int, n: nat)
    requires ns.Valid() && a < MAX_ENTRIES && b < MAX_ENTRIES && ns.ino == TwoDirs(a, b) && 1 + a + b < SHORT_MAX
    requires (p == 1 && n == a < MAX_ENTRIES - 4) || (p == 3 && n == b < MAX_ENTRIES - 2)
    modifies ns
    ensures ns.Valid() && ns.ino == if p == 1 then TwoDirs(a + 1, b) else TwoDirs(a, b + 1)
  {
    hide Namespace.Valid, LinkName, LinkEntries;
    LinkMore(a, b, p, 0);
    var o := ns.Link(2, p, LinkName(n));
    assert o == Done;
    ghost var k: nat :| FirstVacant(old(ns.ino), p, k) && ns.ino == LinkedTo(old(ns.ino), 2, p, k, LinkName(n));
    LinkMore(a, b, p, k);
  }

  const FIRST_FILE: Inodes :=
    map[1 := Node(Dir, 1, [Entry(1, "."), Entry(1, ".."), Entry(2, "f")]), 2 := Node(File, 1, [])]

  lemma {:induction false} FileThenDir(ino: Inodes, k: nat)
    requires ino == map[1 := Node(Dir, 1, [Entry(1, "."), Entry(1, "..")])]
    ensures FirstVacant(ino, 1, k) ==> Created(ino, 2, File, 1, k, "f") == FIRST_FILE
    ensures FirstVacant(FIRST_FILE, 1, k) ==> Created(FIRST_FILE, 3, Dir, 1, k, "d") == TwoDirs(0, 0)
  {
    if FirstVacant(ino, 1, k) {
      assert k == 2;
      assert Created(ino, 2, File, 1, k, "f")[1].entries == FIRST_FILE[1].entries;
    }
    if FirstVacant(FIRST_FILE, 1, k) {
      assert k == 3;
      assert Created(FIRST_FILE, 3, Dir, 1, k, "d")[1].entries == TwoDirs(0, 0)[1].entries;
      assert Created(FIRST_FILE, 3, Dir, 1, k, "d")[3].entries == TwoDirs(0, 0)[3].entries;
    }
  }

  /** A file and a directory in the root of a new image. */
  method TwoCreated() returns (ns: Namespace)
    ensures fresh(ns) && ns.Valid() && ns.ino == TwoDirs(0, 0)
  {
    hide Inv, Bounded, Named, TwoDirs, Created;
    ns := new Namespace(10);
    ghost var ino0 := ns.ino;
    assert 2 !in ino0;
    var o, r := ns.Create(1, "f", File);
    ghost var k: nat :| FirstVacant(ino0, 1, k) && ns.ino == Created(ino0, r, File, 1, k, "f");
    FileThenDir(ino0, k);
    assert 3 !in ns.ino;
    o, r := ns.Create(1, "d", Dir);
    k :| FirstVacant(FIRST_FILE, 1, k) && ns.ino == Created(FIRST_FILE, r, Dir, 1, k, "d");
    FileThenDir(ino0, k);
  }

  /**
   Two directories have room for enough names of one file: the next link leaves a named file with a
   negative count.
   */
  method LinkWraps() returns (ns: Namespace)
    ensures 2 in ns.ino && Named(ns.ino, 2) && ns.ino[2].nlink == -SHORT_MAX - 1 && !Inv(ns.ino)
  {
    hide Inv, Bounded, Named, LinkName, LinkEntries;
    ns := TwoCreated();
    var a := 0;
    while a < MAX_ENTRIES - 4
      invariant a <= MAX_ENTRIES - 4 && ns.Valid() && ns.ino == TwoDirs(a, 0)
    {
      LinkOnce(ns, a, 0, 1, a);
      a := a + 1;
    }
    var b := 0;
    while 1 + a + b < SHORT_MAX
      invariant 1 + a + b <= SHORT_MAX && ns.Valid() && ns.ino == TwoDirs(a, b)
    {
      LinkOnce(ns, a, b, 3, b);
      b := b + 1;
    }
    ghost var ino := ns.ino;
    LinkMore(a, b, 3, 0);
    var o := ns.Link(2, 3, LinkName(b));
    ghost var k: nat :| FirstVacant(ino, 3, k) && ns.ino == LinkedTo(ino, 2, 3, k, LinkName(b));
    NegativeCount(ns.ino, 2);
    assert NameAt(ns.ino, 1, 2, 2);
    NamedBy(ns.ino, 1, 2, 2);
  }

  lemma {:induction false} NegativeCount(ino: Inodes, i: int)
    requires i in ino && ino[i].nlink < 0
    ensures !Inv(ino)
  {
    assert !LinksAt(ino, i);
  }

  lemma {:induction false} NamedBy(ino: Inodes, p: int, k: int, i: int)
    requires NameAt(ino, p, k, i)
    ensures Named(ino, i)
  {
  }

  /** A file that is open when its last name goes is there until the reference is dropped. */
  method OpenOutlivesName() returns (ns: Namespace)
    ensures ns.Valid() && 2 in ns.ino && ns.ino[2].nlink == 0 && !Named(ns.ino, 2) && ns.refs == map[2 := 1]
  {
    hide Inv, Bounded, Named, Created, EntryRemoved;
    ns := new Namespace(10);
    ghost var ino0 := ns.ino;
    assert 2 !in ino0;
    var o, r := ns.Create(1, "f", File);
    ghost var k: nat :| FirstVacant(ino0, 1, k) && ns.ino == Created(ino0, r, File, 1, k, "f");
    FileThenDir(ino0, k);
    assert FIRST_FILE[1].entries[2] == Entry(2, "f");
    var ok;
    ok, k := ns.Unlink(1, "f");
    RemovedIs(FIRST_FILE, 1, 2);
    assert ns.ino[2].nlink == 0;
    NoLinksNoNames(ns.ino, 2);
  }

  const ONE_DIR: Inodes :=
    map[1 := Node(Dir, 2, [Entry(1, "."), Entry(1, ".."), Entry(2, "d")]),
        2 := Node(Dir, 1, [Entry(2, "."), Entry(1, "..")])]

  const DIR_REMOVED: Inodes :=
    map[1 := Node(Dir, 1, [Entry(1, "."), Entry(1, ".."), Entry(0, "")]),
        2 := Node(Dir, 0, [Entry(2, "."), Entry(1, "..")])]

  const FILE_IN_REMOVED: Inodes :=
    map[1 := Node(Dir, 1, [Entry(1, "."), Entry(1, ".."), Entry(0, "")]),
        2 := Node(Dir, 0, [Entry(2, "."), Entry(1, ".."), Entry(3, "f")]),
        3 := Node(File, 1, [])]

  lemma {:induction false} DirThenFile(ino: Inodes, k: nat)
    requires ino == map[1 := Node(Dir, 1, [Entry(1, "."), Entry(1, "..")])]
    ensures FirstVacant(ino, 1, k) ==> Created(ino, 2, Dir, 1, k, "d") == ONE_DIR
    ensures FirstVacant(DIR_REMOVED, 2, k) ==> Created(DIR_REMOVED, 3, File, 2, k, "f") == FILE_IN_REMOVED
  {
    if FirstVacant(ino, 1, k) {
      assert k == 2;
      assert Created(ino, 2, Dir, 1, k, "d")[1].entries == ONE_DIR[1].entries;
    }
    if FirstVacant(DIR_REMOVED, 2, k) {
      assert k == 2;
      assert Created(DIR_REMOVED, 3, File, 2, k, "f")[2].entries == FILE_IN_REMOVED[2].entries;
    }
  }

  lemma {:induction false} DirGoes(ino': Inodes, refs: map<int, int>)
    requires UnlinkedFrom(ONE_DIR, ino', refs, 1, 2) && refs == map[2 := 1]
    ensures ino' == DIR_REMOVED
  {
    var e := EntryRemoved(ONE_DIR, 1, 2);
    assert e[1].entries == DIR_REMOVED[1].entries;
    assert Reaped(e, refs, 1) == e;
    assert ino' == WithLinks(e, 2, 0);
  }

  lemma {:induction false} NoNameLeft(ino: Inodes)
    requires ino == FILE_IN_REMOVED - {2}
    ensures 3 in ino && ino[3].nlink == 1 && !Named(ino, 3)
  {
  }

  /**
   A file made in a directory that has lost its name but is still somebody's working directory: when
   the directory goes, the file keeps a link and no name leads to it.
   */
  method LeftBehind() returns (ns: Namespace)
    ensures ns.Valid() && 3 in ns.ino && ns.ino[3].nlink == 1 && !Named(ns.ino, 3)
  {
    hide Inv, Bounded, Named, Created, EntryRemoved, Slack, KeepsSlack, UnlinkedFrom;
    ns := new Namespace(10);
    ghost var ino0 := ns.ino;
    assert 2 !in ino0;
    var o, d := ns.Create(1, "d", Dir);
    ghost var k: nat :| FirstVacant(ino0, 1, k) && ns.ino == Created(ino0, d, Dir, 1, k, "d");
    DirThenFile(ino0, k);
    assert ONE_DIR[1].entries[2] == Entry(2, "d");
    var ok;
    ok, k := ns.Unlink(1, "d");
    DirGoes(ns.ino, ns.refs);
    assert 3 !in ns.ino;
    var f;
    o, f := ns.Create(2, "f", File);
    k :| FirstVacant(DIR_REMOVED, 2, k) && ns.ino == Created(DIR_REMOVED, f, File, 2, k, "f");
    DirThenFile(ino0, k);
    ns.Iput(3);
    ns.Iput(2);
    NoNameLeft(ns.ino);
  }
}
