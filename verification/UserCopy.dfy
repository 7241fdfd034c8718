/**
 copyin, copyout and copyinstr of kernel/vm.c: page-wise copies between the kernel
 and a user address space, specified one byte at a time.
 */
module UserCopy {
  import opened PageTable

  predicate Readable(s: Vm, root: int, va: nat) {
    UserPage(s.flat, root, va) != 0 && IsData(s.mem, UserPage(s.flat, root, va))
  }

  function ByteAt(s: Vm, root: int, va: nat): bv8
    requires Readable(s, root, va)
  {
    s.mem[UserPage(s.flat, root, va)].bytes[va % PGSIZE]
  }

  /** The n bytes from va on, up to the first address that is not mapped for the user. */
  function Fetch(s: Vm, root: int, va: nat, n: nat): (f: seq<bv8>)
    ensures |f| <= n
    decreases n
  {
    if n == 0 || !Readable(s, root, va) then [] else [ByteAt(s, root, va)] + Fetch(s, root, va + 1, n - 1)
  }

  lemma {:induction false} FetchSplit(s: Vm, root: int, va: nat, a: nat, b: nat)
    ensures var f := Fetch(s, root, va, a);
            Fetch(s, root, va, a + b) == if |f| == a then f + Fetch(s, root, va + a, b) else f
    decreases a
  {
    if a > 0 && Readable(s, root, va) {
      FetchSplit(s, root, va + 1, a - 1, b);
    }
  }

  lemma {:induction false} FetchPage(s: Vm, root: int, va: nat, n: nat)
    requires Readable(s, root, va) && va % PGSIZE + n <= PGSIZE
    ensures Fetch(s, root, va, n) == s.mem[UserPage(s.flat, root, va)].bytes[va % PGSIZE..va % PGSIZE + n]
    decreases n
  {
    if n > 1 {
      SamePage(va);
      FetchPage(s, root, va + 1, n - 1);
    }
  }

  lemma {:induction false} SamePage(va: nat)
    requires va % PGSIZE + 1 < PGSIZE
    ensures (va + 1) / PGSIZE == va / PGSIZE && (va + 1) % PGSIZE == va % PGSIZE + 1
  {
  }

  /** Bytes up to and including the first NUL. */
  function UpToNul(f: seq<bv8>): seq<bv8> {
    if f == [] then [] else if f[0] == 0 then [0] else [f[0]] + UpToNul(f[1..])
  }

  lemma {:induction false} NulFirst(f: seq<bv8>, g: seq<bv8>)
    requires 0 !in f
    ensures UpToNul(f + g) == f + UpToNul(g)
  {
    if f != [] {
      assert (f + g)[1..] == f[1..] + g;
      assert 0 !in f[1..];
      NulFirst(f[1..], g);
      assert f == [f[0]] + f[1..];
    } else {
      assert f + g == g;
    }
  }

  /** Fails exactly when some byte of the range is not mapped; what precedes it has been copied. */
  method CopyIn(m: Machine, root: int, srcva: nat, len: nat) returns (ok: bool, dst: seq<bv8>)
    requires m.Valid() && Key(root, 2, 0) in m.node
    modifies m
    ensures m.State() == old(m.State())
    ensures dst == Fetch(m.State(), root, srcva, len) && (ok <==> |dst| == len)
  {
    hide Inv, Fetch;
    ghost var s := m.State();
    var va, left := srcva, len;
    dst := [];
    FetchNone(s, root, srcva);
    while left > 0
      invariant m.State() == s && 0 <= left && (left > 0 ==> va == srcva + |dst|) && |dst| + left == len
      invariant dst == Fetch(s, root, srcva, |dst|)
    {
      var va0 := va / PGSIZE * PGSIZE;
      var pa0 := m.WalkAddr(root, va0);
      FetchSplit(s, root, srcva, |dst|, left);
      if pa0 == 0 {
        FetchStops(s, root, va, left);
        assert dst + [] == dst;
        return false, dst;
      }
      var n := PGSIZE - (va - va0);
      if n > left {
        n := left;
      }
      FetchPage(s, root, va, n);
      FetchSplit(s, root, srcva, |dst|, n);
      dst := dst + m.mem[pa0].bytes[va - va0..va - va0 + n];
      left := left - n;
      va := va0 + PGSIZE;
    }
    ok := true;
  }

  lemma {:induction false} FetchNone(s: Vm, root: int, va: nat)
    ensures Fetch(s, root, va, 0) == []
  {
  }

  lemma {:induction false} FetchStops(s: Vm, root: int, va: nat, n: nat)
    requires !Readable(s, root, va)
    ensures Fetch(s, root, va, n) == []
  {
  }

  /**
   Succeeds exactly when the first NUL lies within max user-mapped bytes, and then
   the string with its NUL has been copied.
   */
  method CopyInStr(m: Machine, root: int, srcva: nat, max: nat) returns (ok: bool, dst: seq<bv8>)
    requires m.Valid() && Key(root, 2, 0) in m.node
    modifies m
    ensures m.State() == old(m.State())
    ensures ok <==> 0 in Fetch(m.State(), root, srcva, max)
    ensures dst == UpToNul(Fetch(m.State(), root, srcva, max))
  {
    hide Inv, Fetch, UpToNul;
    ghost var s := m.State();
    var va, left, gotNull := srcva, max, false;
    dst := [];
    FetchNone(s, root, srcva);
    while !gotNull && left > 0
      invariant m.State() == s && |dst| <= max && 0 <= left
      invariant !gotNull ==> (left > 0 ==> va == srcva + |dst|) && |dst| + left == max
      invariant !gotNull ==> dst == Fetch(s, root, srcva, |dst|) && 0 !in dst
      invariant gotNull ==> 0 in Fetch(s, root, srcva, max) && dst == UpToNul(Fetch(s, root, srcva, max))
      decreases !gotNull, left
    {
      var va0 := va / PGSIZE * PGSIZE;
      var pa0 := m.WalkAddr(root, va0);
      if pa0 == 0 {
        FetchSplit(s, root, srcva, |dst|, left);
        FetchStops(s, root, va, left);
        assert dst + [] == dst;
        NulNone(dst);
        return false, dst;
      }
      var n := PGSIZE - (va - va0);
      if n > left {
        n := left;
      }
      var p := va - va0;
      ghost var before := left;
      while n > 0
        invariant m.State() == s && 0 <= p && p + n <= PGSIZE && 0 <= n <= left
        invariant |dst| + left == max && va0 + p == srcva + |dst|
        invariant dst == Fetch(s, root, srcva, |dst|) && 0 !in dst && !gotNull
        invariant left == before - (p - (va - va0)) && (n == left || p + n == PGSIZE)
      {
        OneMore(s, root, srcva, dst, left, va0 + p);
        if m.mem[pa0].bytes[p] == 0 {
          dst := dst + [0];
          gotNull := true;
          break;
        } else {
          dst := dst + [m.mem[pa0].bytes[p]];
        }
        n, left, p := n - 1, left - 1, p + 1;
      }
      va := va0 + PGSIZE;
    }
    if !gotNull {
      NulNone(dst);
    }
    ok := gotNull;
  }

  lemma {:induction false} NulHead(g: seq<bv8>)
    requires 0 < |g|
    ensures g[0] == 0 ==> UpToNul(g) == [0]
  {
  }

  lemma {:induction false} NulNone(f: seq<bv8>)
    requires 0 !in f
    ensures UpToNul(f) == f
  {
    NulFirst(f, []);
    assert f + [] == f;
  }

  /** The next byte either ends the string or extends it. */
  lemma {:induction false} OneMore(s: Vm, root: int, srcva: nat, f: seq<bv8>, left: nat, va: nat)
    requires f == Fetch(s, root, srcva, |f|) && 0 !in f && va == srcva + |f| && Readable(s, root, va) && left > 0
    ensures Fetch(s, root, srcva, |f| + 1) == f + [ByteAt(s, root, va)]
    ensures ByteAt(s, root, va) == 0 ==> UpToNul(Fetch(s, root, srcva, |f| + left)) == f + [0]
                                         && 0 in Fetch(s, root, srcva, |f| + left)
  {
    hide Readable, ByteAt, UpToNul;
    FetchSplit(s, root, srcva, |f|, 1);
    FetchNone(s, root, va + 1);
    assert Fetch(s, root, va, 1) == [ByteAt(s, root, va)];
    FetchSplit(s, root, srcva, |f|, left);
    var g := Fetch(s, root, va, left);
    assert g[0] == ByteAt(s, root, va);
    NulFirst(f, g);
    NulHead(g);
    assert (f + g)[|f|] == g[0];
  }

  // ------------------------------------------------------------------
  // Copying out

  /** Memory after storing the bytes of src from va on, up to the first address not mapped for the user. */
  function Stored(s: Vm, root: int, va: nat, src: seq<bv8>): Vm
    decreases |src|
  {
    if src == [] || !Readable(s, root, va) then s
    else Stored(Poked(s, root, va, src[..1]), root, va + 1, src[1..])
  }

  /** A run of bytes is written within the page of va. */
  function Poked(s: Vm, root: int, va: nat, src: seq<bv8>): Vm
    requires Readable(s, root, va) && va % PGSIZE + |src| <= PGSIZE
  {
    var p, off := UserPage(s.flat, root, va), va % PGSIZE;
    var b := s.mem[p].bytes;
    s.(mem := s.mem[p := Data(b[..off] + src + b[off + |src|..])])
  }

  lemma {:induction false} PokedReadable(s: Vm, root: int, va: nat, src: seq<bv8>, root': int, vb: nat)
    requires Readable(s, root, va) && va % PGSIZE + |src| <= PGSIZE
    ensures Readable(Poked(s, root, va, src), root', vb) <==> Readable(s, root', vb)
  {
  }

  /** Writing a chunk within one page is writing its bytes one by one. */
  lemma {:induction false} StoredChunk(s: Vm, root: int, va: nat, src: seq<bv8>, n: nat)
    requires Readable(s, root, va) && 0 < n <= |src| && va % PGSIZE + n <= PGSIZE
    ensures Stored(s, root, va, src) == Stored(Poked(s, root, va, src[..n]), root, va + n, src[n..])
    decreases n
  {
    hide Readable, ByteAt, Poked;
    StoredOne(s, root, va, src);
    if n > 1 {
      var s1, rest := Poked(s, root, va, src[..1]), src[1..];
      SamePage(va);
      PokedReadable(s, root, va, src[..1], root, va + 1);
      assert src[..n][..1] == src[..1] && rest[..n - 1] == src[..n][1..] && rest[n - 1..] == src[n..];
      PokedTwice(s, root, va, src[..n]);
      StoredChunk(s1, root, va + 1, rest, n - 1);
    }
  }

  lemma {:induction false} StoredOne(s: Vm, root: int, va: nat, src: seq<bv8>)
    requires Readable(s, root, va) && 0 < |src|
    ensures Stored(s, root, va, src) == Stored(Poked(s, root, va, src[..1]), root, va + 1, src[1..])
  {
    hide Readable, Poked;
  }

  lemma {:induction false} PokedTwice(s: Vm, root: int, va: nat, src: seq<bv8>)
    requires Readable(s, root, va) && 1 < |src| && va % PGSIZE + |src| <= PGSIZE
    ensures (va + 1) % PGSIZE + |src[1..]| <= PGSIZE && Readable(Poked(s, root, va, src[..1]), root, va + 1)
    ensures Poked(Poked(s, root, va, src[..1]), root, va + 1, src[1..]) == Poked(s, root, va, src)
  {
    SamePage(va);
    PokedReadable(s, root, va, src[..1], root, va + 1);
    var p, off := UserPage(s.flat, root, va), va % PGSIZE;
    var b := s.mem[p].bytes;
    var b1 := b[..off] + src[..1] + b[off + 1..];
    assert b1[..off + 1] + src[1..] + b1[off + |src|..] == b[..off] + src + b[off + |src|..];
  }

  method CopyOut(m: Machine, root: int, dstva: nat, src: seq<bv8>) returns (ok: bool)
    requires m.Valid() && Key(root, 2, 0) in m.node
    modifies m
    ensures m.Valid() && m.State() == Stored(old(m.State()), root, dstva, src)
    ensures ok <==> |Fetch(old(m.State()), root, dstva, |src|)| == |src|
  {
    hide Inv, Fetch, Stored;
    ghost var s0 := m.State();
    var va, i := dstva, 0;
    FetchNone(s0, root, dstva);
    assert src[0..] == src;
    while i < |src|
      invariant 0 <= i <= |src| && m.Valid() && Key(root, 2, 0) in m.node
      invariant i < |src| ==> va == dstva + i
      invariant m.State().flat == s0.flat && forall vb: nat :: Readable(m.State(), root, vb) <==> Readable(s0, root, vb)
      invariant Stored(s0, root, dstva, src) == Stored(m.State(), root, dstva + i, src[i..])
      invariant |Fetch(s0, root, dstva, i)| == i
    {
      var va0 := va / PGSIZE * PGSIZE;
      ghost var s := m.State();
      var pa0 := m.WalkAddr(root, va0);
      FetchSplit(s0, root, dstva, i, |src| - i);
      if pa0 == 0 {
        FetchStops(s0, root, va, |src| - i);
        StoredStops(s, root, va, src[i..]);
        return false;
      }
      var n := PGSIZE - (va - va0);
      if n > |src| - i {
        n := |src| - i;
      }
      ChunkWritten(s0, s, root, va, src, i, n);
      FetchPage(s0, root, va, n);
      FetchSplit(s0, root, dstva, i, n);
      var b := m.mem[pa0].bytes;
      m.mem := m.mem[pa0 := Data(b[..va - va0] + src[i..i + n] + b[va - va0 + n..])];
      i := i + n;
      va := va0 + PGSIZE;
    }
    StoredStops(m.State(), root, dstva + i, src[i..]);
    ok := true;
  }

  lemma {:induction false} StoredStops(s: Vm, root: int, va: nat, src: seq<bv8>)
    requires src == [] || !Readable(s, root, va)
    ensures Stored(s, root, va, src) == s
  {
  }

  lemma {:induction false} ChunkWritten(s0: Vm, s: Vm, root: int, va: nat, src: seq<bv8>, i: nat, n: nat)
    requires Inv(s, NOTHING) && Readable(s, root, va) && i + n <= |src| && 0 < n && va % PGSIZE + n <= PGSIZE
    requires forall vb: nat :: Readable(s, root, vb) <==> Readable(s0, root, vb)
    ensures var s' := Poked(s, root, va, src[i..i + n]);
            && Stored(s, root, va, src[i..]) == Stored(s', root, va + n, src[i + n..])
            && Inv(s', NOTHING) && forall vb: nat :: Readable(s', root, vb) <==> Readable(s0, root, vb)
  {
    hide Inv;
    StoredChunk(s, root, va, src[i..], n);
    assert src[i..][..n] == src[i..i + n] && src[i..][n..] == src[i + n..];
    var b, off := s.mem[UserPage(s.flat, root, va)].bytes, va % PGSIZE;
    var sl := Slot(root, va / PGSIZE);
    UserEntry(s, sl);
    WrittenInv(s, sl, b[..off] + src[i..i + n] + b[off + n..]);
    forall vb: nat ensures Readable(Poked(s, root, va, src[i..i + n]), root, vb) <==> Readable(s0, root, vb) {
      PokedReadable(s, root, va, src[i..i + n], root, vb);
    }
  }

  /** A store reaches one byte of one address space and no other byte of any. */
  lemma {:induction false} PokedByte(s: Vm, root: int, va: nat, b: bv8, root': int, vb: nat)
    requires Inv(s, NOTHING) && Readable(s, root, va) && Readable(s, root', vb)
    ensures Readable(Poked(s, root, va, [b]), root', vb) && Inv(Poked(s, root, va, [b]), NOTHING)
    ensures ByteAt(Poked(s, root, va, [b]), root', vb) == if root' == root && vb == va then b else ByteAt(s, root', vb)
  {
    hide Inv;
    PokedReadable(s, root, va, [b], root', vb);
    var sl, sl' := Slot(root, va / PGSIZE), Slot(root', vb / PGSIZE);
    UserEntry(s, sl);
    UserEntry(s, sl');
    var bytes, off := s.mem[UserPage(s.flat, root, va)].bytes, va % PGSIZE;
    WrittenInv(s, sl, bytes[..off] + [b] + bytes[off + 1..]);
    if s.flat[sl].ppn == s.flat[sl'].ppn {
      OnePageEach(s, sl, sl');
    }
  }

  lemma {:induction false} OnePageEach(s: Vm, sl: Slot, sl': Slot)
    requires Inv(s, NOTHING) && sl in s.flat && sl' in s.flat && s.flat[sl].owned && s.flat[sl'].owned &&
               s.flat[sl'].ppn == s.flat[sl].ppn
    ensures sl == sl'
  {
    assert LeafAt(s, sl) && LeafAt(s, sl');
  }

  /**
   After copyout every byte of every address space reads as before, except the copied
   ones, which read as the source; so reading back what was stored gives it back.
   */
  lemma {:induction false} StoredByte(s: Vm, root: int, va: nat, src: seq<bv8>, root': int, vb: nat)
    requires Inv(s, NOTHING) && Readable(s, root', vb)
    ensures var n := |Fetch(s, root, va, |src|)|;
            && Readable(Stored(s, root, va, src), root', vb)
            && ByteAt(Stored(s, root, va, src), root', vb) == if root' == root &&
                va <= vb < va + n then src[vb - va] else ByteAt(s, root', vb)
    decreases |src|
  {
    hide Inv, Readable, ByteAt, Poked;
    if src != [] && Readable(s, root, va) {
      var s1 := Poked(s, root, va, src[..1]);
      assert src[..1] == [src[0]];
      PokedByte(s, root, va, src[0], root', vb);
      StoredByte(s1, root, va + 1, src[1..], root', vb);
      SameLength(s, s1, root, va, src[0], va + 1, |src| - 1);
    }
  }

  lemma {:induction false} SameLength(s: Vm, s1: Vm, root: int, va: nat, b: bv8, vb: nat, n: nat)
    requires Readable(s, root, va) && s1 == Poked(s, root, va, [b])
    ensures |Fetch(s1, root, vb, n)| == |Fetch(s, root, vb, n)|
    decreases n
  {
    PokedReadable(s, root, va, [b], root, vb);
    if n > 0 && Readable(s, root, vb) {
      SameLength(s, s1, root, va, b, vb + 1, n - 1);
    }
  }

  lemma {:induction false} FetchAt(s: Vm, root: int, va: nat, n: nat, i: nat)
    requires i < |Fetch(s, root, va, n)|
    ensures Readable(s, root, va + i) && Fetch(s, root, va, n)[i] == ByteAt(s, root, va + i)
    decreases n
  {
    if i > 0 {
      FetchAt(s, root, va + 1, n - 1, i - 1);
    }
  }

  lemma {:induction false} FetchFull(s: Vm, root: int, va: nat, n: nat)
    requires forall vb: nat :: va <= vb < va + n ==> Readable(s, root, vb)
    ensures |Fetch(s, root, va, n)| == n
    decreases n
  {
    if n > 0 {
      FetchFull(s, root, va + 1, n - 1);
    }
  }

  /** copyin after a successful copyout returns the bytes that were copied out. */
  lemma {:induction false} RoundTrip(s: Vm, root: int, va: nat, src: seq<bv8>)
    requires Inv(s, NOTHING) && |Fetch(s, root, va, |src|)| == |src|
    ensures Fetch(Stored(s, root, va, src), root, va, |src|) == src
  {
    hide Inv;
    var s' := Stored(s, root, va, src);
    forall vb: nat | va <= vb < va + |src| ensures Readable(s', root, vb) && ByteAt(s', root, vb) == src[vb - va] {
      FetchAt(s, root, va, |src|, vb - va);
      StoredByte(s, root, va, src, root, vb);
    }
    FetchFull(s', root, va, |src|);
    forall i | 0 <= i < |src| ensures Fetch(s', root, va, |src|)[i] == src[i] {
      FetchAt(s', root, va, |src|, i);
    }
  }
}
