/**
 The doubly linked ring of kernel/bio.c.  Nodes are buffer indices; the list
 head is node NBUF.  The ring refines a sequence of buffers, most recently used
 first, and the splice of brelse refines moving one of them to the front.
 */
module LruRing {
  import opened Storage

  const HEAD: nat := NBUF

  /** The node at position k; the positions before and past the sequence are the head. */
  function Node(order: seq<nat>, k: int): nat {
    if 0 <= k < |order| then order[k] else HEAD
  }

  /** The links around position k. */
  predicate LinkedAt(next: seq<nat>, prev: seq<nat>, order: seq<nat>, k: int) {
    && 0 <= k < |order|
    && order[k] < |next| && order[k] < |prev|
    && next[order[k]] == Node(order, k + 1)
    && prev[order[k]] == Node(order, k - 1)
  }

  /** next and prev describe the closed ring through head and order; pos inverts order. */
  predicate Linked(next: seq<nat>, prev: seq<nat>, order: seq<nat>, pos: seq<nat>) {
    && |next| == |prev| == NBUF + 1
    && |order| <= |pos| == NBUF
    && (forall k :: 0 <= k < |order| ==> order[k] < NBUF && pos[order[k]] == k)
    && next[HEAD] == Node(order, 0)
    && prev[HEAD] == Node(order, |order| - 1)
    && forall k :: 0 <= k < |order| ==> LinkedAt(next, prev, order, k)
  }

  /** Every buffer stands on the ring. */
  predicate Onto(order: seq<nat>, pos: seq<nat>)
    requires |pos| == NBUF
  {
    |order| == NBUF && forall i :: 0 <= i < NBUF ==> pos[i] < NBUF && order[pos[i]] == i
  }

  function Remove(order: seq<nat>, r: nat): seq<nat> {
    if order == [] then []
    else if order[0] == r then order[1..]
    else [order[0]] + Remove(order[1..], r)
  }

  function ToFront(order: seq<nat>, r: nat): seq<nat> {
    [r] + Remove(order, r)
  }

  lemma {:induction false} RemoveAt(order: seq<nat>, k: nat)
    requires k < |order| && order[k] !in order[..k]
    ensures Remove(order, order[k]) == order[..k] + order[k + 1..]
  {
    if k > 0 {
      assert order[1..][..k - 1] == order[..k][1..];
      assert order[0] == order[..k][0];
      RemoveAt(order[1..], k - 1);
    }
  }

  /** Positions once the buffer at position k is gone. */
  function PosAfterUnlink(pos: seq<nat>, k: nat): (p: seq<nat>)
    ensures |p| == |pos|
  {
    seq(|pos|, i requires 0 <= i < |pos| => if pos[i] <= k then pos[i] else pos[i] - 1)
  }

  function PosAfterPush(pos: seq<nat>, r: nat): (p: seq<nat>)
    ensures |p| == |pos|
  {
    seq(|pos|, i requires 0 <= i < |pos| => if i == r then 0 else pos[i] + 1)
  }

  lemma {:induction false} Unlink(next: seq<nat>, prev: seq<nat>, order: seq<nat>, pos: seq<nat>, k: nat)
    requires Linked(next, prev, order, pos) && k < |order|
    ensures var r := order[k];
            && r < HEAD && next[r] <= HEAD && prev[r] <= HEAD && next[r] != r
            && Linked(next[prev[r] := next[r]], prev[next[r] := prev[r]],
                      order[..k] + order[k + 1..], PosAfterUnlink(pos, k))
  {
    var r := order[k];
    var rest := order[..k] + order[k + 1..];
    assert LinkedAt(next, prev, order, k);
    var n1, p1 := next[prev[r] := next[r]], prev[next[r] := prev[r]];
    forall j | 0 <= j < |rest| ensures LinkedAt(n1, p1, rest, j) {
      var i := if j < k then j else j + 1;
      assert LinkedAt(next, prev, order, i);
    }
  }

  lemma {:induction false} PushFront(next: seq<nat>, prev: seq<nat>, order: seq<nat>, pos: seq<nat>, r: nat)
    requires Linked(next, prev, order, pos) && r < NBUF && r !in order && |order| < NBUF
    ensures var n1, p1 := next[r := next[HEAD]], prev[r := HEAD];
            && n1[HEAD] <= HEAD
            && Linked(n1[HEAD := r], p1[n1[HEAD] := r], [r] + order, PosAfterPush(pos, r))
  {
    var n1, p1 := next[r := next[HEAD]], prev[r := HEAD];
    var n2, p2 := n1[HEAD := r], p1[n1[HEAD] := r];
    var order' := [r] + order;
    assert 0 < |order| ==> LinkedAt(next, prev, order, 0);
    forall j | 0 <= j < |order'| ensures LinkedAt(n2, p2, order', j) {
      if j > 0 {
        assert LinkedAt(next, prev, order, j - 1);
      }
    }
  }

  lemma {:induction false} SplicedOnto(order: seq<nat>, pos: seq<nat>, r: nat)
    requires |pos| == NBUF && Onto(order, pos) && r < NBUF
    requires forall k :: 0 <= k < |order| ==> order[k] < NBUF && pos[order[k]] == k
    ensures var k := pos[r];
            && order[..k] + order[k + 1..] == Remove(order, r) && r !in Remove(order, r)
            && Onto(ToFront(order, r), PosAfterPush(PosAfterUnlink(pos, k), r))
  {
    var k := pos[r];
    RemoveAt(order, k);
    var order', pos' := ToFront(order, r), PosAfterPush(PosAfterUnlink(pos, k), r);
    forall i | 0 <= i < NBUF ensures pos'[i] < NBUF && order'[pos'[i]] == i {
      assert order[pos[i]] == i;
    }
  }

  /** The pointer updates of brelse move one buffer to the front. */
  lemma {:induction false} Splice(next: seq<nat>, prev: seq<nat>, order: seq<nat>, pos: seq<nat>, r: nat)
    requires Linked(next, prev, order, pos) && Onto(order, pos) && r < NBUF
    ensures |next| == |prev| == NBUF + 1 && |pos| == NBUF
    ensures next[r] <= HEAD && prev[r] <= HEAD && next[r] != r
    ensures var p1, n1 := prev[next[r] := prev[r]], next[prev[r] := next[r]];
            var n2, p2 := n1[r := n1[HEAD]], p1[r := HEAD];
            && n2[HEAD] <= HEAD
            && var pos' := PosAfterPush(PosAfterUnlink(pos, pos[r]), r);
               Linked(n2[HEAD := r], p2[n2[HEAD] := r], ToFront(order, r), pos') && Onto(ToFront(order, r), pos')
  {
    hide LinkedAt;
    var k := pos[r];
    Unlink(next, prev, order, pos, k);
    SplicedOnto(order, pos, r);
    PushFront(next[prev[r] := next[r]], prev[next[r] := prev[r]], order[..k] + order[k + 1..],
        PosAfterUnlink(pos, k), r);
  }

  class Ring {
    var next: seq<nat>
    var prev: seq<nat>
    /** Most recently used first. */
    ghost var order: seq<nat>
    /** Where a buffer stands in the order. */
    ghost var pos: seq<nat>

    ghost predicate Valid()
      reads this
    {
      Linked(next, prev, order, pos) && Onto(order, pos)
    }

    /** The list building of binit. */
    constructor ()
      ensures Valid()
      ensures forall k :: 0 <= k < NBUF ==> order[k] == NBUF - 1 - k
    {
      next := seq(NBUF + 1, _ => HEAD);
      prev := seq(NBUF + 1, _ => HEAD);
      order, pos := [], seq(NBUF, _ => 0);
      new;
      var b: nat := 0;
      while b < NBUF
        invariant b <= NBUF && |order| == b
        invariant Linked(next, prev, order, pos)
        invariant forall k :: 0 <= k < b ==> order[k] == b - 1 - k
      {
        PushFront(next, prev, order, pos, b);
        next := next[b := next[HEAD]];
        prev := prev[b := HEAD];
        prev := prev[next[HEAD] := b];
        next := next[HEAD := b];
        order, pos := [b] + order, PosAfterPush(pos, b);
        b := b + 1;
      }
      forall i | 0 <= i < NBUF ensures pos[i] < NBUF && order[pos[i]] == i {
        assert LinkedAt(next, prev, order, NBUF - 1 - i);
      }
    }

    /** Unlink node r and insert it behind the head. */
    method MoveToFront(r: nat)
      requires Valid() && r < NBUF
      modifies this
      ensures Valid() && order == ToFront(old(order), r)
    {
      hide Linked, Onto, ToFront, PosAfterUnlink, PosAfterPush;
      Splice(next, prev, order, pos, r);
      prev := prev[next[r] := prev[r]];
      next := next[prev[r] := next[r]];
      next := next[r := next[HEAD]];
      prev := prev[r := HEAD];
      prev := prev[next[HEAD] := r];
      next := next[HEAD := r];
      pos := PosAfterPush(PosAfterUnlink(pos, pos[r]), r);
      order := ToFront(order, r);
    }
  }
}
