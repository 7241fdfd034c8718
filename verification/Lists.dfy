/** Lists of block numbers without repetition, and the sets of their elements. */
module Lists {

  predicate Distinct(list: seq<nat>) {
    forall i, j :: 0 <= i < j < |list| ==> list[i] != list[j]
  }

  function Elements(list: seq<nat>): set<nat> {
    set b | b in list
  }

  lemma {:induction false} DistinctSize(list: seq<nat>)
    requires Distinct(list)
    ensures |Elements(list)| == |list|
  {
    if list != [] {
      var m := |list| - 1;
      DistinctSize(list[..m]);
      assert list == list[..m] + [list[m]];
      assert Elements(list) == Elements(list[..m]) + {list[m]};
    }
  }

  /** The blocks listed from position i on. */
  function Remaining(list: seq<nat>, i: nat): set<nat>
    requires i <= |list|
  {
    Elements(list[i..])
  }

  lemma {:induction false} RemainingEnds(list: seq<nat>)
    ensures Remaining(list, 0) == Elements(list) && Remaining(list, |list|) == {}
  {
    assert list[0..] == list;
  }

  lemma {:induction false} RemainingNext(list: seq<nat>, i: nat)
    requires Distinct(list) && i < |list|
    ensures Remaining(list, i) - {list[i]} == Remaining(list, i + 1)
    ensures list[i] in Remaining(list, i) && |Remaining(list, i)| == |list| - i
  {
    assert list[i..] == [list[i]] + list[i + 1..];
    DistinctSize(list[i..]);
  }

  lemma {:induction false} InElements(list: seq<nat>, i: nat)
    requires i < |list|
    ensures list[i] in Elements(list)
  {
  }

  lemma {:induction false} EmptyDistinct()
    ensures Distinct([]) && Elements([]) == {}
  {
  }
}
