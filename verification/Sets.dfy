/** Cardinality facts about finite sets that several components count with. */
module Sets {

  ghost function Indices(n: nat): (s: set<int>)
    ensures forall i :: i in s <==> 0 <= i < n
    ensures |s| == n
  {
    if n == 0 then {} else Indices(n - 1) + {n - 1}
  }

  lemma {:induction false} SubsetSize<T>(a: set<T>, b: set<T>)
    requires a <= b
    ensures |a| <= |b|
  {
    if x :| x in a {
      SubsetSize(a - {x}, b - {x});
    }
  }

  lemma {:induction false} UnionSize<T>(a: set<T>, b: set<T>)
    ensures |a + b| <= |a| + |b|
  {
    if x :| x in b {
      UnionSize(a, b - {x});
      if x in a {
        assert a + b == a + (b - {x});
      } else {
        assert a + b == (a + (b - {x})) + {x};
      }
    } else {
      assert a + b == a;
    }
  }

  lemma {:induction false} Pick<T>(s: set<T>) returns (x: T)
    requires s != {}
    ensures x in s
  {
    x :| x in s;
  }

  /** A set of fewer than n numbers misses some number below n. */
  lemma {:induction false} Missing(s: set<int>, n: nat) returns (i: nat)
    requires |s| < n
    ensures i < n && i !in s
  {
    if Indices(n) <= s {
      SubsetSize(Indices(n), s);
      assert false;
    }
    i :| i in Indices(n) && i !in s;
  }
}
