/** Sizes of finite sets. */
module Sets {

  function Bit(b: bool): nat {
    if b then 1 else 0
  }

  /** Two sets that differ at most in `c` differ in size by `c` alone. */
  lemma SetUpdate<T>(a: set<T>, b: set<T>, c: T)
    requires forall x :: x != c ==> (x in a <==> x in b)
    ensures |b| == |a| - Bit(c in a) + Bit(c in b)
  {
    assert a - {c} == b - {c};
    assert a == if c in a then a - {c} + {c} else a - {c};
    assert b == if c in b then b - {c} + {c} else b - {c};
  }

  lemma SubsetSize<T>(a: set<T>, b: set<T>)
    requires a <= b
    ensures |a| <= |b|
  {
    assert b == a + (b - a);
  }

  lemma DifferenceSize<T>(a: set<T>, b: set<T>)
    requires b <= a
    ensures |a - b| == |a| - |b|
  {
    assert a == (a - b) + b;
  }

  lemma UnionSize<T>(a: set<T>, b: set<T>)
    ensures |a + b| <= |a| + |b|
  {
    assert a + b == a + (b - a);
    SubsetSize(b - a, b);
  }

  lemma DisjointSizes<T>(a: set<T>, b: set<T>, c: set<T>, d: set<T>)
    requires a !! b !! c !! d
    ensures |a + b + c + d| == |a| + |b| + |c| + |d|
  {
    assert |a + b| == |a| + |b|;
    assert |a + b + c| == |a + b| + |c|;
  }
}
