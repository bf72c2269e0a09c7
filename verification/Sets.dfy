/** Cardinality facts about finite sets, used by the capacity proofs. */
module Sets {
  lemma {:induction false} SubsetSize<T>(a: set<T>, b: set<T>)
    requires a <= b
    ensures |a| <= |b|
  {
    assert b == a + (b - a);
  }

  lemma UnionSize<T>(a: set<T>, b: set<T>)
    ensures |a + b| <= |a| + |b|
  {
    assert a + b == a + (b - a);
    SubsetSize(b - a, b);
  }

  lemma UpperBound(a: set<int>) returns (m: int)
    ensures forall x | x in a :: x < m
  {
    if x :| x in a {
      var n := UpperBound(a - {x});
      m := if x < n then n else x + 1;
      forall y | y in a ensures y < m { assert y == x || y in a - {x}; }
    } else {
      m := 0;
    }
  }

  ghost predicate Lists<T>(order: seq<T>, a: set<T>) {
    && (forall x | x in order :: x in a)
    && (forall x | x in a :: x in order)
    && forall i, j | 0 <= i < j < |order| :: order[i] != order[j]
  }

  // The elements of a set in some order, as iterating over a dictionary yields them.
  method InSomeOrder<T(==)>(a: set<T>) returns (order: seq<T>)
    ensures Lists(order, a)
  {
    order := [];
    var rest := a;
    while rest != {}
      invariant rest <= a && Lists(order, a - rest)
      decreases rest
    {
      var x :| x in rest;
      order := order + [x];
      rest := rest - {x};
    }
  }
}
