/** Facts about the sizes of sets. */
module Sets {
  lemma {:induction false} SubsetSize<T>(a: set<T>, b: set<T>)
    requires a <= b
    ensures |a| <= |b|
  {
    if a != {} {
      var x :| x in a;
      SubsetSize(a - {x}, b - {x});
    }
  }

  lemma {:induction false} Smaller<T>(a: set<T>, b: set<T>, x: T)
    requires a <= b && x in b && x !in a
    ensures |a| < |b|
  {
    SubsetSize(a, b - {x});
  }

  lemma {:induction false} UnionSize<T>(a: set<T>, b: set<T>)
    ensures |a + b| <= |a| + |b|
  {
    assert a + b == a + (b - a);
    SubsetSize(b - a, b);
  }
}
