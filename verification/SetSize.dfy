/** Sizes of finite sets. */
module SetSize {

  lemma {:induction false} SubsetSize<T>(a: set<T>, b: set<T>)
    requires a <= b
    ensures |a| <= |b|
  {
    if a != {} {
      var x :| x in a;
      SubsetSize(a - {x}, b - {x});
    }
  }

  /** Without one of its elements a set is larger than any subset of the rest. */
  lemma LackingOne<T>(a: set<T>, b: set<T>, x: T)
    requires x in b && a <= b - {x}
    ensures |a| < |b|
  {
    SubsetSize(a, b - {x});
  }
}
