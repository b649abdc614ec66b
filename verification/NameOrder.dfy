/** strcmp order on names, as used to sort directory listings and attribute
    sets (agent/src/walker.c dent_cmp, agent/src/xattr.c xent_cmp). */
module NameOrder {

  predicate Before(a: string, b: string) {
    b != [] && (a == [] || a[0] < b[0] || (a[0] == b[0] && Before(a[1..], b[1..])))
  }

  lemma {:induction false} BeforeIrreflexive(a: string)
    ensures !Before(a, a)
  {
    if a != [] { BeforeIrreflexive(a[1..]); }
  }

  lemma {:induction false} BeforeTransitive(a: string, b: string, c: string)
    requires Before(a, b) && Before(b, c)
    ensures Before(a, c)
    decreases |a|
  {
    if a != [] && a[0] == b[0] && b[0] == c[0] {
      BeforeTransitive(a[1..], b[1..], c[1..]);
    }
  }

  lemma {:induction false} BeforeTotal(a: string, b: string)
    ensures Before(a, b) || a == b || Before(b, a)
    decreases |a|
  {
    if a != [] && b != [] {
      BeforeTotal(a[1..], b[1..]);
      if a[0] == b[0] && a[1..] == b[1..] {
        assert a == [a[0]] + a[1..] && b == [b[0]] + b[1..];
      }
    }
  }

  lemma BeforeAsymmetric(a: string, b: string)
    requires Before(a, b)
    ensures !Before(b, a) && a != b
  {
    BeforeIrreflexive(a);
    if Before(b, a) {
      BeforeTransitive(a, b, a);
    }
  }

  /** n comes before every name of v. */
  ghost predicate Above(n: string, v: seq<string>) {
    forall x :: x in v ==> Before(n, x)
  }

  ghost predicate Sorted(v: seq<string>) {
    v != [] ==> Above(v[0], v[1..]) && Sorted(v[1..])
  }

  /** v is the sorted listing of a set of names. */
  ghost predicate Lists(v: seq<string>, names: set<string>) {
    Sorted(v) && forall x :: x in v <==> x in names
  }

  lemma HasMember(v: seq<string>)
    ensures v == [] || exists x :: x in v
  {
    if v != [] { assert v[0] in v; }
  }

  /** A strictly sorted listing is determined by the set of its names. */
  lemma {:induction false} SortedUnique(a: seq<string>, b: seq<string>)
    requires Sorted(a) && Sorted(b)
    requires forall x :: x in a <==> x in b
    ensures a == b
  {
    if a == [] {
      HasMember(b);
    } else {
      assert a[0] in b && b[0] in a;
      if a[0] != b[0] {
        assert a[0] in b[1..] && b[0] in a[1..];
        BeforeAsymmetric(b[0], a[0]);
        assert false;
      }
      BeforeIrreflexive(a[0]);
      forall x ensures x in a[1..] <==> x in b[1..] {
        assert x in a <==> x == a[0] || x in a[1..];
        assert x in b <==> x == b[0] || x in b[1..];
      }
      SortedUnique(a[1..], b[1..]);
      assert a == [a[0]] + a[1..] && b == [b[0]] + b[1..];
    }
  }
}
