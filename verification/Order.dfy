/** Total orders used by the `:order` clauses of the store and by the ordered maps of the
    query code, and the sorted listing of a finite set. */
module Order {

  ghost predicate StrictTotal<T(!new)>(less: (T, T) -> bool) {
    && (forall x :: !less(x, x))
    && (forall x, y :: x == y || less(x, y) || less(y, x))
    && (forall x, y, z :: less(x, y) && less(y, z) ==> less(x, z))
  }

  predicate IsLeast<T(!new, ==)>(s: set<T>, less: (T, T) -> bool, m: T) {
    m in s && forall x :: x in s ==> x == m || less(m, x)
  }

  ghost predicate Sorted<T(!new)>(xs: seq<T>, less: (T, T) -> bool) {
    forall i, j :: 0 <= i < j < |xs| ==> less(xs[i], xs[j])
  }

  lemma {:induction false} LeastExists<T(!new)>(s: set<T>, less: (T, T) -> bool)
    requires s != {} && StrictTotal(less)
    ensures exists m :: IsLeast(s, less, m)
    decreases |s|
  {
    var x :| x in s;
    if s == {x} {
      assert IsLeast(s, less, x);
    } else {
      LeastExists(s - {x}, less);
      var m :| IsLeast(s - {x}, less, m);
      var least := if less(x, m) then x else m;
      forall y | y in s
        ensures y == least || less(least, y)
      {
        if y != x {
          assert y in s - {x};
        }
      }
      assert IsLeast(s, less, least);
    }
  }

  function Least<T(!new, ==)>(s: set<T>, less: (T, T) -> bool): (m: T)
    requires s != {} && StrictTotal(less)
    ensures IsLeast(s, less, m)
  {
    LeastExists(s, less);
    var m :| IsLeast(s, less, m);
    m
  }

  /** The elements of `s`, each once, in increasing order. */
  function Listing<T(!new, ==)>(s: set<T>, less: (T, T) -> bool): (xs: seq<T>)
    requires StrictTotal(less)
    ensures |xs| == |s|
    ensures forall x :: x in xs <==> x in s
    ensures Sorted(xs, less)
    decreases |s|
  {
    if s == {} then [] else
      var m := Least(s, less);
      var rest := Listing(s - {m}, less);
      assert forall x :: x in [m] + rest <==> x in s;
      assert forall x :: x in rest ==> less(m, x);
      [m] + rest
  }

  lemma {:induction false} NotMore<T>(some: set<T>, all: set<T>)
    requires some <= all
    ensures |some| <= |all|
  {
    assert all == some + (all - some);
  }

  predicate StringLess(a: string, b: string) {
    if |b| == 0 then false
    else if |a| == 0 then true
    else if a[0] != b[0] then a[0] < b[0]
    else StringLess(a[1..], b[1..])
  }

  lemma {:induction false} StringLessTotal(a: string, b: string)
    ensures a == b || StringLess(a, b) || StringLess(b, a)
    ensures !(StringLess(a, b) && StringLess(b, a))
    ensures a == b ==> !StringLess(a, b)
    decreases |a|
  {
    if |a| > 0 && |b| > 0 && a[0] == b[0] {
      StringLessTotal(a[1..], b[1..]);
      assert a == [a[0]] + a[1..] && b == [b[0]] + b[1..];
    }
  }

  lemma {:induction false} StringLessTransitive(a: string, b: string, c: string)
    requires StringLess(a, b) && StringLess(b, c)
    ensures StringLess(a, c)
    decreases |a|
  {
    if |a| > 0 && a[0] == b[0] && b[0] == c[0] {
      StringLessTransitive(a[1..], b[1..], c[1..]);
    }
  }

  lemma StringLessStrictTotal()
    ensures StrictTotal(StringLess)
  {
    forall x, y
      ensures x == y || StringLess(x, y) || StringLess(y, x)
      ensures !StringLess(x, x)
    {
      StringLessTotal(x, y);
      StringLessTotal(x, x);
    }
    forall x, y, z | StringLess(x, y) && StringLess(y, z)
      ensures StringLess(x, z)
    {
      StringLessTransitive(x, y, z);
    }
  }

}
