/** The front of a sorted listing: which elements are in it, and which part of a set decides it. */
module Ranking {
  import opened Order

  function Take<T>(xs: seq<T>, n: nat): seq<T> {
    if n < |xs| then xs[..n] else xs
  }

  /** The first `n` elements of the sorted listing. */
  function Top<T(!new, ==)>(s: set<T>, less: (T, T) -> bool, n: nat): (top: seq<T>)
    requires StrictTotal(less)
    ensures forall x :: x in top ==> x in s
  {
    Take(Listing(s, less), n)
  }

  /** What comes before an element. */
  function Ahead<T(==)>(s: set<T>, less: (T, T) -> bool, x: T): set<T> {
    set y | y in s && less(y, x)
  }

  lemma ListingHead<T(!new)>(s: set<T>, less: (T, T) -> bool)
    requires StrictTotal(less) && s != {}
    ensures Listing(s, less) == [Least(s, less)] + Listing(s - {Least(s, less)}, less)
  {
  }

  lemma AheadOfOthers<T(!new)>(s: set<T>, less: (T, T) -> bool, m: T, x: T)
    requires StrictTotal(less) && IsLeast(s, less, m)
    ensures Ahead(s, less, m) == {}
    ensures x in s && x != m ==> Ahead(s, less, x) == {m} + Ahead(s - {m}, less, x)
  {
  }

  /** An element is among the first `n` exactly when fewer than `n` come before it. */
  lemma {:induction false} InTop<T(!new)>(s: set<T>, less: (T, T) -> bool, n: nat, x: T)
    requires StrictTotal(less)
    ensures x in Top(s, less, n) <==> x in s && |Ahead(s, less, x)| < n
    decreases |s|
  {
    if s != {} && n > 0 {
      var m := Least(s, less);
      ListingHead(s, less);
      AheadOfOthers(s, less, m, x);
      var rest := s - {m};
      assert Top(s, less, n) == [m] + Top(rest, less, n - 1);
      InTop(rest, less, n - 1, x);
      if x in s && x != m {
        assert m !in Ahead(rest, less, x);
        assert |Ahead(s, less, x)| == 1 + |Ahead(rest, less, x)|;
      }
    }
  }

  // ---- parts ----------------------------------------------------------------------------------------

  function Keep<T(==)>(xs: seq<T>, part: set<T>): seq<T> {
    if xs == [] then []
    else if xs[0] in part then [xs[0]] + Keep(xs[1..], part)
    else Keep(xs[1..], part)
  }

  lemma {:induction false} KeepIgnores<T>(xs: seq<T>, part: set<T>, m: T)
    requires m !in xs
    ensures Keep(xs, part - {m}) == Keep(xs, part)
  {
    if xs != [] {
      KeepIgnores(xs[1..], part, m);
    }
  }

  lemma LeastOfPart<T(!new)>(part: set<T>, s: set<T>, less: (T, T) -> bool)
    requires StrictTotal(less) && part <= s && s != {} && Least(s, less) in part
    ensures Least(part, less) == Least(s, less)
  {
  }

  /** The listing of a part is the listing of the whole without the rest. */
  lemma {:induction false} ListingOfPart<T(!new)>(part: set<T>, s: set<T>, less: (T, T) -> bool)
    requires StrictTotal(less) && part <= s
    ensures Listing(part, less) == Keep(Listing(s, less), part)
    decreases |s|
  {
    if s != {} {
      var m := Least(s, less);
      ListingHead(s, less);
      var rest := Listing(s - {m}, less);
      assert Listing(s, less)[1..] == rest && m !in rest;
      if m in part {
        LeastOfPart(part, s, less);
        ListingHead(part, less);
        ListingOfPart(part - {m}, s - {m}, less);
        KeepIgnores(rest, part, m);
      } else {
        ListingOfPart(part, s - {m}, less);
      }
    } else {
      assert part == {};
    }
  }

  lemma {:induction false} KeepIsWhole<T>(xs: seq<T>, part: set<T>, n: nat)
    requires forall x :: x in Take(xs, n) ==> x in part
    ensures Take(Keep(xs, part), n) == Take(xs, n)
    decreases |xs|
  {
    if n > 0 && xs != [] {
      assert Take(xs, n) == [xs[0]] + Take(xs[1..], n - 1);
      KeepIsWhole(xs[1..], part, n - 1);
      assert Take(Keep(xs, part), n) == [xs[0]] + Take(Keep(xs[1..], part), n - 1);
    }
  }

  /** A part that holds the best elements has the same best elements, in the same order. */
  lemma TopIsKept<T(!new)>(part: set<T>, s: set<T>, less: (T, T) -> bool, n: nat)
    requires StrictTotal(less) && part <= s
    requires forall x :: x in Top(s, less, n) ==> x in part
    ensures Top(part, less, n) == Top(s, less, n)
  {
    ListingOfPart(part, s, less);
    KeepIsWhole(Listing(s, less), part, n);
  }
}
