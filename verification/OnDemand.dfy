/** A statement that unfolds only where it is asked for. */
module OnDemand {
  ghost predicate Says(p: bool, q: bool) {
    q == p
  }

  ghost predicate Holding(p: bool) {
    forall q {:trigger Says(p, q)} :: Says(p, q) ==> q
  }

  lemma HoldingIs(p: bool)
    ensures Holding(p) <==> p
  {
    assert Says(p, p);
  }
}
