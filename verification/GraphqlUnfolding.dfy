/** What the expansion of a GraphQL operation finds, compared with its infinite unfolding: every
    field, and exactly those selections that stand where a fragment was spread first. */
module GraphqlUnfolding {
  import opened Graph
  import opened GraphqlSelection

  // ---- the infinite unfolding ---------------------------------------------------------------------------

  /** What an unfolding holds: a field selected by something, or a spread below it. */
  datatype Part = Chosen(source: string, field: string) | SpreadAt(at: string, name: string)

  /** Which selector spreads each fragment. */
  type Owners = map<string, string>

  /** Whether the unfolding follows a spread: always, or only under the fragment's owner. */
  predicate Follows(owners: Option<Owners>, name: string, selector: string) {
    owners.Some? ==> name in owners.value && owners.value[name] == selector
  }

  predicate HasBody(d: Document, name: string) {
    name in d.fragments && d.fragments[name].body.Present?
  }

  function BodyOf(d: Document, name: string): seq<Selection>
    requires HasBody(d, name)
  {
    d.fragments[name].body.selections
  }

  function TypeOf(d: Document, name: string, fallback: string): string
    requires HasBody(d, name)
  {
    SelectionParent(d, d.fragments[name].condition, fallback)
  }

  /** Some selection holds the part when the spreads that are followed are unfolded, `n` levels
      deep. */
  ghost predicate Unfolds(d: Document, owners: Option<Owners>, selections: seq<Selection>,
                          parent: string, selector: string, part: Part, n: nat)
    decreases n, 1
  {
    exists s :: s in selections && UnfoldsOne(d, owners, s, parent, selector, part, n)
  }

  ghost predicate UnfoldsOne(d: Document, owners: Option<Owners>, s: Selection, parent: string,
                             selector: string, part: Part, n: nat)
    decreases n, 0
  {
    n > 0 &&
    match s
    case Field(None, _, _) => false
    case Field(Some(name), nested, _) =>
      part == Chosen(selector, FieldId(parent, name))
      || (nested.Present? && (parent, name) in d.fieldTypes
          && Unfolds(d, owners, nested.selections, d.fieldTypes[(parent, name)],
                     FieldId(parent, name), part, n - 1))
    case Spread(None) => false
    case Spread(Some(name)) =>
      part == SpreadAt(selector, name)
      || (HasBody(d, name) && Follows(owners, name, selector)
          && Unfolds(d, owners, BodyOf(d, name), TypeOf(d, name, parent), selector, part, n - 1))
    case Inline(condition, inner) =>
      inner.Present? && Unfolds(d, owners, inner.selections, SelectionParent(d, condition, parent),
                                selector, part, n - 1)
  }

  ghost predicate InUnfolding(d: Document, owners: Option<Owners>, selections: seq<Selection>,
                              parent: string, selector: string, part: Part)
  {
    exists n: nat :: Unfolds(d, owners, selections, parent, selector, part, n)
  }

  lemma MemberUnfolds(d: Document, owners: Option<Owners>, selections: seq<Selection>,
                      s: Selection, parent: string, selector: string, part: Part, n: nat)
    requires s in selections && UnfoldsOne(d, owners, s, parent, selector, part, n)
    ensures InUnfolding(d, owners, selections, parent, selector, part)
  {
    assert Unfolds(d, owners, selections, parent, selector, part, n);
  }

  lemma SomeUnfold(d: Document, owners: Option<Owners>, some: seq<Selection>,
                   selections: seq<Selection>, parent: string, selector: string, part: Part)
    requires forall s :: s in some ==> s in selections
    requires InUnfolding(d, owners, some, parent, selector, part)
    ensures InUnfolding(d, owners, selections, parent, selector, part)
  {
    var n: nat :| Unfolds(d, owners, some, parent, selector, part, n);
    assert Unfolds(d, owners, selections, parent, selector, part, n);
  }

  /** Following fewer spreads unfolds to less. */
  lemma {:induction false} FollowingAll(d: Document, owners: Owners, selections: seq<Selection>,
                                        parent: string, selector: string, part: Part, n: nat)
    requires Unfolds(d, Some(owners), selections, parent, selector, part, n)
    ensures Unfolds(d, None, selections, parent, selector, part, n)
    decreases n, 1
  {
    var s :| s in selections && UnfoldsOne(d, Some(owners), s, parent, selector, part, n);
    FollowingAllOne(d, owners, s, parent, selector, part, n);
  }

  lemma {:induction false} FollowingAllOne(d: Document, owners: Owners, s: Selection,
                                           parent: string, selector: string, part: Part, n: nat)
    requires UnfoldsOne(d, Some(owners), s, parent, selector, part, n)
    ensures UnfoldsOne(d, None, s, parent, selector, part, n)
    decreases n, 0
  {
    match s
    case Field(Some(name), nested, _) =>
      if part != Chosen(selector, FieldId(parent, name)) {
        FollowingAll(d, owners, nested.selections, d.fieldTypes[(parent, name)],
                     FieldId(parent, name), part, n - 1);
      }
    case Spread(Some(name)) =>
      if part != SpreadAt(selector, name) {
        FollowingAll(d, owners, BodyOf(d, name), TypeOf(d, name, parent), selector, part, n - 1);
      }
    case Inline(condition, inner) =>
      FollowingAll(d, owners, inner.selections, SelectionParent(d, condition, parent), selector,
                   part, n - 1);
    case Field(None, _, _) =>
    case Spread(None) =>
  }

  // ---- who spreads a fragment first ---------------------------------------------------------------------

  predicate Extends(owners: Owners, later: Owners) {
    forall name :: name in owners ==> name in later && later[name] == owners[name]
  }

  /** The selector of the first spread of every fragment, in the order of the expansion. */
  function First(d: Document, owners: Owners, selections: seq<Selection>, parent: string,
                 selector: string): (out: Owners)
    ensures owners.Keys <= out.Keys && Extends(owners, out)
    decreases d.fragments.Keys - owners.Keys, selections
  {
    if selections == [] then owners
    else
      var front, last := selections[..|selections| - 1], selections[|selections| - 1];
      var before := First(d, owners, front, parent, selector);
      Fewer(d, owners.Keys, before.Keys);
      FirstOne(d, before, last, parent, selector)
  }

  function FirstOne(d: Document, owners: Owners, s: Selection, parent: string, selector: string)
    : (out: Owners)
    ensures owners.Keys <= out.Keys && Extends(owners, out)
    decreases d.fragments.Keys - owners.Keys, s
  {
    match s
    case Field(Some(name), nested, _) =>
      if nested.Present? && (parent, name) in d.fieldTypes
      then First(d, owners, nested.selections, d.fieldTypes[(parent, name)], FieldId(parent, name))
      else owners
    case Spread(Some(name)) =>
      if name in owners then owners
      else if HasBody(d, name)
      then
        Marked(d, owners.Keys, name);
        assert owners[name := selector].Keys == owners.Keys + {name};
        First(d, owners[name := selector], BodyOf(d, name), TypeOf(d, name, parent), selector)
      else owners[name := selector]
    case Inline(condition, inner) =>
      if inner.Present?
      then First(d, owners, inner.selections, SelectionParent(d, condition, parent), selector)
      else owners
    case Field(None, _, _) => owners
    case Spread(None) => owners
  }

  // ---- nothing is made up -------------------------------------------------------------------------------

  /** What was found before, and beside it only what unfolds where spreads are followed under
      their owners. */
  ghost predicate Adds(d: Document, owners: Owners, before: Found, after: Found,
                       selections: seq<Selection>, parent: string, selector: string)
  {
    && before.fields <= after.fields && before.observations <= after.observations
    && (forall o :: o in after.observations && o !in before.observations ==>
          InUnfolding(d, Some(owners), selections, parent, selector, Chosen(o.selector, o.field))
          && o.field in after.fields)
    && (forall id :: id in after.fields && id !in before.fields ==>
          exists o :: o in after.observations && o.field == id)
  }

  lemma {:induction false} ExpandAdds(d: Document, owners: Owners, found: Found, first: Owners,
                                      selections: seq<Selection>, parent: string,
                                      selector: string)
    requires found.visited == first.Keys
    requires Extends(First(d, first, selections, parent, selector), owners)
    ensures var after := Expand(d, found, selections, parent, selector);
            && after.visited == First(d, first, selections, parent, selector).Keys
            && Adds(d, owners, found, after, selections, parent, selector)
    decreases d.fragments.Keys - found.visited, selections
  {
    if selections != [] {
      var front, last := selections[..|selections| - 1], selections[|selections| - 1];
      var before := Expand(d, found, front, parent, selector);
      var after := ExpandOne(d, before, last, parent, selector);
      ExpandAdds(d, owners, found, first, front, parent, selector);
      Fewer(d, found.visited, before.visited);
      ExpandOneAdds(d, owners, before, First(d, first, front, parent, selector), last, parent,
                    selector);
      forall o | o in after.observations && o !in found.observations
        ensures InUnfolding(d, Some(owners), selections, parent, selector,
                            Chosen(o.selector, o.field))
      {
        if o in before.observations {
          SomeUnfold(d, Some(owners), front, selections, parent, selector,
                     Chosen(o.selector, o.field));
        } else {
          SomeUnfold(d, Some(owners), [last], selections, parent, selector,
                     Chosen(o.selector, o.field));
        }
      }
    }
  }

  lemma {:induction false} ExpandOneAdds(d: Document, owners: Owners, found: Found, first: Owners,
                                         s: Selection, parent: string, selector: string)
    requires found.visited == first.Keys
    requires Extends(FirstOne(d, first, s, parent, selector), owners)
    ensures var after := ExpandOne(d, found, s, parent, selector);
            && after.visited == FirstOne(d, first, s, parent, selector).Keys
            && Adds(d, owners, found, after, [s], parent, selector)
    decreases d.fragments.Keys - found.visited, s
  {
    match s
    case Field(Some(name), nested, evidence) =>
      var id := FieldId(parent, name);
      var noted := Note(found, id, selector, evidence);
      assert noted.observations[|found.observations|].field == id;
      MemberUnfolds(d, Some(owners), [s], s, parent, selector, Chosen(selector, id), 1);
      if nested.Present? && (parent, name) in d.fieldTypes {
        var inside := d.fieldTypes[(parent, name)];
        ExpandAdds(d, owners, noted, first, nested.selections, inside, id);
        InnerAdds(d, owners, noted, ExpandOne(d, found, s, parent, selector), s, parent, selector,
                  nested.selections, inside, id);
      }
    case Spread(Some(name)) =>
      if name !in found.visited && HasBody(d, name) {
        var marked := found.(visited := found.visited + {name});
        Marked(d, found.visited, name);
        assert first[name := selector].Keys == first.Keys + {name};
        ExpandAdds(d, owners, marked, first[name := selector], BodyOf(d, name),
                   TypeOf(d, name, parent), selector);
        InnerAdds(d, owners, marked, ExpandOne(d, found, s, parent, selector), s, parent, selector,
                  BodyOf(d, name), TypeOf(d, name, parent), selector);
      }
    case Inline(condition, inner) =>
      if inner.Present? {
        var inside := SelectionParent(d, condition, parent);
        ExpandAdds(d, owners, found, first, inner.selections, inside, selector);
        InnerAdds(d, owners, found, ExpandOne(d, found, s, parent, selector), s, parent, selector,
                  inner.selections, inside, selector);
      }
    case Field(None, _, _) =>
    case Spread(None) =>
  }

  /** What the selections inside a selection add, the selection adds. */
  lemma InnerAdds(d: Document, owners: Owners, before: Found, after: Found, s: Selection,
                  parent: string, selector: string, inner: seq<Selection>, inside: string,
                  through: string)
    requires Adds(d, owners, before, after, inner, inside, through)
    requires forall part, n: nat :: Unfolds(d, Some(owners), inner, inside, through, part, n) ==>
               UnfoldsOne(d, Some(owners), s, parent, selector, part, n + 1)
    ensures Adds(d, owners, before, after, [s], parent, selector)
  {
    forall o | o in after.observations && o !in before.observations
      ensures InUnfolding(d, Some(owners), [s], parent, selector, Chosen(o.selector, o.field))
    {
      var part := Chosen(o.selector, o.field);
      var n: nat :| Unfolds(d, Some(owners), inner, inside, through, part, n);
      MemberUnfolds(d, Some(owners), [s], s, parent, selector, part, n + 1);
    }
  }

  // ---- nothing is passed over ----------------------------------------------------------------------------

  /** Every fragment names the type it applies to, as the grammar demands of a definition. */
  predicate Conditioned(d: Document) {
    forall name :: name in d.fragments ==> d.fragments[name].condition.Some?
  }

  ghost predicate Observed(found: Found, source: string, id: string) {
    exists o :: o in found.observations && o.selector == source && o.field == id
  }

  /** The fields of the selections were found and observed, and the fragments they spread were
      visited. */
  ghost predicate Covered(d: Document, found: Found, selections: seq<Selection>, parent: string,
                          selector: string)
    decreases selections
  {
    forall s :: s in selections ==> CoveredOne(d, found, s, parent, selector)
  }

  ghost predicate CoveredOne(d: Document, found: Found, s: Selection, parent: string,
                             selector: string)
    decreases s
  {
    match s
    case Field(Some(name), nested, _) =>
      && FieldId(parent, name) in found.fields
      && Observed(found, selector, FieldId(parent, name))
      && (nested.Present? && (parent, name) in d.fieldTypes ==>
            Covered(d, found, nested.selections, d.fieldTypes[(parent, name)],
                    FieldId(parent, name)))
    case Spread(Some(name)) => name in found.visited
    case Inline(condition, inner) =>
      inner.Present? ==>
        Covered(d, found, inner.selections, SelectionParent(d, condition, parent), selector)
    case _ => true
  }

  /** The fragment's body was expanded under its owner. */
  ghost predicate FragmentCovered(d: Document, owners: Owners, found: Found, name: string) {
    HasBody(d, name) ==>
      name in owners && Covered(d, found, BodyOf(d, name), TypeOf(d, name, ""), owners[name])
  }

  ghost predicate Grows(a: Found, b: Found) {
    && a.visited <= b.visited && a.fields <= b.fields
    && forall o :: o in a.observations ==> o in b.observations
  }

  lemma {:induction false} CoveredGrows(d: Document, a: Found, b: Found,
                                        selections: seq<Selection>, parent: string,
                                        selector: string)
    requires Grows(a, b) && Covered(d, a, selections, parent, selector)
    ensures Covered(d, b, selections, parent, selector)
    decreases selections
  {
    forall s | s in selections
      ensures CoveredOne(d, b, s, parent, selector)
    {
      CoveredOneGrows(d, a, b, s, parent, selector);
    }
  }

  lemma {:induction false} CoveredOneGrows(d: Document, a: Found, b: Found, s: Selection,
                                           parent: string, selector: string)
    requires Grows(a, b) && CoveredOne(d, a, s, parent, selector)
    ensures CoveredOne(d, b, s, parent, selector)
    decreases s
  {
    match s
    case Field(Some(name), nested, _) =>
      var o :| o in a.observations && o.selector == selector && o.field == FieldId(parent, name);
      assert o in b.observations;
      if nested.Present? && (parent, name) in d.fieldTypes {
        CoveredGrows(d, a, b, nested.selections, d.fieldTypes[(parent, name)],
                     FieldId(parent, name));
      }
    case Inline(condition, inner) =>
      if inner.Present? {
        CoveredGrows(d, a, b, inner.selections, SelectionParent(d, condition, parent), selector);
      }
    case Spread(_) =>
    case Field(None, _, _) =>
  }

  /** Every fragment visited on the way from `before` to `after` has been expanded. */
  ghost predicate NewlyCovered(d: Document, owners: Owners, before: Found, after: Found) {
    forall name :: name in after.visited && name !in before.visited ==>
      FragmentCovered(d, owners, after, name)
  }

  lemma NewlyCoveredGrows(d: Document, owners: Owners, before: Found, middle: Found, after: Found)
    requires Grows(middle, after) && NewlyCovered(d, owners, before, middle)
    requires NewlyCovered(d, owners, middle, after)
    ensures NewlyCovered(d, owners, before, after)
  {
    forall name | name in after.visited && name !in before.visited
      ensures FragmentCovered(d, owners, after, name)
    {
      if name in middle.visited && HasBody(d, name) {
        assert FragmentCovered(d, owners, middle, name);
        CoveredGrows(d, middle, after, BodyOf(d, name), TypeOf(d, name, ""), owners[name]);
      }
    }
  }

  lemma {:induction false} ExpandCovers(d: Document, owners: Owners, found: Found, first: Owners,
                                        selections: seq<Selection>, parent: string,
                                        selector: string)
    requires Conditioned(d) && found.visited == first.Keys
    requires Extends(First(d, first, selections, parent, selector), owners)
    ensures var after := Expand(d, found, selections, parent, selector);
            && after.visited == First(d, first, selections, parent, selector).Keys
            && Grows(found, after) && Covered(d, after, selections, parent, selector)
            && NewlyCovered(d, owners, found, after)
    decreases d.fragments.Keys - found.visited, selections
  {
    if selections != [] {
      var front, last := selections[..|selections| - 1], selections[|selections| - 1];
      var before := Expand(d, found, front, parent, selector);
      var after := ExpandOne(d, before, last, parent, selector);
      ExpandCovers(d, owners, found, first, front, parent, selector);
      Fewer(d, found.visited, before.visited);
      ExpandOneCovers(d, owners, before, First(d, first, front, parent, selector), last, parent,
                      selector);
      CoveredGrows(d, before, after, front, parent, selector);
      NewlyCoveredGrows(d, owners, found, before, after);
      forall s | s in selections
        ensures CoveredOne(d, after, s, parent, selector)
      {
        assert s in front || s == last;
      }
    }
  }

  lemma {:induction false} ExpandOneCovers(d: Document, owners: Owners, found: Found,
                                           first: Owners, s: Selection, parent: string,
                                           selector: string)
    requires Conditioned(d) && found.visited == first.Keys
    requires Extends(FirstOne(d, first, s, parent, selector), owners)
    ensures var after := ExpandOne(d, found, s, parent, selector);
            && after.visited == FirstOne(d, first, s, parent, selector).Keys
            && Grows(found, after) && CoveredOne(d, after, s, parent, selector)
            && NewlyCovered(d, owners, found, after)
    decreases d.fragments.Keys - found.visited, s
  {
    match s
    case Field(Some(name), nested, evidence) =>
      var id := FieldId(parent, name);
      var noted := Note(found, id, selector, evidence);
      var o := noted.observations[|found.observations|];
      assert o in noted.observations && o.selector == selector && o.field == id;
      if nested.Present? && (parent, name) in d.fieldTypes {
        ExpandCovers(d, owners, noted, first, nested.selections, d.fieldTypes[(parent, name)], id);
        assert o in ExpandOne(d, found, s, parent, selector).observations;
      }
    case Spread(Some(name)) =>
      if name !in found.visited && HasBody(d, name) {
        var marked := found.(visited := found.visited + {name});
        Marked(d, found.visited, name);
        assert first[name := selector].Keys == first.Keys + {name};
        assert TypeOf(d, name, parent) == TypeOf(d, name, "");
        ExpandCovers(d, owners, marked, first[name := selector], BodyOf(d, name),
                     TypeOf(d, name, parent), selector);
      }
    case Inline(condition, inner) =>
      if inner.Present? {
        ExpandCovers(d, owners, found, first, inner.selections,
                     SelectionParent(d, condition, parent), selector);
      }
    case Field(None, _, _) =>
    case Spread(None) =>
  }

  // ---- the expansion of an operation --------------------------------------------------------------------

  /** What the expansion of an operation has found, and which selector owns each fragment. */
  ghost predicate Complete(d: Document, owners: Owners, found: Found) {
    && found.visited == owners.Keys
    && forall name :: name in found.visited ==> FragmentCovered(d, owners, found, name)
  }

  lemma Expanded(d: Document, selections: seq<Selection>, parent: string, selector: string)
    requires Conditioned(d)
    ensures var (owners, found) := (First(d, map[], selections, parent, selector),
                                    Expand(d, NONE, selections, parent, selector));
            && Complete(d, owners, found) && Covered(d, found, selections, parent, selector)
            && Adds(d, owners, NONE, found, selections, parent, selector)
  {
    var owners := First(d, map[], selections, parent, selector);
    ExpandAdds(d, owners, NONE, map[], selections, parent, selector);
    ExpandCovers(d, owners, NONE, map[], selections, parent, selector);
  }

  /** A field below a covered selection was found, under whatever selector it unfolds. */
  lemma {:induction false} UnfoldingIsFound(d: Document, owners: Owners, found: Found, s: Selection,
                                            parent: string, selector: string, covered: string,
                                            source: string, id: string, n: nat)
    requires Conditioned(d) && Complete(d, owners, found)
    requires CoveredOne(d, found, s, parent, covered)
    requires UnfoldsOne(d, None, s, parent, selector, Chosen(source, id), n)
    ensures id in found.fields
    decreases n
  {
    var part := Chosen(source, id);
    match s
    case Field(Some(name), nested, _) =>
      if part != Chosen(selector, FieldId(parent, name)) {
        var inside, through := d.fieldTypes[(parent, name)], FieldId(parent, name);
        var t :| t in nested.selections && UnfoldsOne(d, None, t, inside, through, part, n - 1);
        UnfoldingIsFound(d, owners, found, t, inside, through, through, source, id, n - 1);
      }
    case Spread(Some(name)) =>
      var inside := TypeOf(d, name, parent);
      var t :| t in BodyOf(d, name) && UnfoldsOne(d, None, t, inside, selector, part, n - 1);
      assert inside == TypeOf(d, name, "") && FragmentCovered(d, owners, found, name);
      UnfoldingIsFound(d, owners, found, t, inside, selector, owners[name], source, id, n - 1);
    case Inline(condition, inner) =>
      var inside := SelectionParent(d, condition, parent);
      var t :| t in inner.selections && UnfoldsOne(d, None, t, inside, selector, part, n - 1);
      UnfoldingIsFound(d, owners, found, t, inside, selector, covered, source, id, n - 1);
    case Field(None, _, _) =>
    case Spread(None) =>
  }

  /** The fields found are exactly those of the infinite unfolding, cyclic fragments included. */
  lemma FieldsAreExact(d: Document, selections: seq<Selection>, parent: string, selector: string,
                       id: string)
    requires Conditioned(d)
    ensures id in Expand(d, NONE, selections, parent, selector).fields
       <==> exists source ::
              InUnfolding(d, None, selections, parent, selector, Chosen(source, id))
  {
    var owners := First(d, map[], selections, parent, selector);
    var found := Expand(d, NONE, selections, parent, selector);
    Expanded(d, selections, parent, selector);
    if id in found.fields {
      var o :| o in found.observations && o.field == id;
      var n: nat :| Unfolds(d, Some(owners), selections, parent, selector, Chosen(o.selector, id), n);
      FollowingAll(d, owners, selections, parent, selector, Chosen(o.selector, id), n);
    }
    if source :| InUnfolding(d, None, selections, parent, selector, Chosen(source, id)) {
      var n: nat :| Unfolds(d, None, selections, parent, selector, Chosen(source, id), n);
      var s :| s in selections
               && UnfoldsOne(d, None, s, parent, selector, Chosen(source, id), n);
      UnfoldingIsFound(d, owners, found, s, parent, selector, selector, source, id, n);
    }
  }

  /** A selection below a covered one was observed, as long as spreads are followed under their
      owners only. */
  lemma {:induction false} OwnedIsObserved(d: Document, owners: Owners, found: Found, s: Selection,
                                           parent: string, selector: string, source: string,
                                           id: string, n: nat)
    requires Conditioned(d) && Complete(d, owners, found)
    requires CoveredOne(d, found, s, parent, selector)
    requires UnfoldsOne(d, Some(owners), s, parent, selector, Chosen(source, id), n)
    ensures Observed(found, source, id)
    decreases n
  {
    var part := Chosen(source, id);
    match s
    case Field(Some(name), nested, _) =>
      if part != Chosen(selector, FieldId(parent, name)) {
        var inside, through := d.fieldTypes[(parent, name)], FieldId(parent, name);
        var t :| t in nested.selections
                 && UnfoldsOne(d, Some(owners), t, inside, through, part, n - 1);
        OwnedIsObserved(d, owners, found, t, inside, through, source, id, n - 1);
      }
    case Spread(Some(name)) =>
      var inside := TypeOf(d, name, parent);
      var t :| t in BodyOf(d, name)
               && UnfoldsOne(d, Some(owners), t, inside, selector, part, n - 1);
      assert inside == TypeOf(d, name, "") && FragmentCovered(d, owners, found, name);
      OwnedIsObserved(d, owners, found, t, inside, selector, source, id, n - 1);
    case Inline(condition, inner) =>
      var inside := SelectionParent(d, condition, parent);
      var t :| t in inner.selections
               && UnfoldsOne(d, Some(owners), t, inside, selector, part, n - 1);
      OwnedIsObserved(d, owners, found, t, inside, selector, source, id, n - 1);
    case Field(None, _, _) =>
    case Spread(None) =>
  }

  /** The selections observed are exactly those of the unfolding that follows a spread only under
      the selector that spread the fragment first. */
  lemma ObservationsAreExact(d: Document, selections: seq<Selection>, parent: string,
                             selector: string, source: string, id: string)
    requires Conditioned(d)
    ensures var owners := First(d, map[], selections, parent, selector);
            (Observed(Expand(d, NONE, selections, parent, selector), source, id)
             <==> InUnfolding(d, Some(owners), selections, parent, selector, Chosen(source, id)))
  {
    var owners := First(d, map[], selections, parent, selector);
    var found := Expand(d, NONE, selections, parent, selector);
    Expanded(d, selections, parent, selector);
    if InUnfolding(d, Some(owners), selections, parent, selector, Chosen(source, id)) {
      var n: nat :| Unfolds(d, Some(owners), selections, parent, selector, Chosen(source, id), n);
      var s :| s in selections
               && UnfoldsOne(d, Some(owners), s, parent, selector, Chosen(source, id), n);
      OwnedIsObserved(d, owners, found, s, parent, selector, source, id, n);
    }
  }

  // ---- when nothing is lost -------------------------------------------------------------------------------

  /** The selection selects the field itself, through inline fragments at most. */
  ghost predicate Direct(d: Document, s: Selection, parent: string, id: string)
    decreases s
  {
    match s
    case Field(Some(name), _, _) => id == FieldId(parent, name)
    case Inline(condition, inner) =>
      inner.Present? && exists t ::
        t in inner.selections && Direct(d, t, SelectionParent(d, condition, parent), id)
    case _ => false
  }

  /** Some field the fragment itself selects is not observed under `at`. */
  ghost predicate Misses(d: Document, found: Found, name: string, at: string) {
    HasBody(d, name) && exists t, id ::
      t in BodyOf(d, name) && Direct(d, t, TypeOf(d, name, ""), id) && !Observed(found, at, id)
  }

  /** Every selection of the unfolding was observed. */
  ghost predicate NothingLost(d: Document, selections: seq<Selection>, parent: string,
                              selector: string)
  {
    forall source, id ::
      InUnfolding(d, None, selections, parent, selector, Chosen(source, id)) ==>
        Observed(Expand(d, NONE, selections, parent, selector), source, id)
  }

  lemma {:induction false} DirectIsObserved(d: Document, found: Found, s: Selection, parent: string,
                                            selector: string, id: string)
    requires CoveredOne(d, found, s, parent, selector) && Direct(d, s, parent, id)
    ensures Observed(found, selector, id)
    decreases s
  {
    if s.Inline? {
      var inside := SelectionParent(d, s.condition, parent);
      var t :| t in s.inner.selections && Direct(d, t, inside, id);
      DirectIsObserved(d, found, t, inside, selector, id);
    }
  }

  lemma {:induction false} DirectUnfolds(d: Document, s: Selection, parent: string,
                                         selector: string, id: string) returns (n: nat)
    requires Direct(d, s, parent, id)
    ensures UnfoldsOne(d, None, s, parent, selector, Chosen(selector, id), n)
    decreases s
  {
    if s.Inline? {
      var inside := SelectionParent(d, s.condition, parent);
      var t :| t in s.inner.selections && Direct(d, t, inside, id);
      n := DirectUnfolds(d, t, inside, selector, id);
      assert Unfolds(d, None, s.inner.selections, inside, selector, Chosen(selector, id), n);
      n := n + 1;
    } else {
      n := 1;
    }
  }

  /** Wherever a fragment is spread, what it selects itself is selected. */
  lemma {:induction false} SpreadSelects(d: Document, selections: seq<Selection>, parent: string,
                                         selector: string, name: string, at: string,
                                         body: Selection, id: string, n: nat) returns (m: nat)
    requires Conditioned(d)
    requires Unfolds(d, None, selections, parent, selector, SpreadAt(at, name), n)
    requires HasBody(d, name) && body in BodyOf(d, name) && Direct(d, body, TypeOf(d, name, ""), id)
    ensures Unfolds(d, None, selections, parent, selector, Chosen(at, id), m)
    decreases n
  {
    var part := SpreadAt(at, name);
    var s :| s in selections && UnfoldsOne(d, None, s, parent, selector, part, n);
    match s
    case Field(Some(field), nested, _) =>
      m := SpreadSelects(d, nested.selections, d.fieldTypes[(parent, field)],
                         FieldId(parent, field), name, at, body, id, n - 1);
      m := m + 1;
    case Spread(Some(other)) =>
      if part == SpreadAt(selector, other) {
        m := DirectUnfolds(d, body, TypeOf(d, name, ""), selector, id);
        assert TypeOf(d, name, "") == TypeOf(d, name, parent);
        assert Unfolds(d, None, BodyOf(d, name), TypeOf(d, name, parent), selector,
                       Chosen(at, id), m);
      } else {
        m := SpreadSelects(d, BodyOf(d, other), TypeOf(d, other, parent), selector, name, at,
                           body, id, n - 1);
      }
      m := m + 1;
    case Inline(condition, inner) =>
      m := SpreadSelects(d, inner.selections, SelectionParent(d, condition, parent), selector,
                         name, at, body, id, n - 1);
      m := m + 1;
    case Field(None, _, _) =>
    case Spread(None) =>
  }

  /** No spread below the selection misses a field. */
  ghost predicate SpreadsObserved(d: Document, found: Found, s: Selection, parent: string,
                                  selector: string)
  {
    forall name, at, n: nat {:trigger UnfoldsOne(d, None, s, parent, selector, SpreadAt(at, name), n)} ::
      UnfoldsOne(d, None, s, parent, selector, SpreadAt(at, name), n) ==>
        !Misses(d, found, name, at)
  }

  lemma InnerSpreads(d: Document, found: Found, s: Selection, parent: string, selector: string,
                     inner: seq<Selection>, t: Selection, inside: string, through: string)
    requires SpreadsObserved(d, found, s, parent, selector) && t in inner
    requires forall part, n: nat :: Unfolds(d, None, inner, inside, through, part, n) ==>
               UnfoldsOne(d, None, s, parent, selector, part, n + 1)
    ensures SpreadsObserved(d, found, t, inside, through)
  {
    forall name, at, n: nat | UnfoldsOne(d, None, t, inside, through, SpreadAt(at, name), n)
      ensures !Misses(d, found, name, at)
    {
      assert Unfolds(d, None, inner, inside, through, SpreadAt(at, name), n);
      assert UnfoldsOne(d, None, s, parent, selector, SpreadAt(at, name), n + 1);
    }
  }

  /** Where no spread misses a field, whatever unfolds was observed. */
  lemma {:induction false} UnfoldingIsObserved(d: Document, owners: Owners, found: Found,
                                               s: Selection, parent: string, selector: string,
                                               covered: string, source: string, id: string, n: nat)
    requires Conditioned(d) && Complete(d, owners, found)
    requires CoveredOne(d, found, s, parent, covered)
    requires forall own :: Direct(d, s, parent, own) ==> Observed(found, selector, own)
    requires SpreadsObserved(d, found, s, parent, selector)
    requires UnfoldsOne(d, None, s, parent, selector, Chosen(source, id), n)
    ensures Observed(found, source, id)
    decreases n
  {
    var part := Chosen(source, id);
    match s
    case Field(Some(name), nested, _) =>
      if part == Chosen(selector, FieldId(parent, name)) {
        assert Direct(d, s, parent, id);
      } else {
        var inside, through := d.fieldTypes[(parent, name)], FieldId(parent, name);
        var t :| t in nested.selections && UnfoldsOne(d, None, t, inside, through, part, n - 1);
        forall own | Direct(d, t, inside, own)
          ensures Observed(found, through, own)
        {
          DirectIsObserved(d, found, t, inside, through, own);
        }
        InnerSpreads(d, found, s, parent, selector, nested.selections, t, inside, through);
        UnfoldingIsObserved(d, owners, found, t, inside, through, through, source, id, n - 1);
      }
    case Spread(Some(name)) =>
      var inside := TypeOf(d, name, parent);
      var t :| t in BodyOf(d, name) && UnfoldsOne(d, None, t, inside, selector, part, n - 1);
      assert inside == TypeOf(d, name, "") && FragmentCovered(d, owners, found, name);
      assert UnfoldsOne(d, None, s, parent, selector, SpreadAt(selector, name), 1);
      assert !Misses(d, found, name, selector);
      InnerSpreads(d, found, s, parent, selector, BodyOf(d, name), t, inside, selector);
      UnfoldingIsObserved(d, owners, found, t, inside, selector, owners[name], source, id, n - 1);
    case Inline(condition, inner) =>
      var inside := SelectionParent(d, condition, parent);
      var t :| t in inner.selections && UnfoldsOne(d, None, t, inside, selector, part, n - 1);
      assert forall own :: Direct(d, t, inside, own) ==> Direct(d, s, parent, own);
      InnerSpreads(d, found, s, parent, selector, inner.selections, t, inside, selector);
      UnfoldingIsObserved(d, owners, found, t, inside, selector, covered, source, id, n - 1);
    case Field(None, _, _) =>
    case Spread(None) =>
  }

  lemma NothingIsMissed(d: Document, selections: seq<Selection>, parent: string, selector: string)
    requires Conditioned(d)
    ensures NothingLost(d, selections, parent, selector)
       <==> forall name, at ::
              InUnfolding(d, None, selections, parent, selector, SpreadAt(at, name)) ==>
                !Misses(d, Expand(d, NONE, selections, parent, selector), name, at)
  {
    var found := Expand(d, NONE, selections, parent, selector);
    if NothingLost(d, selections, parent, selector) {
      forall name, at | InUnfolding(d, None, selections, parent, selector, SpreadAt(at, name))
        ensures !Misses(d, found, name, at)
      {
        if Misses(d, found, name, at) {
          var t, id :| t in BodyOf(d, name) && Direct(d, t, TypeOf(d, name, ""), id)
                       && !Observed(found, at, id);
          var n: nat :| Unfolds(d, None, selections, parent, selector, SpreadAt(at, name), n);
          var m := SpreadSelects(d, selections, parent, selector, name, at, t, id, n);
          assert InUnfolding(d, None, selections, parent, selector, Chosen(at, id));
        }
      }
    }
    if forall name, at :: InUnfolding(d, None, selections, parent, selector, SpreadAt(at, name)) ==>
                            !Misses(d, found, name, at) {
      forall source, id | InUnfolding(d, None, selections, parent, selector, Chosen(source, id))
        ensures Observed(found, source, id)
      {
        HarmlessIsObserved(d, selections, parent, selector, source, id);
      }
    }
  }

  lemma HarmlessIsObserved(d: Document, selections: seq<Selection>, parent: string,
                           selector: string, source: string, id: string)
    requires Conditioned(d)
    requires forall name, at ::
               InUnfolding(d, None, selections, parent, selector, SpreadAt(at, name)) ==>
                 !Misses(d, Expand(d, NONE, selections, parent, selector), name, at)
    requires InUnfolding(d, None, selections, parent, selector, Chosen(source, id))
    ensures Observed(Expand(d, NONE, selections, parent, selector), source, id)
  {
    var owners := First(d, map[], selections, parent, selector);
    var found := Expand(d, NONE, selections, parent, selector);
    Expanded(d, selections, parent, selector);
    var n: nat :| Unfolds(d, None, selections, parent, selector, Chosen(source, id), n);
    var s :| s in selections && UnfoldsOne(d, None, s, parent, selector, Chosen(source, id), n);
    forall own | Direct(d, s, parent, own)
      ensures Observed(found, selector, own)
    {
      DirectIsObserved(d, found, s, parent, selector, own);
    }
    forall name, at, k: nat | UnfoldsOne(d, None, s, parent, selector, SpreadAt(at, name), k)
      ensures !Misses(d, found, name, at)
    {
      MemberUnfolds(d, None, selections, s, parent, selector, SpreadAt(at, name), k);
    }
    UnfoldingIsObserved(d, owners, found, s, parent, selector, selector, source, id, n);
  }

  /** Some field the fragment itself selects is not in the unfolding under `at` that follows a
      spread only under the selector that spread the fragment first. */
  ghost predicate Lacks(d: Document, selections: seq<Selection>, parent: string, selector: string,
                        name: string, at: string)
  {
    var owners := First(d, map[], selections, parent, selector);
    HasBody(d, name) && exists t, id ::
      t in BodyOf(d, name) && Direct(d, t, TypeOf(d, name, ""), id)
      && !InUnfolding(d, Some(owners), selections, parent, selector, Chosen(at, id))
  }

  lemma LackingIsMissing(d: Document, selections: seq<Selection>, parent: string, selector: string,
                         name: string, at: string)
    requires Conditioned(d)
    ensures Lacks(d, selections, parent, selector, name, at)
       <==> Misses(d, Expand(d, NONE, selections, parent, selector), name, at)
  {
    forall id
      ensures Observed(Expand(d, NONE, selections, parent, selector), at, id)
         <==> InUnfolding(d, Some(First(d, map[], selections, parent, selector)), selections, parent,
                          selector, Chosen(at, id))
    {
      ObservationsAreExact(d, selections, parent, selector, at, id);
    }
  }

  /** No selection of the unfolding is lost if and only if, wherever a fragment is spread, the
      fields it selects itself are selected there without following later spreads. */
  lemma NothingIsLost(d: Document, selections: seq<Selection>, parent: string, selector: string)
    requires Conditioned(d)
    ensures NothingLost(d, selections, parent, selector)
       <==> forall name, at ::
              InUnfolding(d, None, selections, parent, selector, SpreadAt(at, name)) ==>
                !Lacks(d, selections, parent, selector, name, at)
  {
    NothingIsMissed(d, selections, parent, selector);
    forall name, at
      ensures Lacks(d, selections, parent, selector, name, at)
         <==> Misses(d, Expand(d, NONE, selections, parent, selector), name, at)
    {
      LackingIsMissing(d, selections, parent, selector, name, at);
    }
  }

  // ---- fragments spread under one selector ----------------------------------------------------------------

  /** Every spread outside a fragment's own fields is under that fragment's one selector. */
  ghost predicate Owned(d: Document, owners: Owners, selections: seq<Selection>, parent: string,
                        selector: string)
    decreases selections
  {
    forall s :: s in selections ==> OwnedOne(d, owners, s, parent, selector)
  }

  ghost predicate OwnedOne(d: Document, owners: Owners, s: Selection, parent: string,
                           selector: string)
    decreases s
  {
    match s
    case Field(Some(name), nested, _) =>
      nested.Present? && (parent, name) in d.fieldTypes ==>
        Owned(d, owners, nested.selections, d.fieldTypes[(parent, name)], FieldId(parent, name))
    case Spread(Some(name)) => name in owners && owners[name] == selector
    case Inline(condition, inner) =>
      inner.Present? ==>
        Owned(d, owners, inner.selections, SelectionParent(d, condition, parent), selector)
    case _ => true
  }

  ghost predicate FragmentsOwned(d: Document, owners: Owners) {
    forall name :: HasBody(d, name) && name in owners ==>
      Owned(d, owners, BodyOf(d, name), TypeOf(d, name, ""), owners[name])
  }

  /** No fragment is spread under two selectors. */
  ghost predicate SpreadUnderOne(d: Document, owners: Owners, selections: seq<Selection>,
                                 parent: string, selector: string)
  {
    Owned(d, owners, selections, parent, selector) && FragmentsOwned(d, owners)
  }

  /** Everything that unfolds then unfolds under the owners. */
  lemma {:induction false} OwnedUnfolds(d: Document, owners: Owners, selections: seq<Selection>,
                                        parent: string, selector: string, part: Part, n: nat)
    requires Conditioned(d) && SpreadUnderOne(d, owners, selections, parent, selector)
    requires Unfolds(d, None, selections, parent, selector, part, n)
    ensures Unfolds(d, Some(owners), selections, parent, selector, part, n)
    ensures part.SpreadAt? ==> part.name in owners && owners[part.name] == part.at
    decreases n
  {
    var s :| s in selections && UnfoldsOne(d, None, s, parent, selector, part, n);
    assert OwnedOne(d, owners, s, parent, selector);
    match s
    case Field(Some(name), nested, _) =>
      if part != Chosen(selector, FieldId(parent, name)) {
        OwnedUnfolds(d, owners, nested.selections, d.fieldTypes[(parent, name)],
                     FieldId(parent, name), part, n - 1);
      }
      assert UnfoldsOne(d, Some(owners), s, parent, selector, part, n);
    case Spread(Some(name)) =>
      if part != SpreadAt(selector, name) {
        assert TypeOf(d, name, parent) == TypeOf(d, name, "");
        OwnedUnfolds(d, owners, BodyOf(d, name), TypeOf(d, name, parent), selector, part, n - 1);
      }
      assert UnfoldsOne(d, Some(owners), s, parent, selector, part, n);
    case Inline(condition, inner) =>
      OwnedUnfolds(d, owners, inner.selections, SelectionParent(d, condition, parent), selector,
                   part, n - 1);
      assert UnfoldsOne(d, Some(owners), s, parent, selector, part, n);
    case Field(None, _, _) =>
    case Spread(None) =>
  }

  /** Whatever is visited was spread somewhere, by the selector recorded for it. */
  predicate Agrees(first: Owners, owners: Owners) {
    forall name :: name in first ==> name in owners && owners[name] == first[name]
  }

  lemma {:induction false} FirstAgrees(d: Document, owners: Owners, first: Owners,
                                       selections: seq<Selection>, parent: string,
                                       selector: string)
    requires Conditioned(d) && Agrees(first, owners)
    requires SpreadUnderOne(d, owners, selections, parent, selector)
    ensures Agrees(First(d, first, selections, parent, selector), owners)
    decreases d.fragments.Keys - first.Keys, selections
  {
    if selections != [] {
      var front, last := selections[..|selections| - 1], selections[|selections| - 1];
      var before := First(d, first, front, parent, selector);
      FirstAgrees(d, owners, first, front, parent, selector);
      Fewer(d, first.Keys, before.Keys);
      assert last in selections;
      FirstOneAgrees(d, owners, before, last, parent, selector);
    }
  }

  lemma {:induction false} FirstOneAgrees(d: Document, owners: Owners, first: Owners,
                                          s: Selection, parent: string, selector: string)
    requires Conditioned(d) && Agrees(first, owners)
    requires OwnedOne(d, owners, s, parent, selector) && FragmentsOwned(d, owners)
    ensures Agrees(FirstOne(d, first, s, parent, selector), owners)
    decreases d.fragments.Keys - first.Keys, s
  {
    match s
    case Field(Some(name), nested, _) =>
      if nested.Present? && (parent, name) in d.fieldTypes {
        FirstAgrees(d, owners, first, nested.selections, d.fieldTypes[(parent, name)],
                    FieldId(parent, name));
      }
    case Spread(Some(name)) =>
      if name !in first && HasBody(d, name) {
        Marked(d, first.Keys, name);
        assert first[name := selector].Keys == first.Keys + {name};
        assert TypeOf(d, name, parent) == TypeOf(d, name, "");
        FirstAgrees(d, owners, first[name := selector], BodyOf(d, name), TypeOf(d, name, parent),
                    selector);
      }
    case Inline(condition, inner) =>
      if inner.Present? {
        FirstAgrees(d, owners, first, inner.selections, SelectionParent(d, condition, parent),
                    selector);
      }
    case Field(None, _, _) =>
    case Spread(None) =>
  }

  /** A spread below a covered selection was visited. */
  lemma {:induction false} SpreadIsVisited(d: Document, owners: Owners, found: Found, s: Selection,
                                           parent: string, selector: string, covered: string,
                                           at: string, name: string, n: nat)
    requires Conditioned(d) && Complete(d, owners, found)
    requires CoveredOne(d, found, s, parent, covered)
    requires UnfoldsOne(d, None, s, parent, selector, SpreadAt(at, name), n)
    ensures name in found.visited
    decreases n
  {
    var part := SpreadAt(at, name);
    match s
    case Field(Some(field), nested, _) =>
      var inside, through := d.fieldTypes[(parent, field)], FieldId(parent, field);
      var t :| t in nested.selections && UnfoldsOne(d, None, t, inside, through, part, n - 1);
      SpreadIsVisited(d, owners, found, t, inside, through, through, at, name, n - 1);
    case Spread(Some(other)) =>
      if part != SpreadAt(selector, other) {
        var inside := TypeOf(d, other, parent);
        var t :| t in BodyOf(d, other) && UnfoldsOne(d, None, t, inside, selector, part, n - 1);
        assert inside == TypeOf(d, other, "") && FragmentCovered(d, owners, found, other);
        SpreadIsVisited(d, owners, found, t, inside, selector, owners[other], at, name, n - 1);
      }
    case Inline(condition, inner) =>
      var inside := SelectionParent(d, condition, parent);
      var t :| t in inner.selections && UnfoldsOne(d, None, t, inside, selector, part, n - 1);
      SpreadIsVisited(d, owners, found, t, inside, selector, covered, at, name, n - 1);
    case Field(None, _, _) =>
    case Spread(None) =>
  }

  lemma OwnerMissesNothing(d: Document, owners: Owners, found: Found, name: string)
    requires Complete(d, owners, found) && name in found.visited
    ensures !Misses(d, found, name, owners[name])
  {
    assert FragmentCovered(d, owners, found, name);
    forall t, id | HasBody(d, name) && t in BodyOf(d, name) && Direct(d, t, TypeOf(d, name, ""), id)
      ensures Observed(found, owners[name], id)
    {
      DirectIsObserved(d, found, t, TypeOf(d, name, ""), owners[name], id);
    }
  }

  /** When no fragment is spread under two selectors, nothing is lost: the selections observed are
      exactly those of the infinite unfolding. */
  lemma SelectionsAreExact(d: Document, owners: Owners, selections: seq<Selection>,
                           parent: string, selector: string, source: string, id: string)
    requires Conditioned(d) && SpreadUnderOne(d, owners, selections, parent, selector)
    ensures Observed(Expand(d, NONE, selections, parent, selector), source, id)
       <==> InUnfolding(d, None, selections, parent, selector, Chosen(source, id))
  {
    var first := First(d, map[], selections, parent, selector);
    var found := Expand(d, NONE, selections, parent, selector);
    Expanded(d, selections, parent, selector);
    FirstAgrees(d, owners, map[], selections, parent, selector);
    ObservationsAreExact(d, selections, parent, selector, source, id);
    if Observed(found, source, id) {
      var n: nat :| Unfolds(d, Some(first), selections, parent, selector, Chosen(source, id), n);
      FollowingAll(d, first, selections, parent, selector, Chosen(source, id), n);
    }
    forall name, at | InUnfolding(d, None, selections, parent, selector, SpreadAt(at, name))
      ensures !Misses(d, found, name, at)
    {
      var n: nat :| Unfolds(d, None, selections, parent, selector, SpreadAt(at, name), n);
      OwnedUnfolds(d, owners, selections, parent, selector, SpreadAt(at, name), n);
      var s :| s in selections && UnfoldsOne(d, None, s, parent, selector, SpreadAt(at, name), n);
      SpreadIsVisited(d, first, found, s, parent, selector, selector, at, name, n);
      OwnerMissesNothing(d, first, found, name);
    }
    NothingIsMissed(d, selections, parent, selector);
  }

  /** A fragment spread under a second selector is not expanded again: that selection is in the
      unfolding but is not observed. */
  lemma SecondSpreadIsLost(d: Document, selections: seq<Selection>)
    requires d == Document(map["F" := Fragment(Some("T"), Present([Field(Some("x"), Absent, "")]))],
                           map[("Query", "a") := "T", ("Query", "b") := "T"], map[])
    requires selections == [Field(Some("a"), Present([Spread(Some("F"))]), ""),
                            Field(Some("b"), Present([Spread(Some("F"))]), "")]
    ensures InUnfolding(d, None, selections, "Query", "op",
                        Chosen(FieldId("Query", "b"), FieldId("T", "x")))
    ensures !Observed(Expand(d, NONE, selections, "Query", "op"), FieldId("Query", "b"),
                      FieldId("T", "x"))
  {
    LostUnfolds(d, selections);
    LostExpands(d, selections);
  }

  lemma LostUnfolds(d: Document, selections: seq<Selection>)
    requires d == Document(map["F" := Fragment(Some("T"), Present([Field(Some("x"), Absent, "")]))],
                           map[("Query", "a") := "T", ("Query", "b") := "T"], map[])
    requires |selections| == 2 && selections[1] == Field(Some("b"), Present([Spread(Some("F"))]), "")
    ensures InUnfolding(d, None, selections, "Query", "op",
                        Chosen(FieldId("Query", "b"), FieldId("T", "x")))
  {
    var (b, x) := (FieldId("Query", "b"), FieldId("T", "x"));
    var inner := [Field(Some("x"), Absent, "")];
    var spread: seq<Selection> := [Spread(Some("F"))];
    assert inner[0] in inner && UnfoldsOne(d, None, inner[0], "T", b, Chosen(b, x), 1);
    assert Unfolds(d, None, inner, "T", b, Chosen(b, x), 1);
    assert spread[0] in spread && UnfoldsOne(d, None, spread[0], "T", b, Chosen(b, x), 2);
    assert Unfolds(d, None, spread, "T", b, Chosen(b, x), 2);
    assert UnfoldsOne(d, None, selections[1], "Query", "op", Chosen(b, x), 3);
    assert Unfolds(d, None, selections, "Query", "op", Chosen(b, x), 3);
  }

  lemma LostExpands(d: Document, selections: seq<Selection>)
    requires d == Document(map["F" := Fragment(Some("T"), Present([Field(Some("x"), Absent, "")]))],
                           map[("Query", "a") := "T", ("Query", "b") := "T"], map[])
    requires selections == [Field(Some("a"), Present([Spread(Some("F"))]), ""),
                            Field(Some("b"), Present([Spread(Some("F"))]), "")]
    ensures !Observed(Expand(d, NONE, selections, "Query", "op"), FieldId("Query", "b"),
                      FieldId("T", "x"))
  {
    var (a, b, x) := (FieldId("Query", "a"), FieldId("Query", "b"), FieldId("T", "x"));
    var inner := [Field(Some("x"), Absent, "")];
    var spread: seq<Selection> := [Spread(Some("F"))];
    var one := Note(NONE, a, "op", "");
    var two := Note(one.(visited := {"F"}), x, a, "");
    assert one.visited + {"F"} == {"F"};
    assert Expand(d, one.(visited := {"F"}), inner, "T", a) == two by {
      assert inner[..0] == [];
    }
    assert ExpandOne(d, one, spread[0], "T", a) == two;
    assert spread[..0] == [];
    assert Expand(d, one, spread, "T", a) == two;
    assert ExpandOne(d, NONE, selections[0], "Query", "op") == two;
    assert selections[..1] == [selections[0]] && selections[..1][..0] == [];
    assert Expand(d, NONE, selections[..1], "Query", "op") == two;
    var three := Note(two, b, "op", "");
    assert ExpandOne(d, three, spread[0], "T", b) == three;
    assert Expand(d, three, spread, "T", b) == three;
    assert ExpandOne(d, two, selections[1], "Query", "op") == three;
    assert Expand(d, NONE, selections, "Query", "op") == three;
    assert three.observations == [Observation("op", a, ""), Observation(a, x, ""),
                                  Observation("op", b, "")];
    assert a[|a| - 1] == 'a' && b[|b| - 1] == 'b' && |"op"| == 2 && |b| > 2;
  }
}
