/** The facts of a GraphQL operation: its selections, with each fragment expanded where it is first
    spread. */
module GraphqlSelection {
  import opened Graph

  datatype Selection =
    | Field(name: Option<string>, nested: SelectionSet, evidence: string)
    | Spread(fragment: Option<string>)
    | Inline(condition: Option<string>, inner: SelectionSet)

  datatype SelectionSet = Absent | Present(selections: seq<Selection>)

  datatype Fragment = Fragment(condition: Option<string>, body: SelectionSet)

  datatype Document = Document(fragments: map<string, Fragment>,
                               fieldTypes: map<(string, string), string>,
                               roots: map<string, string>)

  datatype Observation = Observation(selector: string, field: string, evidence: string)

  datatype Found = Found(visited: set<string>, fields: set<string>, observations: seq<Observation>)

  const NONE := Found({}, {}, [])

  function FieldId(parent: string, name: string): string {
    "graphql-field://" + parent + "/" + name
  }

  /** The type a fragment applies to: a root type by its operation's name, or the type around it
      when it names none. */
  function SelectionParent(d: Document, condition: Option<string>, fallback: string): string {
    match condition
    case None => fallback
    case Some(parent) => if parent in d.roots then d.roots[parent] else parent
  }

  // ---- expansion ------------------------------------------------------------------------------------

  function Note(found: Found, id: string, selector: string, evidence: string): Found {
    found.(fields := found.fields + {id},
           observations := found.observations + [Observation(selector, id, evidence)])
  }

  function Expand(d: Document, found: Found, selections: seq<Selection>, parent: string,
                  selector: string): (out: Found)
    ensures found.visited <= out.visited
    decreases d.fragments.Keys - found.visited, selections
  {
    if selections == [] then found
    else
      var front, last := selections[..|selections| - 1], selections[|selections| - 1];
      var before := Expand(d, found, front, parent, selector);
      Fewer(d, found.visited, before.visited);
      ExpandOne(d, before, last, parent, selector)
  }

  function ExpandOne(d: Document, found: Found, selection: Selection, parent: string,
                     selector: string): (out: Found)
    ensures found.visited <= out.visited
    decreases d.fragments.Keys - found.visited, selection
  {
    match selection
    case Field(None, _, _) => found
    case Field(Some(name), nested, evidence) =>
      var id := FieldId(parent, name);
      var noted := Note(found, id, selector, evidence);
      if nested.Present? && (parent, name) in d.fieldTypes
      then Expand(d, noted, nested.selections, d.fieldTypes[(parent, name)], id)
      else noted
    case Spread(None) => found
    case Spread(Some(name)) =>
      if name in found.visited then found
      else
        var marked := found.(visited := found.visited + {name});
        if name in d.fragments && d.fragments[name].body.Present?
        then
          Marked(d, found.visited, name);
          Expand(d, marked, d.fragments[name].body.selections,
                 SelectionParent(d, d.fragments[name].condition, parent), selector)
        else marked
    case Inline(condition, inner) =>
      if inner.Present?
      then Expand(d, found, inner.selections, SelectionParent(d, condition, parent), selector)
      else found
  }

  lemma Fewer(d: Document, visited: set<string>, later: set<string>)
    requires visited <= later
    ensures d.fragments.Keys - later <= d.fragments.Keys - visited
    ensures d.fragments.Keys - later == d.fragments.Keys - visited
            || d.fragments.Keys - later < d.fragments.Keys - visited
  {
  }

  lemma Marked(d: Document, visited: set<string>, name: string)
    requires name in d.fragments && name !in visited
    ensures d.fragments.Keys - (visited + {name}) < d.fragments.Keys - visited
  {
  }

  /** Expansion as it is done, over the facts of one operation. */
  class SelectionFacts {
    const d: Document
    var visited: set<string>
    var fields: set<string>
    var observations: seq<Observation>

    function Contents(): Found
      reads this
    {
      Found(visited, fields, observations)
    }

    constructor (document: Document)
      ensures d == document && Contents() == NONE
    {
      d := document;
      visited, fields, observations := {}, {}, [];
    }

    method Select(selections: seq<Selection>, parent: string, selector: string)
      modifies this
      ensures Contents() == Expand(d, old(Contents()), selections, parent, selector)
      decreases d.fragments.Keys - visited, selections
    {
      ghost var start := Contents();
      for i := 0 to |selections|
        invariant Contents() == Expand(d, start, selections[..i], parent, selector)
      {
        assert selections[..i + 1][..i] == selections[..i];
        Fewer(d, start.visited, visited);
        SelectOne(selections[i], parent, selector);
      }
      assert selections[..|selections|] == selections;
    }

    method SelectOne(selection: Selection, parent: string, selector: string)
      modifies this
      ensures Contents() == ExpandOne(d, old(Contents()), selection, parent, selector)
      decreases d.fragments.Keys - visited, selection
    {
      match selection
      case Field(Some(name), nested, evidence) =>
        var id := FieldId(parent, name);
        fields := fields + {id};
        observations := observations + [Observation(selector, id, evidence)];
        if nested.Present? && (parent, name) in d.fieldTypes {
          Select(nested.selections, d.fieldTypes[(parent, name)], id);
        }
      case Spread(Some(name)) =>
        if name !in visited {
          ghost var before := visited;
          visited := visited + {name};
          if name in d.fragments && d.fragments[name].body.Present? {
            var fragment := d.fragments[name];
            Marked(d, before, name);
            Select(fragment.body.selections, SelectionParent(d, fragment.condition, parent),
                   selector);
          }
        }
      case Inline(condition, inner) =>
        if inner.Present? {
          Select(inner.selections, SelectionParent(d, condition, parent), selector);
        }
      case Field(None, _, _) =>
      case Spread(None) =>
    }
  }
}
