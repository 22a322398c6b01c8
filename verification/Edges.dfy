/** Merging acquired rows into edges, and the ordered adjacency lists a search walks. */
module Edges {
  import opened Order
  import opened Graph
  import opened PathSearch
  import opened Paths

  datatype EdgeData = EdgeData(confidence: real, evidence: set<(string, string)>)

  /** An edge keeps every piece of evidence of its rows and the greatest of their confidences. */
  ghost predicate Merged(rows: seq<Row>, key: EdgeKey, data: EdgeData) {
    && (forall e :: e in data.evidence <==>
          exists r :: r in rows && r.Key() == key && e == (r.evidence, r.provenance))
    && (exists r :: r in rows && r.Key() == key && r.confidence == data.confidence)
    && (forall r :: r in rows && r.Key() == key ==> r.confidence <= data.confidence)
  }

  ghost predicate HasRow(rows: seq<Row>, key: EdgeKey) {
    exists r :: r in rows && r.Key() == key
  }

  /** The edges of some rows. */
  ghost predicate AllMerged(rows: seq<Row>, edges: map<EdgeKey, EdgeData>) {
    && (forall key :: key in edges <==> HasRow(rows, key))
    && (forall key :: key in edges ==> Merged(rows, key, edges[key]))
  }

  method MergeEdges(rows: seq<Row>) returns (edges: map<EdgeKey, EdgeData>)
    ensures forall key :: key in edges <==> exists r :: r in rows && r.Key() == key
    ensures forall key :: key in edges ==> Merged(rows, key, edges[key])
  {
    edges := map[];
    for i := 0 to |rows|
      invariant AllMerged(rows[..i], edges)
    {
      var row := rows[i];
      var key := row.Key();
      ghost var before := edges;
      assert rows[..i + 1] == rows[..i] + [row];
      if key in edges {
        var data := edges[key];
        edges := edges[key := EdgeData(
          if data.confidence < row.confidence then row.confidence else data.confidence,
          data.evidence + {(row.evidence, row.provenance)})];
      } else {
        edges := edges[key := EdgeData(row.confidence, {(row.evidence, row.provenance)})];
      }
      MergeRow(rows[..i], row, before, edges);
    }
    assert rows[..|rows|] == rows;
    assert forall key :: key in edges <==> HasRow(rows, key);
  }

  lemma MergeRow(front: seq<Row>, row: Row, before: map<EdgeKey, EdgeData>,
                 after: map<EdgeKey, EdgeData>)
    requires AllMerged(front, before)
    requires after == before[row.Key() :=
      if row.Key() in before then
        EdgeData(if before[row.Key()].confidence < row.confidence then row.confidence
                 else before[row.Key()].confidence,
                 before[row.Key()].evidence + {(row.evidence, row.provenance)})
      else EdgeData(row.confidence, {(row.evidence, row.provenance)})]
    ensures AllMerged(front + [row], after)
  {
    forall key
      ensures HasRow(front + [row], key) <==> HasRow(front, key) || key == row.Key()
    {
      HasOneMore(front, row, key);
    }
    forall key | key in after
      ensures Merged(front + [row], key, after[key])
    {
      if key != row.Key() {
        MergedStays(front, row, key, after[key]);
      } else if key in before {
        MergedMore(front, row, before[key], after[key]);
      } else {
        MergedFirst(front, row, after[key]);
      }
    }
  }

  lemma HasOneMore(front: seq<Row>, row: Row, key: EdgeKey)
    ensures HasRow(front + [row], key) <==> HasRow(front, key) || key == row.Key()
  {
    assert row in front + [row];
    if HasRow(front, key) {
      var r :| r in front && r.Key() == key;
      assert r in front + [row];
    }
  }

  lemma MergedStays(front: seq<Row>, row: Row, key: EdgeKey, data: EdgeData)
    requires Merged(front, key, data) && key != row.Key()
    ensures Merged(front + [row], key, data)
  {
    assert forall r :: r in front + [row] <==> r in front || r == row;
  }

  lemma MergedMore(front: seq<Row>, row: Row, data: EdgeData, more: EdgeData)
    requires Merged(front, row.Key(), data)
    requires more.confidence == (if data.confidence < row.confidence then row.confidence
                                 else data.confidence)
    requires more.evidence == data.evidence + {(row.evidence, row.provenance)}
    ensures Merged(front + [row], row.Key(), more)
  {
    assert forall r :: r in front + [row] <==> r in front || r == row;
  }

  lemma MergedFirst(front: seq<Row>, row: Row, data: EdgeData)
    requires !HasRow(front, row.Key())
    requires data == EdgeData(row.confidence, {(row.evidence, row.provenance)})
    ensures Merged(front + [row], row.Key(), data)
  {
    assert forall r :: r in front + [row] <==> r in front || r == row;
  }

  // ---- adjacency -------------------------------------------------------------------------

  function Decimal(n: nat): string {
    var digit := ['0' + (n % 10) as char];
    if n < 10 then digit else Decimal(n / 10) + digit
  }

  function IndexOf(xs: seq<EdgeKey>, x: EdgeKey): nat
    requires x in xs
  {
    if xs[0] == x then 0 else 1 + IndexOf(xs[1..], x)
  }

  function SortedKeys(keys: set<EdgeKey>): (listing: seq<EdgeKey>)
    ensures forall key :: key in listing <==> key in keys
  {
    KeyLessStrictTotal();
    Listing(keys, KeyLess)
  }

  /** Edges are numbered in key order: `e1`, `e2`, and so on. */
  function Labels(keys: set<EdgeKey>): map<EdgeKey, string> {
    var listing := SortedKeys(keys);
    map key | key in keys :: "e" + Decimal(IndexOf(listing, key) + 1)
  }

  function LabelOf(labels: map<EdgeKey, string>, key: EdgeKey): string {
    if key in labels then labels[key] else ""
  }

  /** By neighbour, then by edge label as text, so `e10` comes before `e2`. */
  predicate StepLess(labels: map<EdgeKey, string>, a: Step, b: Step) {
    StringLess(a.to, b.to) || (a.to == b.to && (
    StringLess(LabelOf(labels, a.edge), LabelOf(labels, b.edge)) ||
    (LabelOf(labels, a.edge) == LabelOf(labels, b.edge) && KeyLess(a.edge, b.edge))))
  }

  lemma StepLessTransitive(labels: map<EdgeKey, string>, a: Step, b: Step, c: Step)
    requires StepLess(labels, a, b) && StepLess(labels, b, c)
    ensures StepLess(labels, a, c)
  {
    StringLessChain(a.to, b.to, c.to);
    StringLessChain(LabelOf(labels, a.edge), LabelOf(labels, b.edge), LabelOf(labels, c.edge));
    KeyLessStrictTotal();
    assert KeyLess(a.edge, b.edge) && KeyLess(b.edge, c.edge) ==> KeyLess(a.edge, c.edge);
  }

  lemma StepLessTotal(labels: map<EdgeKey, string>, a: Step, b: Step)
    ensures a == b || StepLess(labels, a, b) || StepLess(labels, b, a)
    ensures !StepLess(labels, a, a)
  {
    StringLessTotal(a.to, b.to);
    StringLessTotal(a.to, a.to);
    StringLessTotal(LabelOf(labels, a.edge), LabelOf(labels, b.edge));
    StringLessTotal(LabelOf(labels, a.edge), LabelOf(labels, a.edge));
    KeyLessTotal(a.edge, b.edge);
  }

  lemma StepLessStrictTotal(labels: map<EdgeKey, string>)
    ensures StrictTotal((a, b) => StepLess(labels, a, b))
  {
    var less := (a, b) => StepLess(labels, a, b);
    forall x, y
      ensures x == y || less(x, y) || less(y, x)
      ensures !less(x, x)
    {
      StepLessTotal(labels, x, y);
    }
    forall x, y, z | less(x, y) && less(y, z)
      ensures less(x, z)
    {
      StepLessTransitive(labels, x, y, z);
    }
  }

  function StepsFrom(keys: set<EdgeKey>, direction: Direction, node: Entity): set<Step> {
    set key | key in keys && key.Source(direction) == node :: Step(key.Target(direction), key)
  }

  function Ordered(steps: set<Step>, labels: map<EdgeKey, string>): (listing: seq<Step>)
    ensures forall s :: s in listing <==> s in steps
    ensures Distinct(listing)
    ensures Sorted(listing, (a, b) => StepLess(labels, a, b))
  {
    StepLessStrictTotal(labels);
    Listing(steps, (a, b) => StepLess(labels, a, b))
  }

  /** The sorted adjacency lists of a set of edges. */
  function Adjacency(keys: set<EdgeKey>, direction: Direction): map<Entity, seq<Step>> {
    var labels := Labels(keys);
    map node | node in (set key | key in keys :: key.Source(direction)) ::
      Ordered(StepsFrom(keys, direction, node), labels)
  }

  /** The lists hold one step for every edge pushed so far, under the node it leaves. */
  ghost predicate Pushed(edges: set<EdgeKey>, direction: Direction,
                         lists: map<Entity, seq<Step>>)
  {
    && lists.Keys == (set key | key in edges :: key.Source(direction))
    && forall n :: n in lists ==> (set s | s in lists[n]) == StepsFrom(edges, direction, n)
  }

  function Push(lists: map<Entity, seq<Step>>, edge: EdgeKey, direction: Direction)
    : map<Entity, seq<Step>>
  {
    var from := edge.Source(direction);
    lists[from := (if from in lists then lists[from] else []) +
                  [Step(edge.Target(direction), edge)]]
  }

  lemma PushOne(edges: set<EdgeKey>, direction: Direction, lists: map<Entity, seq<Step>>,
                edge: EdgeKey)
    requires Pushed(edges, direction, lists)
    ensures Pushed(edges + {edge}, direction, Push(lists, edge, direction))
  {
    var after := Push(lists, edge, direction);
    var from, step := edge.Source(direction), Step(edge.Target(direction), edge);
    forall n | n in after
      ensures (set s | s in after[n]) == StepsFrom(edges + {edge}, direction, n)
    {
      if n != from {
        assert StepsFrom(edges + {edge}, direction, n) == StepsFrom(edges, direction, n);
      } else {
        assert StepsFrom(edges + {edge}, direction, n) == StepsFrom(edges, direction, n) + {step};
        if n in lists {
          assert (set s | s in after[n]) == (set s | s in lists[n]) + {step};
        } else {
          assert StepsFrom(edges, direction, n) == {};
        }
      }
    }
  }

  function SortLists(lists: map<Entity, seq<Step>>, labels: map<EdgeKey, string>)
    : map<Entity, seq<Step>>
  {
    map n | n in lists :: Ordered((set s | s in lists[n]), labels)
  }

  lemma PushedSorts(keys: set<EdgeKey>, direction: Direction, lists: map<Entity, seq<Step>>)
    requires Pushed(keys, direction, lists)
    ensures SortLists(lists, Labels(keys)) == Adjacency(keys, direction)
  {
  }

  function KeySet(edges: seq<EdgeKey>): set<EdgeKey> {
    set key | key in edges
  }

  method PushEdges(edges: seq<EdgeKey>, direction: Direction)
    returns (lists: map<Entity, seq<Step>>)
    ensures Pushed(KeySet(edges), direction, lists)
  {
    lists := map[];
    for i := 0 to |edges|
      invariant Pushed(KeySet(edges[..i]), direction, lists)
    {
      assert KeySet(edges[..i + 1]) == KeySet(edges[..i]) + {edges[i]};
      PushOne(KeySet(edges[..i]), direction, lists, edges[i]);
      lists := Push(lists, edges[i], direction);
    }
    assert edges[..|edges|] == edges;
  }

  method BuildAdjacency(keys: set<EdgeKey>, direction: Direction)
    returns (adjacent: map<Entity, seq<Step>>)
    ensures adjacent == Adjacency(keys, direction)
  {
    var edges := SortedKeys(keys);
    var lists := PushEdges(edges, direction);
    assert KeySet(edges) == keys;
    PushedSorts(keys, direction, lists);
    adjacent := SortLists(lists, Labels(keys));
  }

  /** A search environment whose lists hold exactly the given edges. */
  ghost predicate Holds(env: Env, keys: set<EdgeKey>) {
    forall n, s :: s in Out(env, n) <==>
      s.edge in keys && s.edge.Source(env.query.direction) == n
      && s.to == s.edge.Target(env.query.direction)
  }

  lemma AdjacencyHolds(env: Env, keys: set<EdgeKey>)
    requires env.adjacent == Adjacency(keys, env.query.direction)
    ensures Holds(env, keys) && DistinctSteps(env)
  {
  }
}
