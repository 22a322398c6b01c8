/** Frontier-by-frontier acquisition of dependency rows for a path search without targets. */
module Acquisition {
  import opened Order
  import opened Graph
  import opened PathSearch
  import opened Paths

  const MAX_TRAVERSAL_ROWS: nat := 10_000

  // ---- the adjacency queries -------------------------------------------------------------

  function OutgoingRows(all: set<Row>, frontier: set<Entity>): set<Row> {
    set row | row in all && row.from in frontier
  }

  /** Rows that point into the frontier, and the implementations of its gRPC operations. */
  function IncomingRows(all: set<Row>, frontier: set<Entity>): set<Row> {
    (set row | row in all && row.to in frontier) +
    (set row | row in all && row.from in frontier && IsGrpcStep(row.Key()))
  }

  function AdjacentRows(all: set<Row>, frontier: set<Entity>, direction: Direction): set<Row> {
    if direction.Outgoing? then OutgoingRows(all, frontier) else IncomingRows(all, frontier)
  }

  function SortedRows(rows: set<Row>): (listing: seq<Row>)
    ensures |listing| == |rows|
    ensures forall r :: r in listing <==> r in rows
    ensures Sorted(listing, RowLess)
  {
    RowLessStrictTotal();
    Listing(rows, RowLess)
  }

  /** The first `limit` rows of a query result, in the order its `:order` clause gives. */
  function Page(rows: set<Row>, limit: nat): (page: seq<Row>)
    ensures |page| <= limit && |page| <= |rows| && (forall r :: r in page ==> r in rows)
    ensures |page| < limit ==> forall r :: r in rows ==> r in page
  {
    var listing := SortedRows(rows);
    if |listing| <= limit then listing else listing[..limit]
  }

  lemma KeyGrouped(a: Row, b: Row, c: Row)
    requires RowLess(a, b) && (b == c || RowLess(b, c)) && a.Key() == c.Key()
    ensures b.Key() == a.Key()
  {
    StringLessTotal(a.from, b.from);
    StringLessTotal(a.to, b.to);
    RelationLessTotal(a.relation, b.relation);
    StringLessTotal(b.relation.Name(), a.relation.Name());
  }

  /** Dropping the key a page was cut in leaves no key with only part of its rows. */
  lemma CutKeepsWholeKeys(rows: set<Row>, limit: nat, r: Row, other: Row)
    requires |Page(rows, limit + 1)| == limit + 1
    requires r in Page(rows, limit + 1)[..limit]
    requires r.Key() != Page(rows, limit + 1)[limit].Key()
    requires other in rows && other.Key() == r.Key()
    ensures other in Page(rows, limit + 1)[..limit]
  {
    var listing := SortedRows(rows);
    var i :| 0 <= i < limit && listing[i] == r;
    var j :| 0 <= j < |listing| && listing[j] == other;
    if j >= limit {
      assert RowLess(listing[i], listing[limit]);
      assert j == limit || RowLess(listing[limit], listing[j]);
      KeyGrouped(r, listing[limit], other);
    }
  }

  function Retain(rows: seq<Row>, cut: EdgeKey): (kept: seq<Row>)
    ensures |kept| <= |rows|
    ensures forall r :: r in kept <==> r in rows && r.Key() != cut
  {
    if rows == [] then []
    else
      var rest := Retain(rows[..|rows| - 1], cut);
      var last := rows[|rows| - 1];
      if last.Key() == cut then rest else rest + [last]
  }

  method Discover(result: seq<Row>, visited: set<Entity>, direction: Direction)
    returns (next: set<Entity>, visited': set<Entity>)
    ensures visited' == visited + next && next !! visited
    ensures visited' == visited + set r | r in result :: r.Key().Target(direction)
  {
    next, visited' := {}, visited;
    for i := 0 to |result|
      invariant visited' == visited + next && next !! visited
      invariant visited' == visited + set r | r in result[..i] :: r.Key().Target(direction)
    {
      var entity := result[i].Key().Target(direction);
      assert result[..i + 1] == result[..i] + [result[i]];
      if entity !in visited' {
        visited', next := visited' + {entity}, next + {entity};
      }
    }
    assert result[..|result|] == result;
  }

  // ---- what an acquisition guarantees ----------------------------------------------------

  /** All the evidence of every acquired edge was acquired with it. */
  ghost predicate WholeEvidence(all: set<Row>, rows: set<Row>) {
    forall r, other :: r in rows && other in all && other.Key() == r.Key() ==> other in rows
  }

  ghost predicate Expanded(all: set<Row>, rows: set<Row>, direction: Direction, node: Entity) {
    forall r :: r in all && r.Key().Source(direction) == node ==> r in rows
  }

  /** `level` bounds the hops to every node the acquired rows lead to, and every node within
      the hop limit was fully expanded unless it is incomplete or the destination. */
  ghost predicate Levels(all: set<Row>, query: Query, rows: set<Row>, incomplete: set<Entity>,
                         level: map<Entity, nat>)
  {
    && rows <= all
    && query.start in level && level[query.start] == 0
    && (forall r | r in rows && r.Key().Source(query.direction) in level
          && query.destination != Some(r.Key().Source(query.direction)) ::
          && r.Key().Target(query.direction) in level
          && level[r.Key().Target(query.direction)] <= level[r.Key().Source(query.direction)] + 1)
    && (forall n | n in level && level[n] <= query.maxHops && n !in incomplete
          && query.destination != Some(n) :: Expanded(all, rows, query.direction, n))
  }

  ghost predicate Acquired(all: set<Row>, query: Query, rows: set<Row>, incomplete: set<Entity>) {
    exists level :: Levels(all, query, rows, incomplete, level)
  }

  function Elements(rows: seq<Row>): set<Row> {
    set r | r in rows
  }

  /** The state of an acquisition that has not met its row cap, about to expand `hops`. */
  ghost predicate Frontier(all: set<Row>, query: Query, rows: set<Row>, hops: nat,
                           level: map<Entity, nat>)
  {
    && rows <= all
    && query.start in level && level[query.start] == 0
    && (forall n :: n in level ==> level[n] <= hops)
    && (forall r :: r in rows ==> r.Key().Target(query.direction) in level)
    && (forall n :: n in level && level[n] < hops && query.destination != Some(n) ==>
          Expanded(all, rows, query.direction, n))
    && (forall r | r in rows && r.Key().Source(query.direction) in level
          && query.destination != Some(r.Key().Source(query.direction)) ::
          level[r.Key().Target(query.direction)] <= level[r.Key().Source(query.direction)] + 1)
  }

  function Ring(level: map<Entity, nat>, hops: nat): set<Entity> {
    set n | n in level && level[n] == hops
  }

  /** The nodes of the current ring that acquisition expands. */
  function Expandable(query: Query, ring: set<Entity>): set<Entity> {
    if query.destination.Some? then ring - {query.destination.value} else ring
  }

  ghost function Deeper(level: map<Entity, nat>, next: set<Entity>, hops: nat): map<Entity, nat> {
    level + map n | n in next :: hops + 1
  }

  /** Expanding a whole ring moves the frontier one hop on. */
  lemma RingExpanded(all: set<Row>, query: Query, rows: set<Row>, result: set<Row>, hops: nat,
                     level: map<Entity, nat>, next: set<Entity>)
    requires Frontier(all, query, rows, hops, level)
    requires result == AdjacentRows(all, Expandable(query, Ring(level, hops)), query.direction)
    requires next == (set r | r in result :: r.Key().Target(query.direction)) - level.Keys
    ensures Frontier(all, query, rows + result, hops + 1, Deeper(level, next, hops))
    ensures Ring(Deeper(level, next, hops), hops + 1) == next
  {
    var level' := Deeper(level, next, hops);
    forall n | n in level' && level'[n] < hops + 1 && query.destination != Some(n)
      ensures Expanded(all, rows + result, query.direction, n)
    {
      if level[n] == hops {
        assert n in Expandable(query, Ring(level, hops));
      }
    }
    forall r | r in rows + result && r.Key().Source(query.direction) in level'
               && query.destination != Some(r.Key().Source(query.direction))
      ensures level'[r.Key().Target(query.direction)]
           <= level'[r.Key().Source(query.direction)] + 1
    {
      PartialLevels(all, query, rows, result, hops, level, next, r);
    }
  }

  lemma PartialLevels(all: set<Row>, query: Query, rows: set<Row>, result: set<Row>, hops: nat,
                      level: map<Entity, nat>, next: set<Entity>, r: Row)
    requires Frontier(all, query, rows, hops, level)
    requires result <= AdjacentRows(all, Expandable(query, Ring(level, hops)), query.direction)
    requires next == (set r | r in result :: r.Key().Target(query.direction)) - level.Keys
    requires r in rows + result && r.Key().Source(query.direction) in Deeper(level, next, hops)
    requires query.destination != Some(r.Key().Source(query.direction))
    ensures r.Key().Target(query.direction) in Deeper(level, next, hops)
    ensures Deeper(level, next, hops)[r.Key().Target(query.direction)]
         <= Deeper(level, next, hops)[r.Key().Source(query.direction)] + 1
  {
  }

  /** A ring cut by the row cap still bounds the hops, and everything unsure is incomplete. */
  lemma RingCut(all: set<Row>, query: Query, rows: set<Row>, result: set<Row>, hops: nat,
                level: map<Entity, nat>, next: set<Entity>)
    requires Frontier(all, query, rows, hops, level)
    requires result <= AdjacentRows(all, Expandable(query, Ring(level, hops)), query.direction)
    requires next == (set r | r in result :: r.Key().Target(query.direction)) - level.Keys
    ensures Levels(all, query, rows + result, Expandable(query, Ring(level, hops)) + next,
                   Deeper(level, next, hops))
  {
    var level' := Deeper(level, next, hops);
    forall r | r in rows + result && r.Key().Source(query.direction) in level'
               && query.destination != Some(r.Key().Source(query.direction))
      ensures && r.Key().Target(query.direction) in level'
              && level'[r.Key().Target(query.direction)]
                 <= level'[r.Key().Source(query.direction)] + 1
    {
      PartialLevels(all, query, rows, result, hops, level, next, r);
    }
    forall n | n in level' && n !in Expandable(query, Ring(level, hops)) + next
               && query.destination != Some(n)
      ensures Expanded(all, rows + result, query.direction, n)
    {
      assert level[n] < hops;
      assert Expanded(all, rows, query.direction, n);
    }
  }

  /** With nothing left to expand within the hop limit, every level is settled. */
  lemma Settled(all: set<Row>, query: Query, rows: set<Row>, hops: nat, level: map<Entity, nat>)
    requires Frontier(all, query, rows, hops, level)
    requires Expandable(query, Ring(level, hops)) == {} || hops > query.maxHops
    ensures Levels(all, query, rows, {}, level)
  {
  }

  ghost predicate IsExpanding(all: set<Row>, query: Query, rows: set<Row>, hops: nat,
                              level: map<Entity, nat>, frontier: set<Entity>,
                              visited: set<Entity>, expanding: bool)
  {
    expanding == (&& Frontier(all, query, rows, hops, level) && WholeEvidence(all, rows)
                  && visited == level.Keys && frontier == Ring(level, hops))
  }

  /** The acquisition between two hops; said so that it unfolds only on demand. */
  ghost predicate Expanding(all: set<Row>, query: Query, rows: set<Row>, hops: nat,
                            level: map<Entity, nat>, frontier: set<Entity>, visited: set<Entity>)
  {
    forall e {:trigger IsExpanding(all, query, rows, hops, level, frontier, visited, e)} ::
      IsExpanding(all, query, rows, hops, level, frontier, visited, e) ==> e
  }

  lemma ExpandingIs(all: set<Row>, query: Query, rows: set<Row>, hops: nat,
                    level: map<Entity, nat>, frontier: set<Entity>, visited: set<Entity>)
    ensures Expanding(all, query, rows, hops, level, frontier, visited)
       <==> && Frontier(all, query, rows, hops, level) && WholeEvidence(all, rows)
            && visited == level.Keys && frontier == Ring(level, hops)
  {
    assert IsExpanding(all, query, rows, hops, level, frontier, visited,
                       && Frontier(all, query, rows, hops, level) && WholeEvidence(all, rows)
                       && visited == level.Keys && frontier == Ring(level, hops));
  }

  lemma ExpansionStarts(all: set<Row>, query: Query)
    ensures Expanding(all, query, {}, 0, map[query.start := 0], {query.start}, {query.start})
  {
    ExpandingIs(all, query, {}, 0, map[query.start := 0], {query.start}, {query.start});
  }

  /** With nothing left to expand within the hop limit, the acquisition is complete. */
  lemma ExpansionEnds(all: set<Row>, query: Query, rows: set<Row>, hops: nat,
                      level: map<Entity, nat>, frontier: set<Entity>, visited: set<Entity>)
    requires Expanding(all, query, rows, hops, level, frontier, visited)
    requires Expandable(query, frontier) == {} || hops > query.maxHops
    ensures Acquired(all, query, rows, {}) && WholeEvidence(all, rows)
  {
    ExpandingIs(all, query, rows, hops, level, frontier, visited);
    Settled(all, query, rows, hops, level);
  }

  /** One more ring, taken whole or cut by the row cap. */
  lemma ExpansionGoesOn(all: set<Row>, query: Query, rows: set<Row>, hops: nat,
                        level: map<Entity, nat>, frontier: set<Entity>, visited: set<Entity>,
                        result: set<Row>, next: set<Entity>, cut: bool)
    requires Expanding(all, query, rows, hops, level, frontier, visited)
    requires WholeEvidence(all, result)
    requires result <= AdjacentRows(all, Expandable(query, frontier), query.direction)
    requires !cut ==> result == AdjacentRows(all, Expandable(query, frontier), query.direction)
    requires next == (set r | r in result :: r.Key().Target(query.direction)) - visited
    ensures cut ==> Acquired(all, query, rows + result, Expandable(query, frontier) + next)
                    && WholeEvidence(all, rows + result)
    ensures !cut ==> Expanding(all, query, rows + result, hops + 1, Deeper(level, next, hops), next,
                               visited + next)
  {
    ExpandingIs(all, query, rows, hops, level, frontier, visited);
    WholeTogether(all, rows, result);
    if cut {
      RingCut(all, query, rows, result, hops, level, next);
    } else {
      RingExpanded(all, query, rows, result, hops, level, next);
      ExpandingIs(all, query, rows + result, hops + 1, Deeper(level, next, hops), next,
                  visited + next);
    }
  }

  method MultipathRows(all: set<Row>, query: Query)
    returns (rows: seq<Row>, incomplete: set<Entity>)
    ensures |rows| <= MAX_TRAVERSAL_ROWS
    ensures WholeEvidence(all, Elements(rows))
    ensures Acquired(all, query, Elements(rows), incomplete)
  {
    var frontier := {query.start};
    var visited := frontier;
    rows, incomplete := [], {};
    ghost var level, acquired: set<Row> := map[query.start := 0], {};
    ExpansionStarts(all, query);
    var hops := 0;
    while hops <= query.maxHops
      invariant |rows| <= MAX_TRAVERSAL_ROWS && incomplete == {} && hops <= query.maxHops
      invariant acquired == Elements(rows)
      invariant Expanding(all, query, acquired, hops, level, frontier, visited)
      decreases query.maxHops - hops
    {
      ghost var ring, known, seen, before := frontier, acquired, visited, level;
      if query.destination.Some? {
        frontier := frontier - {query.destination.value};
      }
      assert frontier == Expandable(query, ring);
      if frontier == {} {
        ExpansionEnds(all, query, acquired, hops, level, ring, visited);
        return;
      }
      var result, next, cut;
      result, next, visited, cut := ExpandRing(all, frontier, query.direction,
                                               MAX_TRAVERSAL_ROWS - |rows|, visited);
      ExpansionGoesOn(all, query, known, hops, before, ring, seen, Elements(result), next, cut);
      acquired, level := known + Elements(result), Deeper(before, next, hops);
      assert Elements(rows + result) == acquired;
      rows := rows + result;
      if cut {
        incomplete := frontier + next;
        return;
      }
      if hops == query.maxHops || next == {} {
        assert Expandable(query, {}) == {};
        ExpansionEnds(all, query, acquired, hops + 1, level, next, visited);
        return;
      }
      frontier := next;
      hops := hops + 1;
    }
  }

  lemma WholeTogether(all: set<Row>, rows: set<Row>, result: set<Row>)
    requires WholeEvidence(all, rows) && WholeEvidence(all, result)
    ensures WholeEvidence(all, rows + result)
  {
  }

  /** One bounded adjacency query: its whole edges, the entities it discovers, and whether the
      row cap cut it. */
  method ExpandRing(all: set<Row>, frontier: set<Entity>, direction: Direction, remaining: nat,
                    visited: set<Entity>)
    returns (result: seq<Row>, next: set<Entity>, visited': set<Entity>, cut: bool)
    ensures |result| <= remaining && WholeEvidence(all, Elements(result))
    ensures Elements(result) <= AdjacentRows(all, frontier, direction)
    ensures !cut ==> Elements(result) == AdjacentRows(all, frontier, direction)
    ensures next == (set r | r in Elements(result) :: r.Key().Target(direction)) - visited
    ensures visited' == visited + next
  {
    result := Page(AdjacentRows(all, frontier, direction), remaining + 1);
    cut := |result| > remaining;
    if cut {
      result := Retain(result[..remaining], result[remaining].Key());
    }
    PageIsWhole(all, frontier, direction, remaining, result);
    next, visited' := Discover(result, visited, direction);
  }

  /** What the page of a ring keeps once the key it was cut in is dropped. */
  lemma PageIsWhole(all: set<Row>, frontier: set<Entity>, direction: Direction, remaining: nat,
                    kept: seq<Row>)
    requires var page := Page(AdjacentRows(all, frontier, direction), remaining + 1);
             kept == if |page| > remaining then Retain(page[..remaining], page[remaining].Key())
                     else page
    ensures |kept| <= remaining
    ensures Elements(kept) <= AdjacentRows(all, frontier, direction)
    ensures |Page(AdjacentRows(all, frontier, direction), remaining + 1)| <= remaining ==>
              Elements(kept) == AdjacentRows(all, frontier, direction)
    ensures WholeEvidence(all, Elements(kept))
  {
    var adjacent := AdjacentRows(all, frontier, direction);
    var page := Page(adjacent, remaining + 1);
    forall r, other | r in Elements(kept) && other in all && other.Key() == r.Key()
      ensures other in Elements(kept)
    {
      assert r in adjacent && other in adjacent;
      if |page| > remaining {
        CutKeepsWholeKeys(adjacent, remaining, r, other);
      }
    }
  }
}
