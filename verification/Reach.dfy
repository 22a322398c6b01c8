/** Which entities can still reach each repository target, by reverse breadth-first search. */
module Reach {
  import opened Order
  import opened Graph
  import opened PathSearch
  import opened Acquisition

  // ---- the reverse queries ---------------------------------------------------------------

  function ReverseSeed(all: set<Row>, target: string, direction: Direction): set<Row> {
    var prefix := TargetPrefix(target);
    match direction
    case Outgoing => set r | r in all && prefix <= r.to
    case Incoming =>
      (set r | r in all && prefix <= r.from && !r.relation.ImplementedBy?) +
      (set r | r in all && prefix <= r.from && r.relation.ImplementedBy? && !("grpc://" <= r.from)) +
      (set r | r in all && prefix <= r.to && r.relation.ImplementedBy? && "grpc://" <= r.from)
  }

  function ReverseFrontier(all: set<Row>, frontier: set<Entity>, direction: Direction): set<Row> {
    match direction
    case Outgoing => set r | r in all && r.to in frontier
    case Incoming =>
      (set r | r in all && r.from in frontier && !r.relation.ImplementedBy?) +
      (set r | r in all && r.from in frontier && r.relation.ImplementedBy?
               && !("grpc://" <= r.from)) +
      (set r | r in all && r.to in frontier && r.relation.ImplementedBy? && "grpc://" <= r.from)
  }

  /** The three rules of each query are one statement about oriented edges. */
  lemma ReverseQueries(all: set<Row>, target: string, frontier: set<Entity>, direction: Direction)
    ensures ReverseSeed(all, target, direction)
         == set r | r in all && TargetPrefix(target) <= r.Key().Target(direction)
    ensures ReverseFrontier(all, frontier, direction)
         == set r | r in all && r.Key().Target(direction) in frontier
  {
  }

  // ---- reaching a target -----------------------------------------------------------------

  predicate InTarget(node: Entity, target: string) {
    TargetPrefix(target) <= node
  }

  /** Row `r` starts a walk of at most `k` edges from `node` into the target. */
  ghost predicate Leads(all: set<Row>, direction: Direction, node: Entity, target: string,
                        k: nat, r: Row)
    requires k > 0
    decreases k, 0
  {
    && r in all && r.Key().Source(direction) == node
    && (InTarget(r.Key().Target(direction), target) ||
        ReachesWithin(all, direction, r.Key().Target(direction), target, k - 1))
  }

  /** Some walk of one to `k` edges leads from `node` into the target. */
  ghost predicate ReachesWithin(all: set<Row>, direction: Direction, node: Entity, target: string,
                                k: nat)
    decreases k, 1
  {
    k > 0 && exists r :: Leads(all, direction, node, target, k, r)
  }

  lemma {:induction false} ReachesLonger(all: set<Row>, direction: Direction, node: Entity,
                                         target: string, j: nat, k: nat)
    requires j <= k && ReachesWithin(all, direction, node, target, j)
    ensures ReachesWithin(all, direction, node, target, k)
    decreases j
  {
    var r :| Leads(all, direction, node, target, j, r);
    if !InTarget(r.Key().Target(direction), target) {
      ReachesLonger(all, direction, r.Key().Target(direction), target, j - 1, k - 1);
    }
    assert Leads(all, direction, node, target, k, r);
  }

  /** `found` is what a reverse search of `depth` hops finds: no less, and nothing unreachable. */
  ghost predicate ReachSet(all: set<Row>, direction: Direction, target: string, depth: nat,
                           found: set<Entity>)
  {
    && (forall n :: ReachesWithin(all, direction, n, target, depth) ==> n in found)
    && (forall r :: r in all && InTarget(r.Key().Target(direction), target) ==>
          r.Key().Target(direction) in found)
    && (forall n :: n in found ==>
          InTarget(n, target) || ReachesWithin(all, direction, n, target, depth))
  }

  /** Every predecessor of a found node that is no longer on the frontier was found too. */
  ghost predicate Closed(all: set<Row>, direction: Direction, found: set<Entity>,
                         frontier: set<Entity>)
  {
    && frontier <= found
    && forall r | r in all && r.Key().Target(direction) in found
          && r.Key().Target(direction) !in frontier :: r.Key().Source(direction) in found
  }

  lemma ReachOneMore(all: set<Row>, direction: Direction, target: string, depth: nat,
                     found: set<Entity>, frontier: set<Entity>, next: set<Entity>)
    requires depth > 0
    requires ReachSet(all, direction, target, depth, found)
    requires Closed(all, direction, found, frontier)
    requires next == (set r | r in all && r.Key().Target(direction) in frontier
                            :: r.Key().Source(direction)) - found
    ensures ReachSet(all, direction, target, depth + 1, found + next)
    ensures Closed(all, direction, found + next, next)
  {
    forall n | ReachesWithin(all, direction, n, target, depth + 1)
      ensures n in found + next
    {
      var r :| Leads(all, direction, n, target, depth + 1, r);
      assert r.Key().Target(direction) in found;
    }
    forall n | n in found + next
      ensures InTarget(n, target) || ReachesWithin(all, direction, n, target, depth + 1)
    {
      if n in found {
        if !InTarget(n, target) {
          ReachesLonger(all, direction, n, target, depth, depth + 1);
        }
      } else {
        var r :| r in all && r.Key().Target(direction) in frontier
                 && r.Key().Source(direction) == n;
        assert r.Key().Target(direction) in found;
        assert Leads(all, direction, n, target, depth + 1, r);
      }
    }
  }

  /** With an empty frontier the search is complete at every depth. */
  lemma {:induction false} ReachSettled(all: set<Row>, direction: Direction, target: string,
                                        depth: nat, found: set<Entity>, deeper: nat)
    requires 0 < depth <= deeper
    requires ReachSet(all, direction, target, depth, found)
    requires Closed(all, direction, found, {})
    ensures ReachSet(all, direction, target, deeper, found)
    decreases deeper
  {
    if depth < deeper {
      ReachSettled(all, direction, target, depth, found, deeper - 1);
      ReachOneMore(all, direction, target, deeper - 1, found, {}, {});
      assert found + {} == found;
    }
  }

  function EdgeEnds(rows: set<Row>, direction: Direction): set<Entity> {
    (set r | r in rows :: r.Key().Source(direction)) +
    (set r | r in rows :: r.Key().Target(direction))
  }

  /** What was found from some rows of the seed. */
  ghost predicate Seeded(direction: Direction, target: string, rows: set<Row>, found: set<Entity>,
                         frontier: set<Entity>)
  {
    && frontier <= found == EdgeEnds(rows, direction)
    && forall n :: n in found && n !in frontier ==> InTarget(n, target)
  }

  lemma SeedRow(direction: Direction, target: string, rows: set<Row>, found: set<Entity>,
                frontier: set<Entity>, r: Row)
    requires Seeded(direction, target, rows, found, frontier)
    requires InTarget(r.Key().Target(direction), target)
    ensures var known := found + {r.Key().Target(direction)};
            var predecessor := r.Key().Source(direction);
            if predecessor in known
            then Seeded(direction, target, rows + {r}, known, frontier)
            else Seeded(direction, target, rows + {r}, known + {predecessor}, frontier + {predecessor})
  {
    assert EdgeEnds(rows + {r}, direction)
        == EdgeEnds(rows, direction) + {r.Key().Source(direction), r.Key().Target(direction)};
  }

  lemma SeedIsTargeted(all: set<Row>, target: string, direction: Direction, r: Row)
    requires r in ReverseSeed(all, target, direction)
    ensures InTarget(r.Key().Target(direction), target)
  {
    ReverseQueries(all, target, {}, direction);
  }

  method SeedTarget(all: set<Row>, target: string, direction: Direction, seed: seq<Row>)
    returns (found: set<Entity>, frontier: set<Entity>)
    requires Elements(seed) == ReverseSeed(all, target, direction)
    ensures ReachSet(all, direction, target, 1, found)
    ensures Closed(all, direction, found, frontier)
  {
    found, frontier := {}, {};
    for i := 0 to |seed|
      invariant Seeded(direction, target, Elements(seed[..i]), found, frontier)
    {
      assert Elements(seed[..i + 1]) == Elements(seed[..i]) + {seed[i]};
      assert seed[i] in Elements(seed);
      SeedIsTargeted(all, target, direction, seed[i]);
      SeedRow(direction, target, Elements(seed[..i]), found, frontier, seed[i]);
      var predecessor, destination := seed[i].Key().Source(direction), seed[i].Key().Target(direction);
      found := found + {destination};
      if predecessor !in found {
        found, frontier := found + {predecessor}, frontier + {predecessor};
      }
    }
    assert seed[..|seed|] == seed;
    SeedReaches(all, target, direction, found, frontier);
  }

  lemma SeedReaches(all: set<Row>, target: string, direction: Direction, found: set<Entity>,
                    frontier: set<Entity>)
    requires frontier <= found
    requires found == EdgeEnds(ReverseSeed(all, target, direction), direction)
    requires forall n :: n in found && n !in frontier ==> InTarget(n, target)
    ensures ReachSet(all, direction, target, 1, found)
    ensures Closed(all, direction, found, frontier)
  {
    var seed := ReverseSeed(all, target, direction);
    ReverseQueries(all, target, {}, direction);
    forall n | ReachesWithin(all, direction, n, target, 1)
      ensures n in found
    {
      var r :| Leads(all, direction, n, target, 1, r);
      assert r in seed;
    }
    forall n | n in found
      ensures InTarget(n, target) || ReachesWithin(all, direction, n, target, 1)
    {
      var r :| r in seed && (n == r.Key().Source(direction) || n == r.Key().Target(direction));
      assert Leads(all, direction, r.Key().Source(direction), target, 1, r);
    }
    forall r | r in all && InTarget(r.Key().Target(direction), target)
      ensures r.Key().Target(direction) in found && r.Key().Source(direction) in found
    {
      assert r in seed;
    }
  }

  // ---- the rows a reverse search reads -----------------------------------------------------

  function RowsInto(all: set<Row>, direction: Direction, nodes: set<Entity>): set<Row> {
    set r | r in all && r.Key().Target(direction) in nodes
  }

  /** The rows that lead into the target or to where it can be reached from. */
  ghost function Approach(all: set<Row>, direction: Direction, target: string, depth: nat)
    : set<Row>
  {
    set r | r in all && (InTarget(r.Key().Target(direction), target)
                         || ReachesWithin(all, direction, r.Key().Target(direction), target, depth))
  }

  lemma SeedIsApproach(all: set<Row>, target: string, direction: Direction, depth: nat)
    ensures |ReverseSeed(all, target, direction)| <= |Approach(all, direction, target, depth)|
  {
    ReverseQueries(all, target, {}, direction);
    NotMore(ReverseSeed(all, target, direction), Approach(all, direction, target, depth));
  }

  /** Rows into nodes that were found are rows of the approach. */
  lemma ReadIsApproach(all: set<Row>, direction: Direction, target: string, depth: nat,
                       found: set<Entity>, nodes: set<Entity>, deeper: nat)
    requires ReachSet(all, direction, target, depth, found) && nodes <= found && depth <= deeper
    ensures |RowsInto(all, direction, nodes)| <= |Approach(all, direction, target, deeper)|
  {
    var approach := Approach(all, direction, target, deeper);
    forall r | r in RowsInto(all, direction, nodes)
      ensures r in approach
    {
      var n := r.Key().Target(direction);
      if !InTarget(n, target) {
        ReachesLonger(all, direction, n, target, depth, deeper);
      }
    }
    NotMore(RowsInto(all, direction, nodes), approach);
  }

  /** Reading the frontier on top of what was read before reads every node once. */
  lemma ReadFrontier(all: set<Row>, direction: Direction, nodes: set<Entity>,
                     frontier: set<Entity>, target: string)
    requires frontier <= nodes
    ensures |RowsInto(all, direction, nodes)|
         == |RowsInto(all, direction, nodes - frontier)| + |ReverseFrontier(all, frontier, direction)|
  {
    var read, added := RowsInto(all, direction, nodes - frontier), RowsInto(all, direction, frontier);
    ReverseQueries(all, target, frontier, direction);
    assert ReverseFrontier(all, frontier, direction) == added;
    assert RowsInto(all, direction, nodes) == read + added && read !! added;
  }

  /** Reverse search for one target: nothing when its rows exceed the remaining budget. Nothing is
      read but its approach, and no row more than twice. */
  method ReverseReach(all: set<Row>, target: string, direction: Direction, maxHops: nat,
                      budget: nat)
    returns (found: Option<set<Entity>>, remaining: nat)
    ensures remaining <= budget
    ensures found.Some? ==> ReachSet(all, direction, target, ReachDepth(maxHops), found.value)
    ensures var rows := |Approach(all, direction, target, ReachDepth(maxHops))|;
            if found.Some? then budget <= remaining + rows + rows else budget < rows + rows
  {
    SeedIsApproach(all, target, direction, ReachDepth(maxHops));
    var seed := Page(ReverseSeed(all, target, direction), budget + 1);
    if |seed| > budget {
      return None, budget;
    }
    var nodes, frontier := SeedTarget(all, target, direction, seed);
    found, remaining :=
      ReverseHops(all, target, direction, maxHops, budget - |seed|, nodes, frontier);
  }

  function ReachDepth(maxHops: nat): nat {
    if maxHops == 0 then 1 else maxHops
  }

  /** Between two reverse hops. */
  ghost predicate Reversing(all: set<Row>, direction: Direction, target: string, depth: nat,
                            nodes: set<Entity>, frontier: set<Entity>, budget: nat, remaining: nat)
  {
    && ReachSet(all, direction, target, depth, nodes)
    && Closed(all, direction, nodes, frontier)
    && remaining <= budget <= remaining + |RowsInto(all, direction, nodes - frontier)|
  }

  lemma ReverseStarts(all: set<Row>, direction: Direction, target: string, nodes: set<Entity>,
                      frontier: set<Entity>, budget: nat)
    requires ReachSet(all, direction, target, 1, nodes) && Closed(all, direction, nodes, frontier)
    ensures Reversing(all, direction, target, 1, nodes, frontier, budget, budget)
  {
  }

  lemma ReverseEnds(all: set<Row>, direction: Direction, target: string, depth: nat,
                    nodes: set<Entity>, frontier: set<Entity>, budget: nat, remaining: nat,
                    deeper: nat)
    requires Reversing(all, direction, target, depth, nodes, frontier, budget, remaining)
    requires 0 < depth <= deeper && (frontier == {} || depth == deeper)
    ensures ReachSet(all, direction, target, deeper, nodes)
    ensures budget <= remaining + |Approach(all, direction, target, deeper)|
  {
    ReadIsApproach(all, direction, target, depth, nodes, nodes - frontier, deeper);
    if frontier == {} {
      ReachSettled(all, direction, target, depth, nodes, deeper);
    }
  }

  method ReverseHops(all: set<Row>, target: string, direction: Direction, maxHops: nat,
                     budget: nat, seeded: set<Entity>, fringe: set<Entity>)
    returns (found: Option<set<Entity>>, remaining: nat)
    requires ReachSet(all, direction, target, 1, seeded)
    requires Closed(all, direction, seeded, fringe)
    ensures remaining <= budget
    ensures found.Some? ==> ReachSet(all, direction, target, ReachDepth(maxHops), found.value)
    ensures var rows := |Approach(all, direction, target, ReachDepth(maxHops))|;
            if found.Some? then budget <= remaining + rows else budget < rows
  {
    var nodes, frontier := seeded, fringe;
    var depth := 1;
    remaining := budget;
    ReverseStarts(all, direction, target, nodes, frontier, budget);
    while depth < maxHops
      invariant 0 < depth <= ReachDepth(maxHops)
      invariant Reversing(all, direction, target, depth, nodes, frontier, budget, remaining)
      decreases maxHops - depth
    {
      if frontier == {} {
        ReverseEnds(all, direction, target, depth, nodes, frontier, budget, remaining, maxHops);
        return Some(nodes), remaining;
      }
      var hop;
      hop, remaining := ReverseStep(all, target, direction, depth, ReachDepth(maxHops), nodes,
                                    frontier, budget, remaining);
      if hop.None? {
        return None, remaining;
      }
      nodes, frontier := hop.value.0, hop.value.1;
      depth := depth + 1;
    }
    ReverseEnds(all, direction, target, depth, nodes, frontier, budget, remaining,
                ReachDepth(maxHops));
    return Some(nodes), remaining;
  }

  lemma ReverseNext(all: set<Row>, target: string, direction: Direction, depth: nat, deeper: nat,
                    nodes: set<Entity>, frontier: set<Entity>, budget: nat, remaining: nat,
                    next: set<Entity>)
    requires 0 < depth < deeper
    requires Reversing(all, direction, target, depth, nodes, frontier, budget, remaining)
    requires next == (set r | r in ReverseFrontier(all, frontier, direction)
                            :: r.Key().Source(direction)) - nodes
    ensures var rows := |ReverseFrontier(all, frontier, direction)|;
            if rows <= remaining
            then Reversing(all, direction, target, depth + 1, nodes + next, next, budget,
                           remaining - rows)
            else budget < |Approach(all, direction, target, deeper)|
  {
    ReverseQueries(all, target, frontier, direction);
    assert next == (set r | r in all && r.Key().Target(direction) in frontier
                          :: r.Key().Source(direction)) - nodes;
    ReachOneMore(all, direction, target, depth, nodes, frontier, next);
    ReadFrontier(all, direction, nodes, frontier, target);
    ReadIsApproach(all, direction, target, depth, nodes, nodes, deeper);
    assert nodes + next - next == nodes;
  }

  /** One reverse hop over the whole of a frontier's rows. */
  method ReverseStep(all: set<Row>, target: string, direction: Direction, ghost depth: nat,
                     ghost deeper: nat, found: set<Entity>, frontier: set<Entity>,
                     ghost budget: nat, left: nat)
    returns (hop: Option<(set<Entity>, set<Entity>)>, remaining: nat)
    requires 0 < depth < deeper
    requires Reversing(all, direction, target, depth, found, frontier, budget, left)
    ensures remaining <= left
    ensures if hop.Some?
            then Reversing(all, direction, target, depth + 1, hop.value.0, hop.value.1, budget,
                           remaining)
            else budget < |Approach(all, direction, target, deeper)|
  {
    var rows := Page(ReverseFrontier(all, frontier, direction), left + 1);
    ghost var sources := set r | r in ReverseFrontier(all, frontier, direction)
                               :: r.Key().Source(direction);
    ReverseNext(all, target, direction, depth, deeper, found, frontier, budget, left,
                sources - found);
    if |rows| > left {
      return None, left;
    }
    assert Elements(rows) == ReverseFrontier(all, frontier, direction);
    var next, visited := Predecessors(rows, found, direction);
    return Some((visited, next)), left - |rows|;
  }

  method Predecessors(rows: seq<Row>, visited: set<Entity>, direction: Direction)
    returns (next: set<Entity>, visited': set<Entity>)
    ensures visited' == visited + next && next !! visited
    ensures next == (set r | r in Elements(rows) :: r.Key().Source(direction)) - visited
  {
    next, visited' := {}, visited;
    for i := 0 to |rows|
      invariant visited' == visited + next && next !! visited
      invariant next == (set r | r in rows[..i] :: r.Key().Source(direction)) - visited
    {
      var predecessor := rows[i].Key().Source(direction);
      assert rows[..i + 1] == rows[..i] + [rows[i]];
      if predecessor !in visited' {
        visited', next := visited' + {predecessor}, next + {predecessor};
      }
    }
    assert rows[..|rows|] == rows;
  }

  // ---- all targets -----------------------------------------------------------------------

  type TargetReachability = map<Entity, set<string>>

  function ReachableTargets(reachable: TargetReachability, node: Entity): set<string> {
    if node in reachable then reachable[node] else {}
  }

  function WithTarget(reachable: TargetReachability, nodes: set<Entity>, target: string)
    : (r: TargetReachability)
    ensures forall n, t :: t in ReachableTargets(r, n) <==>
              t in ReachableTargets(reachable, n) || (t == target && n in nodes)
  {
    map n | n in reachable.Keys + nodes ::
      ReachableTargets(reachable, n) + (if n in nodes then {target} else {})
  }

  function ReachingSet(reachable: TargetReachability, target: string): set<Entity> {
    set n | n in reachable && target in reachable[n]
  }

  /** For each target the start does not already satisfy, the entities a reverse search finds. */
  ghost predicate ReachesTargets(all: set<Row>, query: Query, targets: set<string>,
                                 reachable: TargetReachability)
  {
    forall t :: t in targets && TargetRepository(query.start, query.targets) != Some(t) ==>
      ReachSet(all, query.direction, t, ReachDepth(query.maxHops), ReachingSet(reachable, t))
  }

  /** The rows the reverse search of a target reads. */
  ghost function ReadFor(all: set<Row>, query: Query, target: string): nat {
    |Approach(all, query.direction, target, ReachDepth(query.maxHops))|
  }

  ghost function AnyOf(targets: set<string>): (t: string)
    requires targets != {}
    ensures t in targets
  {
    var t :| t in targets;
    t
  }

  /** What the reverse searches of some targets read at most: every row of an approach twice. */
  ghost function ReadLimit(all: set<Row>, query: Query, targets: set<string>): nat {
    if targets == {} then 0
    else
      var t := AnyOf(targets);
      ReadLimit(all, query, targets - {t}) + 2 * ReadFor(all, query, t)
  }

  /** In whatever order they are searched. */
  lemma {:induction false} ReadOneMore(all: set<Row>, query: Query, targets: set<string>, t: string)
    requires t in targets
    ensures ReadLimit(all, query, targets)
         == ReadLimit(all, query, targets - {t}) + 2 * ReadFor(all, query, t)
    decreases |targets|
  {
    var first := AnyOf(targets);
    if first != t {
      ReadOneMore(all, query, targets - {first}, t);
      ReadOneMore(all, query, targets - {t}, first);
      assert targets - {first} - {t} == targets - {t} - {first};
    }
  }

  lemma {:induction false} ReadLimitGrows(all: set<Row>, query: Query, some: set<string>,
                                          more: set<string>)
    requires some <= more
    ensures ReadLimit(all, query, some) <= ReadLimit(all, query, more)
    decreases |more|
  {
    if more - some != {} {
      var t :| t in more - some;
      ReadOneMore(all, query, more, t);
      ReadLimitGrows(all, query, some, more - {t});
    } else {
      assert some == more;
    }
  }

  ghost predicate IsReached(all: set<Row>, query: Query, done: set<string>,
                            reachable: TargetReachability, budget: nat, remaining: nat,
                            reached: bool)
  {
    reached == (&& done <= query.targets && remaining <= budget
                && ReachesTargets(all, query, done, reachable) && OnlyTargets(reachable, done)
                && budget <= remaining + ReadLimit(all, query, done))
  }

  /** Between the searches for two targets; said so that it unfolds only on demand. */
  ghost predicate Reached(all: set<Row>, query: Query, done: set<string>,
                          reachable: TargetReachability, budget: nat, remaining: nat)
  {
    forall reached {:trigger IsReached(all, query, done, reachable, budget, remaining, reached)} ::
      IsReached(all, query, done, reachable, budget, remaining, reached) ==> reached
  }

  lemma ReachedIs(all: set<Row>, query: Query, done: set<string>, reachable: TargetReachability,
                  budget: nat, remaining: nat)
    ensures Reached(all, query, done, reachable, budget, remaining)
       <==> && done <= query.targets && remaining <= budget
            && ReachesTargets(all, query, done, reachable) && OnlyTargets(reachable, done)
            && budget <= remaining + ReadLimit(all, query, done)
  {
    assert IsReached(all, query, done, reachable, budget, remaining,
                     && done <= query.targets && remaining <= budget
                     && ReachesTargets(all, query, done, reachable) && OnlyTargets(reachable, done)
                     && budget <= remaining + ReadLimit(all, query, done));
  }

  lemma ReachedNone(all: set<Row>, query: Query, budget: nat)
    ensures Reached(all, query, {}, map[], budget, budget)
  {
    ReachedIs(all, query, {}, map[], budget, budget);
  }

  lemma ReachedOne(all: set<Row>, query: Query, done: set<string>, reachable: TargetReachability,
                   budget: nat, remaining: nat, target: string, nodes: set<Entity>, left: nat)
    requires Reached(all, query, done, reachable, budget, remaining)
    requires target in query.targets - done && left <= remaining
    requires remaining <= left + 2 * ReadFor(all, query, target)
    requires TargetRepository(query.start, query.targets) != Some(target) ==>
               ReachSet(all, query.direction, target, ReachDepth(query.maxHops), nodes)
    ensures Reached(all, query, done + {target}, WithTarget(reachable, nodes, target), budget, left)
  {
    ReachedIs(all, query, done, reachable, budget, remaining);
    ReachedIs(all, query, done + {target}, WithTarget(reachable, nodes, target), budget, left);
    TargetAdded(all, query, reachable, nodes, target, done);
    ReadOneMore(all, query, done + {target}, target);
    assert done + {target} - {target} == done;
  }

  lemma ReachedLimit(all: set<Row>, query: Query, done: set<string>, reachable: TargetReachability,
                     budget: nat, remaining: nat, target: string)
    requires Reached(all, query, done, reachable, budget, remaining)
    requires target in query.targets - done
    requires remaining < 2 * ReadFor(all, query, target)
    ensures budget < ReadLimit(all, query, query.targets)
  {
    ReachedIs(all, query, done, reachable, budget, remaining);
    ReadOneMore(all, query, done + {target}, target);
    assert done + {target} - {target} == done;
    ReadLimitGrows(all, query, done + {target}, query.targets);
  }

  method ComputeReachability(all: set<Row>, query: Query, budget: nat)
    returns (reachable: Option<TargetReachability>, remaining: nat)
    ensures remaining <= budget
    ensures reachable.Some? ==> ReachesTargets(all, query, query.targets, reachable.value)
    ensures if reachable.Some? then budget <= remaining + ReadLimit(all, query, query.targets)
            else budget < ReadLimit(all, query, query.targets)
  {
    remaining := budget;
    var found: TargetReachability := map[];
    var pending := query.targets;
    ghost var done: set<string> := {};
    ReachedNone(all, query, budget);
    while pending != {}
      invariant done + pending == query.targets && done !! pending
      invariant Reached(all, query, done, found, budget, remaining) && remaining <= budget
      decreases |pending|
    {
      var target :| target in pending;
      var result;
      result, remaining := ReachTarget(all, query, done, found, budget, remaining, target);
      if result.None? {
        return None, remaining;
      }
      found := result.value;
      pending, done := pending - {target}, done + {target};
    }
    assert done == query.targets;
    ReachedIs(all, query, done, found, budget, remaining);
    return Some(found), remaining;
  }

  /** One more target; the start's own is reached from the start alone. */
  method ReachTarget(all: set<Row>, query: Query, ghost done: set<string>,
                     reachable: TargetReachability, ghost budget: nat, left: nat, target: string)
    returns (result: Option<TargetReachability>, remaining: nat)
    requires Reached(all, query, done, reachable, budget, left) && target in query.targets - done
    ensures remaining <= left
    ensures if result.Some? then Reached(all, query, done + {target}, result.value, budget, remaining)
            else budget < ReadLimit(all, query, query.targets)
  {
    remaining := left;
    var nodes := {query.start};
    if TargetRepository(query.start, query.targets) != Some(target) {
      var found;
      found, remaining := ReverseReach(all, target, query.direction, query.maxHops, left);
      if found.None? {
        ReachedLimit(all, query, done, reachable, budget, left, target);
        return None, remaining;
      }
      nodes := found.value;
    }
    ReachedOne(all, query, done, reachable, budget, left, target, nodes, remaining);
    return Some(WithTarget(reachable, nodes, target)), remaining;
  }

  ghost predicate OnlyTargets(reachable: TargetReachability, targets: set<string>) {
    forall n, t :: t in ReachableTargets(reachable, n) ==> t in targets
  }

  lemma ReachingAdded(reachable: TargetReachability, nodes: set<Entity>, target: string, t: string)
    requires forall n :: target !in ReachableTargets(reachable, n)
    ensures ReachingSet(WithTarget(reachable, nodes, target), t)
         == if t == target then nodes else ReachingSet(reachable, t)
  {
  }

  lemma TargetAdded(all: set<Row>, query: Query, reachable: TargetReachability,
                    nodes: set<Entity>, target: string, done: set<string>)
    requires ReachesTargets(all, query, done, reachable)
    requires OnlyTargets(reachable, done) && target !in done
    requires TargetRepository(query.start, query.targets) != Some(target) ==>
               ReachSet(all, query.direction, target, ReachDepth(query.maxHops), nodes)
    ensures ReachesTargets(all, query, done + {target}, WithTarget(reachable, nodes, target))
    ensures OnlyTargets(WithTarget(reachable, nodes, target), done + {target})
  {
    forall t | t in done + {target} && TargetRepository(query.start, query.targets) != Some(t)
      ensures ReachSet(all, query.direction, t, ReachDepth(query.maxHops),
                       ReachingSet(WithTarget(reachable, nodes, target), t))
    {
      ReachingAdded(reachable, nodes, target, t);
    }
  }
}
