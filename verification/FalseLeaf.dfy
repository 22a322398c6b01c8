/** A cut can turn an entity into a leaf that is none: the specification promises that an entity
    whose edges were not acquired is never reported as one. The state search keeps one entity in
    several states; when the cut strikes before the completed one, rows of an earlier state stand
    for all of the entity's rows. */
module FalseLeaf {
  import opened OnDemand
  import opened Order
  import opened Graph
  import opened PathSearch
  import opened Paths
  import opened Acquisition
  import opened Edges
  import opened Reach
  import opened Filtered
  import opened Lossless
  import opened Cut

  /** A start, two ways on from it, one entity of target `x`, two of target `y` and a contract. */
  datatype Places = Places(s: Entity, a: Entity, e: Entity, b: Entity, f: Entity, h: Entity,
                           c: Entity)

  const TARGETS := {"x", "y"}

  /** What the example needs of the identifiers. */
  predicate Placed(p: Places) {
    && p.s !in {p.a, p.e, p.b, p.f, p.h} && p.a !in {p.e, p.b, p.f, p.h}
    && p.e !in {p.b, p.f, p.h} && p.b !in {p.f, p.h} && p.f != p.h
    && TargetRepository(p.s, TARGETS) == TargetRepository(p.a, TARGETS)
       == TargetRepository(p.e, TARGETS) == None
    && TargetRepository(p.b, TARGETS) == Some("x") && InTarget(p.b, "x")
    && TargetRepository(p.f, TARGETS) == TargetRepository(p.h, TARGETS) == Some("y")
    && InTarget(p.f, "y") && InTarget(p.h, "y")
    && IsRepositoryOwned(p.b) && IsRepositoryOwned(p.f) && IsRepositoryOwned(p.h)
    && !IsRepositoryOwned(p.c) && p.c !in {p.s, p.a, p.e, p.b, p.f, p.h}
  }

  function Edge(from: Entity, to: Entity): Row {
    Row(from, to, Calls, "", 1.0, "")
  }

  /** Where the edges lead. From `c` nothing leads to `x`, so as long as `x` is missing the edge
      to it is not taken. */
  function Next(p: Places, node: Entity): set<Entity> {
    if node == p.s then {p.e, p.a}
    else if node == p.e then {p.f}
    else if node == p.a then {p.b}
    else if node == p.f then {p.b, p.c}
    else if node == p.b then {p.e, p.h}
    else {}
  }

  function Ways(p: Places): set<Row> {
    set from, to | from in {p.s, p.e, p.a, p.f, p.b} && to in Next(p, from) :: Edge(from, to)
  }

  /** The edges the search takes, hop by hop, before it is cut. */
  function Taken(p: Places): set<Row> {
    {Edge(p.s, p.e), Edge(p.s, p.a)} + ({Edge(p.e, p.f)} + {Edge(p.a, p.b)})
    + ({Edge(p.f, p.b)} + {Edge(p.b, p.e), Edge(p.b, p.h)})
  }

  function Steps(p: Places, from: Entity): set<Row> {
    set to | to in Next(p, from) :: Edge(from, to)
  }

  lemma WaysAreSteps(p: Places)
    ensures Ways(p) == Steps(p, p.s) + (Steps(p, p.e) + Steps(p, p.a))
                       + (Steps(p, p.f) + Steps(p, p.b))
  {
  }

  lemma StepsTo(p: Places, from: Entity, to: Entity, other: Entity)
    requires Next(p, from) == {to, other}
    ensures Steps(p, from) == {Edge(from, to), Edge(from, other)}
  {
  }

  /** Everything but one edge of `f` is taken. */
  lemma TakenWays(p: Places)
    requires Placed(p)
    ensures Ways(p) == Taken(p) + {Edge(p.f, p.c)} && Edge(p.f, p.c) !in Taken(p)
  {
    WaysAreSteps(p);
    StepsTo(p, p.s, p.e, p.a);
    StepsTo(p, p.e, p.f, p.f);
    StepsTo(p, p.a, p.b, p.b);
    StepsTo(p, p.f, p.b, p.c);
    StepsTo(p, p.b, p.e, p.h);
  }

  lemma ExampleTakes(p: Places, fan: set<Row>, reachable: TargetReachability)
    requires IsExample(p, fan, reachable)
    ensures Ways(p) == Taken(p) + {Edge(p.f, p.c)} && Edge(p.f, p.c) !in Taken(p)
  {
    HoldingIs(IsGiven(p, fan, reachable));
    TakenWays(p);
  }

  /** Rows from `h` to other entities, of no repository. */
  predicate IsFan(p: Places, fan: set<Row>) {
    forall r :: r in fan ==>
      r.from == p.h && !IsRepositoryOwned(r.to) && r.to !in {p.s, p.a, p.e, p.b, p.f, p.h}
  }

  function Asked(p: Places, paths: nat): Query {
    Query(p.s, Outgoing, None, TARGETS, 5, paths)
  }

  lemma LeadsIn(all: set<Row>, from: Entity, to: Entity, target: string, k: nat)
    requires k > 0 && Edge(from, to) in all && InTarget(to, target)
    ensures ReachesWithin(all, Outgoing, from, target, k)
  {
    assert Leads(all, Outgoing, from, target, k, Edge(from, to));
  }

  lemma LeadsOn(all: set<Row>, from: Entity, to: Entity, target: string, k: nat)
    requires k > 1 && Edge(from, to) in all && ReachesWithin(all, Outgoing, to, target, k - 1)
    ensures ReachesWithin(all, Outgoing, from, target, k)
  {
    assert Leads(all, Outgoing, from, target, k, Edge(from, to));
  }

  ghost predicate IsFinding(all: set<Row>, target: string, found: set<Entity>, finding: bool) {
    finding == ReachSet(all, Outgoing, target, 5, found)
  }

  /** What a reverse search finds; said so that it unfolds only on demand. */
  ghost predicate Finds(all: set<Row>, target: string, found: set<Entity>) {
    forall finding {:trigger IsFinding(all, target, found, finding)} ::
      IsFinding(all, target, found, finding) ==> finding
  }

  lemma FindsIsReachSet(all: set<Row>, target: string, found: set<Entity>)
    ensures Finds(all, target, found) <==> ReachSet(all, Outgoing, target, 5, found)
  {
    assert IsFinding(all, target, found, ReachSet(all, Outgoing, target, 5, found));
  }

  /** An edge into the target was found with both its ends. */
  lemma FoundIn(all: set<Row>, target: string, found: set<Entity>, from: Entity, to: Entity)
    requires Finds(all, target, found)
    requires Edge(from, to) in all && InTarget(to, target)
    ensures from in found && to in found
  {
    FindsIsReachSet(all, target, found);
    LeadsIn(all, from, to, target, 5);
    assert Edge(from, to).Key().Target(Outgoing) == to;
  }

  lemma FoundOn(all: set<Row>, target: string, found: set<Entity>, from: Entity, via: Entity,
                to: Entity)
    requires Finds(all, target, found)
    requires Edge(from, via) in all && Edge(via, to) in all && InTarget(to, target)
    ensures from in found
  {
    FindsIsReachSet(all, target, found);
    LeadsIn(all, via, to, target, 4);
    LeadsOn(all, from, via, target, 5);
  }

  lemma ReachesX(p: Places, fan: set<Row>, found: set<Entity>)
    requires Placed(p) && Finds(Ways(p) + fan, "x", found)
    ensures {p.s, p.a, p.e, p.b, p.f} <= found
  {
    var all := Ways(p) + fan;
    FoundIn(all, "x", found, p.f, p.b);
    FoundIn(all, "x", found, p.a, p.b);
    FoundOn(all, "x", found, p.e, p.f, p.b);
    FoundOn(all, "x", found, p.s, p.a, p.b);
  }

  lemma ReachesY(p: Places, fan: set<Row>, found: set<Entity>)
    requires Placed(p) && Finds(Ways(p) + fan, "y", found)
    ensures {p.s, p.a, p.e, p.b, p.f, p.h} <= found
  {
    var all := Ways(p) + fan;
    FoundIn(all, "y", found, p.b, p.h);
    FoundIn(all, "y", found, p.e, p.f);
    FoundOn(all, "y", found, p.a, p.b, p.h);
    FoundOn(all, "y", found, p.s, p.e, p.f);
  }

  lemma NotFromC(p: Places, fan: set<Row>, target: string, found: set<Entity>)
    requires Placed(p) && IsFan(p, fan) && Finds(Ways(p) + fan, target, found)
    ensures p.c !in found
  {
    FindsIsReachSet(Ways(p) + fan, target, found);
    NoTarget(p.c, target);
    StartsInPlaces(p, fan, p.c);
    LeadsNowhere(Ways(p) + fan, p.c, target, 5);
  }

  /** Both targets can be reached from every place but `c` and `h`, which lies in one. */
  lemma BothReached(p: Places, fan: set<Row>, paths: nat, reachable: TargetReachability)
    requires Placed(p) && IsFan(p, fan)
    requires ReachesTargets(Ways(p) + fan, Asked(p, paths), TARGETS, reachable)
    ensures IsExample(p, fan, reachable)
  {
    var query := Asked(p, paths);
    ReachingFinds(p, fan, query, reachable, "x");
    ReachingFinds(p, fan, query, reachable, "y");
    ReachesX(p, fan, ReachingSet(reachable, "x"));
    ReachesY(p, fan, ReachingSet(reachable, "y"));
    NotFromC(p, fan, "x", ReachingSet(reachable, "x"));
    BothAre(p, reachable);
    HoldingIs(IsGiven(p, fan, reachable));
  }

  lemma BothAre(p: Places, reachable: TargetReachability)
    requires {p.s, p.a, p.e, p.b, p.f} <= ReachingSet(reachable, "x")
    requires {p.s, p.a, p.e, p.b, p.f, p.h} <= ReachingSet(reachable, "y")
    requires p.c !in ReachingSet(reachable, "x")
    ensures HasBoth(p, reachable)
  {
  }

  lemma ReachingFinds(p: Places, fan: set<Row>, query: Query, reachable: TargetReachability,
                      t: string)
    requires Placed(p) && query == Asked(p, query.maxPaths) && t in TARGETS
    requires ReachesTargets(Ways(p) + fan, query, TARGETS, reachable)
    ensures Finds(Ways(p) + fan, t, ReachingSet(reachable, t))
  {
    FindsIsReachSet(Ways(p) + fan, t, ReachingSet(reachable, t));
  }


  // ---- the hops ---------------------------------------------------------------------------------------

  /** An entity with nothing completed. */
  function Open(entity: Entity, visited: set<string>): State {
    State(entity, Progress(visited, None))
  }

  function Done(entity: Entity, owner: string): State {
    State(entity, Progress(TARGETS, Some(owner)))
  }

  ghost predicate HasBoth(p: Places, reachable: TargetReachability) {
    && (forall n :: n in {p.s, p.a, p.e, p.b, p.f} ==> TARGETS <= ReachableTargets(reachable, n))
    && "y" in ReachableTargets(reachable, p.h) && "x" !in ReachableTargets(reachable, p.c)
  }

  ghost predicate IsGiven(p: Places, fan: set<Row>, reachable: TargetReachability) {
    Placed(p) && IsFan(p, fan) && HasBoth(p, reachable)
  }

  /** The example up to the reverse search, without its details. */
  ghost predicate IsExample(p: Places, fan: set<Row>, reachable: TargetReachability) {
    Holding(IsGiven(p, fan, reachable))
  }

  /** What the states of a hop take and where they get to. */
  ghost predicate IsTaken(all: set<Row>, query: Query, reachable: TargetReachability,
                          states: set<State>, taken: set<Row>, moves: set<State>)
  {
    && ForwardRows(all, query, reachable, states) == taken
    && AllMoves(query, reachable, states, taken) == moves
    && (forall r :: r in taken ==> exists s :: s in states && r.Key().Source(query.direction) == s.entity)
  }

  /** The same, without the queries. */
  ghost predicate Takes(all: set<Row>, query: Query, reachable: TargetReachability,
                        states: set<State>, taken: set<Row>, moves: set<State>)
  {
    Holding(IsTaken(all, query, reachable, states, taken, moves))
  }

  /** An open state takes a row and goes along it. */
  ghost predicate Goes(query: Query, reachable: TargetReachability, state: State, r: Row,
                       next: State)
  {
    && Allowed(query, reachable, state, r) && r.Key().Source(query.direction) == state.entity
    && NextState(query, reachable, state, r.Key().Target(query.direction)) == Some(next)
  }

  lemma OpenGoes(query: Query, reachable: TargetReachability, from: Entity, visited: set<string>,
                 to: Entity, next: State)
    requires query.targets == TARGETS && query.direction.Outgoing? && visited <= TARGETS
    requires next == State(to, Advance(Progress(visited, None), to, TARGETS))
    requires TARGETS - visited <= ReachableTargets(reachable, to)
    ensures Goes(query, reachable, Open(from, visited), Edge(from, to), next)
  {
  }

  ghost predicate Leaves(all: set<Row>, direction: Direction, node: Entity, rows: set<Row>) {
    forall r :: r in rows <==> r in all && r.Key().Source(direction) == node
  }

  lemma TakesOne(all: set<Row>, query: Query, reachable: TargetReachability, state: State, r: Row,
                 next: State)
    requires Leaves(all, query.direction, state.entity, {r})
    requires Goes(query, reachable, state, r, next)
    ensures Takes(all, query, reachable, {state}, {r}, {next})
  {
    CandidateIsSource(query.direction, state, r);
    forall other
      ensures Candidate(query.direction, state, other) <==> other.Key().Source(query.direction) == state.entity
    {
      CandidateIsSource(query.direction, state, other);
    }
    assert r in {r};
    HoldingIs(IsTaken(all, query, reachable, {state}, {r}, {next}));
  }

  /** Of two rows the state is refused one. */
  lemma TakesFirst(all: set<Row>, query: Query, reachable: TargetReachability, state: State, r: Row,
                   other: Row, next: State)
    requires Leaves(all, query.direction, state.entity, {r, other})
    requires Goes(query, reachable, state, r, next) && !Allowed(query, reachable, state, other)
    ensures Takes(all, query, reachable, {state}, {r}, {next})
  {
    forall row
      ensures Candidate(query.direction, state, row) <==> row.Key().Source(query.direction) == state.entity
    {
      CandidateIsSource(query.direction, state, row);
    }
    assert r in {r, other} && r in {r};
    HoldingIs(IsTaken(all, query, reachable, {state}, {r}, {next}));
  }

  lemma TakesTwo(all: set<Row>, query: Query, reachable: TargetReachability, state: State, r: Row,
                 r': Row, next: State, next': State)
    requires Leaves(all, query.direction, state.entity, {r, r'})
    requires Goes(query, reachable, state, r, next) && Goes(query, reachable, state, r', next')
    ensures Takes(all, query, reachable, {state}, {r, r'}, {next, next'})
  {
    forall other
      ensures Candidate(query.direction, state, other) <==> other.Key().Source(query.direction) == state.entity
    {
      CandidateIsSource(query.direction, state, other);
    }
    assert r in {r, r'} && r' in {r, r'};
    HoldingIs(IsTaken(all, query, reachable, {state}, {r, r'}, {next, next'}));
  }

  /** States of different entities take their own rows. */
  lemma TakesBoth(all: set<Row>, query: Query, reachable: TargetReachability, a: State, b: State,
                  taken: set<Row>, taken': set<Row>, moves: set<State>, moves': set<State>)
    requires a.entity != b.entity
    requires Takes(all, query, reachable, {a}, taken, moves)
    requires Takes(all, query, reachable, {b}, taken', moves')
    ensures Takes(all, query, reachable, {a, b}, taken + taken', moves + moves')
  {
    HoldingIs(IsTaken(all, query, reachable, {a}, taken, moves));
    HoldingIs(IsTaken(all, query, reachable, {b}, taken', moves'));
    HoldingIs(IsTaken(all, query, reachable, {a, b}, taken + taken', moves + moves'));
    assert ForwardRows(all, query, reachable, {a, b})
        == ForwardRows(all, query, reachable, {a}) + ForwardRows(all, query, reachable, {b});
    MovesOfBoth(query, reachable, a, b, taken, taken');
    MovesOfBoth(query, reachable, b, a, taken', taken);
    assert AllMoves(query, reachable, {a, b}, taken + taken')
        == AllMoves(query, reachable, {a}, taken + taken') + AllMoves(query, reachable, {b}, taken' + taken);
  }

  lemma MovesOfBoth(query: Query, reachable: TargetReachability, a: State, b: State,
                    taken: set<Row>, others: set<Row>)
    requires a.entity != b.entity
    requires forall r :: r in others ==> r.Key().Source(query.direction) == b.entity
    ensures AllMoves(query, reachable, {a}, taken + others) == AllMoves(query, reachable, {a}, taken)
    ensures taken + others == others + taken
  {
  }

  lemma LeavesWays(p: Places, fan: set<Row>, node: Entity)
    requires IsFan(p, fan) && node in {p.s, p.e, p.a, p.f, p.b} && node != p.h
    ensures Leaves(Ways(p) + fan, Outgoing, node, Steps(p, node))
  {
    assert forall r: Row :: r.Key().Source(Outgoing) == r.from;
  }

  lemma LeavesTwo(p: Places, fan: set<Row>, node: Entity, to: Entity, other: Entity)
    requires IsFan(p, fan) && node in {p.s, p.e, p.a, p.f, p.b} && node != p.h
    requires Next(p, node) == {to, other}
    ensures Leaves(Ways(p) + fan, Outgoing, node, {Edge(node, to), Edge(node, other)})
  {
    LeavesWays(p, fan, node);
    StepsTo(p, node, to, other);
  }

  lemma FirstHop(p: Places, fan: set<Row>, paths: nat, reachable: TargetReachability)
    requires IsExample(p, fan, reachable)
    ensures Takes(Ways(p) + fan, Asked(p, paths), reachable, {Open(p.s, {})},
                  {Edge(p.s, p.e), Edge(p.s, p.a)}, {Open(p.e, {}), Open(p.a, {})})
  {
    var query := Asked(p, paths);
    HoldingIs(IsGiven(p, fan, reachable));
    LeavesTwo(p, fan, p.s, p.e, p.a);
    OpenGoes(query, reachable, p.s, {}, p.e, Open(p.e, {}));
    OpenGoes(query, reachable, p.s, {}, p.a, Open(p.a, {}));
    TakesTwo(Ways(p) + fan, query, reachable, Open(p.s, {}), Edge(p.s, p.e), Edge(p.s, p.a),
             Open(p.e, {}), Open(p.a, {}));
  }

  lemma SecondWays(p: Places, fan: set<Row>, paths: nat, reachable: TargetReachability)
    requires IsExample(p, fan, reachable)
    ensures var all, query := Ways(p) + fan, Asked(p, paths);
            && Leaves(all, Outgoing, p.e, {Edge(p.e, p.f)})
            && Leaves(all, Outgoing, p.a, {Edge(p.a, p.b)})
            && Goes(query, reachable, Open(p.e, {}), Edge(p.e, p.f), Open(p.f, {"y"}))
            && Goes(query, reachable, Open(p.a, {}), Edge(p.a, p.b), Open(p.b, {"x"}))
  {
    HoldingIs(IsGiven(p, fan, reachable));
    LeavesTwo(p, fan, p.e, p.f, p.f);
    LeavesTwo(p, fan, p.a, p.b, p.b);
    OpenGoes(Asked(p, paths), reachable, p.e, {}, p.f, Open(p.f, {"y"}));
    OpenGoes(Asked(p, paths), reachable, p.a, {}, p.b, Open(p.b, {"x"}));
  }

  lemma SecondHop(p: Places, fan: set<Row>, paths: nat, reachable: TargetReachability)
    requires IsExample(p, fan, reachable)
    ensures Takes(Ways(p) + fan, Asked(p, paths), reachable, {Open(p.e, {}), Open(p.a, {})},
                  {Edge(p.e, p.f)} + {Edge(p.a, p.b)}, {Open(p.f, {"y"})} + {Open(p.b, {"x"})})
  {
    var all, query := Ways(p) + fan, Asked(p, paths);
    SecondWays(p, fan, paths, reachable);
    NewStates(p, fan, reachable);
    TakesOne(all, query, reachable, Open(p.e, {}), Edge(p.e, p.f), Open(p.f, {"y"}));
    TakesOne(all, query, reachable, Open(p.a, {}), Edge(p.a, p.b), Open(p.b, {"x"}));
    TakesBoth(all, query, reachable, Open(p.e, {}), Open(p.a, {}), {Edge(p.e, p.f)},
              {Edge(p.a, p.b)}, {Open(p.f, {"y"})}, {Open(p.b, {"x"})});
  }

  lemma ThirdWays(p: Places, fan: set<Row>, reachable: TargetReachability)
    requires IsExample(p, fan, reachable)
    ensures var all := Ways(p) + fan;
            && Leaves(all, Outgoing, p.f, {Edge(p.f, p.b), Edge(p.f, p.c)})
            && Leaves(all, Outgoing, p.b, {Edge(p.b, p.e), Edge(p.b, p.h)})
  {
    HoldingIs(IsGiven(p, fan, reachable));
    LeavesTwo(p, fan, p.f, p.b, p.c);
    LeavesTwo(p, fan, p.b, p.e, p.h);
  }

  lemma ThirdGoes(p: Places, fan: set<Row>, paths: nat, reachable: TargetReachability)
    requires IsExample(p, fan, reachable)
    ensures var query := Asked(p, paths);
            && Goes(query, reachable, Open(p.f, {"y"}), Edge(p.f, p.b), Done(p.b, "x"))
            && !Allowed(query, reachable, Open(p.f, {"y"}), Edge(p.f, p.c))
            && Goes(query, reachable, Open(p.b, {"x"}), Edge(p.b, p.e), Open(p.e, {"x"}))
            && Goes(query, reachable, Open(p.b, {"x"}), Edge(p.b, p.h), Done(p.h, "y"))
  {
    var query := Asked(p, paths);
    HoldingIs(IsGiven(p, fan, reachable));
    assert {"y"} + {"x"} == TARGETS && {"x"} + {"y"} == TARGETS;
    OpenGoes(query, reachable, p.f, {"y"}, p.b, Done(p.b, "x"));
    OpenGoes(query, reachable, p.b, {"x"}, p.e, Open(p.e, {"x"}));
    OpenGoes(query, reachable, p.b, {"x"}, p.h, Done(p.h, "y"));
    assert "x" in TARGETS - {"y"};
  }

  lemma ThirdHop(p: Places, fan: set<Row>, paths: nat, reachable: TargetReachability)
    requires IsExample(p, fan, reachable)
    ensures Takes(Ways(p) + fan, Asked(p, paths), reachable, {Open(p.f, {"y"}), Open(p.b, {"x"})},
                  {Edge(p.f, p.b)} + {Edge(p.b, p.e), Edge(p.b, p.h)},
                  {Done(p.b, "x")} + {Open(p.e, {"x"}), Done(p.h, "y")})
  {
    var all, query := Ways(p) + fan, Asked(p, paths);
    ThirdWays(p, fan, reachable);
    ThirdGoes(p, fan, paths, reachable);
    NewStates(p, fan, reachable);
    TakesFirst(all, query, reachable, Open(p.f, {"y"}), Edge(p.f, p.b), Edge(p.f, p.c),
               Done(p.b, "x"));
    TakesTwo(all, query, reachable, Open(p.b, {"x"}), Edge(p.b, p.e), Edge(p.b, p.h),
             Open(p.e, {"x"}), Done(p.h, "y"));
    TakesBoth(all, query, reachable, Open(p.f, {"y"}), Open(p.b, {"x"}), {Edge(p.f, p.b)},
              {Edge(p.b, p.e), Edge(p.b, p.h)}, {Done(p.b, "x")},
              {Open(p.e, {"x"}), Done(p.h, "y")});
  }

  // ---- the fronts -------------------------------------------------------------------------------------

  /** What the example needs to know of a front. */
  ghost predicate Looks(f: Front, states: set<State>, visited: set<State>, rows: set<Row>,
                        count: nat, cost: nat)
  {
    && f.states == states && f.visited == visited && Elements(f.rows) == rows && |f.rows| == count
    && f.cost == cost
  }

  lemma HopFrom(all: set<Row>, query: Query, reachable: TargetReachability, hops: nat, f: Front,
                states: set<State>, visited: set<State>, rows: set<Row>, count: nat, cost: nat,
                taken: set<Row>, moves: set<State>)
    requires f == FrontAt(all, query, reachable, hops)
    requires Looks(f, states, visited, rows, count, cost)
    requires Takes(all, query, reachable, states, taken, moves) && moves !! visited
    ensures Looks(FrontAt(all, query, reachable, hops + 1), moves, visited + moves, rows + taken,
                  count + |taken|, cost + MoveCost(|taken|, |states|))
    ensures FrontAt(all, query, reachable, hops + 1).boundaries
         == f.boundaries + BoundaryEntities(all, query, states)
    ensures FrontAt(all, query, reachable, hops + 1).found
       <==> f.found || Completes(query, reachable, states, taken)
  {
    HoldingIs(IsTaken(all, query, reachable, states, taken, moves));
    FollowsIsHop(all, query, reachable, f, NextFront(all, query, reachable, f));
    ElementsConcat(f.rows, SortedRows(taken));
    assert Elements(SortedRows(taken)) == taken;
  }

  lemma OpenAreNoBoundaries(all: set<Row>, query: Query, states: set<State>)
    requires forall s :: s in states ==> !Completed(s)
    ensures BoundaryEntities(all, query, states) == {}
  {
  }

  ghost predicate Quiet(f: Front, states: set<State>, visited: set<State>, rows: set<Row>,
                        count: nat, cost: nat)
  {
    Looks(f, states, visited, rows, count, cost) && f.boundaries == {}
  }

  /** The states of the hops are all different. */
  lemma NewStates(p: Places, fan: set<Row>, reachable: TargetReachability)
    requires IsExample(p, fan, reachable)
    ensures {Open(p.e, {}), Open(p.a, {})} !! {Open(p.s, {})}
    ensures {Open(p.f, {"y"})} + {Open(p.b, {"x"})} !! Seen(p)
    ensures {Done(p.b, "x")} + {Open(p.e, {"x"}), Done(p.h, "y")}
            !! Seen(p) + ({Open(p.f, {"y"})} + {Open(p.b, {"x"})})
    ensures p.e != p.a && p.f != p.b && p.e != p.h && p.s != p.a && p.h !in {p.b, p.e, p.f}
    ensures p.f !in {p.b, p.e, p.h}
  {
    HoldingIs(IsGiven(p, fan, reachable));
    assert "x" in {"x"} && "x" !in {"y"};
  }

  lemma ZeroFront(p: Places, fan: set<Row>, paths: nat, reachable: TargetReachability)
    requires IsExample(p, fan, reachable)
    ensures Quiet(FrontAt(Ways(p) + fan, Asked(p, paths), reachable, 0), {Open(p.s, {})},
                  {Open(p.s, {})}, {}, 0, 0)
    ensures !FrontAt(Ways(p) + fan, Asked(p, paths), reachable, 0).found
  {
    HoldingIs(IsGiven(p, fan, reachable));
    var query := Asked(p, paths);
    assert StartProgress(query) == Progress({}, None);
    assert Elements([]) == {};
  }

  lemma FirstFronts(p: Places, fan: set<Row>, paths: nat, reachable: TargetReachability)
    requires IsExample(p, fan, reachable)
    ensures Quiet(FrontAt(Ways(p) + fan, Asked(p, paths), reachable, 0), {Open(p.s, {})},
                  {Open(p.s, {})}, {}, 0, 0)
    ensures Quiet(FrontAt(Ways(p) + fan, Asked(p, paths), reachable, 1),
                  {Open(p.e, {}), Open(p.a, {})},
                  {Open(p.s, {})} + {Open(p.e, {}), Open(p.a, {})},
                  {Edge(p.s, p.e), Edge(p.s, p.a)}, 2, 2)
  {
    NewStates(p, fan, reachable);
    var all, query := Ways(p) + fan, Asked(p, paths);
    FirstHop(p, fan, paths, reachable);
    var f := FrontAt(all, query, reachable, 0);
    ZeroFront(p, fan, paths, reachable);
    assert MoveCost(2, 1) == 2;
    assert {} + {Edge(p.s, p.e), Edge(p.s, p.a)} == {Edge(p.s, p.e), Edge(p.s, p.a)};
    OpenAreNoBoundaries(all, query, f.states);
    HopFrom(all, query, reachable, 0, f, {Open(p.s, {})}, {Open(p.s, {})}, {}, 0, 0,
            {Edge(p.s, p.e), Edge(p.s, p.a)}, {Open(p.e, {}), Open(p.a, {})});
  }

  function Seen(p: Places): set<State> {
    {Open(p.s, {})} + {Open(p.e, {}), Open(p.a, {})}
  }

  lemma SecondFront(p: Places, fan: set<Row>, paths: nat, reachable: TargetReachability)
    requires IsExample(p, fan, reachable)
    ensures Quiet(FrontAt(Ways(p) + fan, Asked(p, paths), reachable, 2),
                  {Open(p.f, {"y"}), Open(p.b, {"x"})},
                  Seen(p) + ({Open(p.f, {"y"})} + {Open(p.b, {"x"})}),
                  {Edge(p.s, p.e), Edge(p.s, p.a)} + ({Edge(p.e, p.f)} + {Edge(p.a, p.b)}), 4, 6)
  {
    NewStates(p, fan, reachable);
    var all, query := Ways(p) + fan, Asked(p, paths);
    FirstFronts(p, fan, paths, reachable);
    SecondHop(p, fan, paths, reachable);
    var f := FrontAt(all, query, reachable, 1);
    assert MoveCost(2, 2) == 4;
    Pair(Edge(p.e, p.f), Edge(p.a, p.b));
    Pair(Open(p.f, {"y"}), Open(p.b, {"x"}));
    Pair(Open(p.e, {}), Open(p.a, {}));
    OpenAreNoBoundaries(all, query, f.states);
    HopFrom(all, query, reachable, 1, f, f.states, f.visited, Elements(f.rows), 2, 2,
            {Edge(p.e, p.f)} + {Edge(p.a, p.b)}, {Open(p.f, {"y"})} + {Open(p.b, {"x"})});
  }

  lemma Pair<T>(a: T, b: T)
    ensures {a} + {b} == {a, b} && (a != b ==> |{a, b}| == 2)
  {
    assert {a, b} - {a} == if a == b then {} else {b};
  }

  lemma Three<T>(a: T, b: T, c: T)
    ensures a != b && a != c && b != c ==> |{a} + {b, c}| == 3
  {
    Pair(b, c);
    assert a != b && a != c ==> ({a} + {b, c}) - {a} == {b, c};
  }

  /** In front of the fourth hop `b` and `h` are completed, `e` is open in a second state, and `f`
      stands in none of the states. */
  ghost predicate IsCutFront(p: Places, f: Front) {
    && f.states == {Done(p.b, "x")} + {Open(p.e, {"x"}), Done(p.h, "y")}
    && f.boundaries == {} && f.found
    && Elements(f.rows) == Taken(p) && |f.rows| == 7 && f.cost == 12
  }

  lemma ThirdFront(p: Places, fan: set<Row>, paths: nat, reachable: TargetReachability)
    requires IsExample(p, fan, reachable)
    ensures IsCutFront(p, FrontAt(Ways(p) + fan, Asked(p, paths), reachable, 3))
  {
    NewStates(p, fan, reachable);
    var all, query := Ways(p) + fan, Asked(p, paths);
    SecondFront(p, fan, paths, reachable);
    ThirdHop(p, fan, paths, reachable);
    var f := FrontAt(all, query, reachable, 2);
    var taken := {Edge(p.f, p.b)} + {Edge(p.b, p.e), Edge(p.b, p.h)};
    var moves := {Done(p.b, "x")} + {Open(p.e, {"x"}), Done(p.h, "y")};
    Three(Edge(p.f, p.b), Edge(p.b, p.e), Edge(p.b, p.h));
    assert MoveCost(3, 2) == 6;
    Pair(Open(p.f, {"y"}), Open(p.b, {"x"}));
    OpenAreNoBoundaries(all, query, f.states);
    HopFrom(all, query, reachable, 2, f, f.states, f.visited, Elements(f.rows), 4, 6, taken, moves);
    CompletesAtB(p, all, query, reachable, f.states, taken, moves);
  }

  lemma CompletesAtB(p: Places, all: set<Row>, query: Query, reachable: TargetReachability,
                     states: set<State>, taken: set<Row>, moves: set<State>)
    requires Takes(all, query, reachable, states, taken, moves) && Done(p.b, "x") in moves
    requires forall s :: s in states ==> !Completed(s)
    ensures Completes(query, reachable, states, taken)
  {
    HoldingIs(IsTaken(all, query, reachable, states, taken, moves));
    var r, s :| r in taken && s in states && Moves(query, reachable, s, r)
                && MoveOf(query, reachable, s, r) == Done(p.b, "x");
    assert MoveCompletes(query, reachable, s, r);
  }

  lemma HopGrows(all: set<Row>, query: Query, reachable: TargetReachability, hops: nat, f: Front,
                 some: set<Row>, e: Entity)
    requires f == FrontAt(all, query, reachable, hops)
    requires some <= ForwardRows(all, query, reachable, f.states)
    requires e !in f.boundaries && e !in Entities(f.states)
    ensures |FrontAt(all, query, reachable, hops + 1).rows| >= |f.rows| + |some|
    ensures e !in FrontAt(all, query, reachable, hops + 1).boundaries
  {
    FollowsIsHop(all, query, reachable, f, NextFront(all, query, reachable, f));
    NotMore(some, ForwardRows(all, query, reachable, f.states));
  }

  lemma EntitiesOfCut(p: Places, f: Front)
    requires IsCutFront(p, f)
    ensures Entities(f.states) == {p.b, p.e, p.h}
  {
    assert Done(p.b, "x") in f.states && Open(p.e, {"x"}) in f.states && Done(p.h, "y") in f.states;
  }

  /** The fourth hop takes the whole fan. */
  lemma FourthFront(p: Places, fan: set<Row>, paths: nat, reachable: TargetReachability)
    requires IsExample(p, fan, reachable)
    ensures |FrontAt(Ways(p) + fan, Asked(p, paths), reachable, 4).rows| >= 7 + |fan|
    ensures p.f !in FrontAt(Ways(p) + fan, Asked(p, paths), reachable, 4).boundaries
  {
    var all, query := Ways(p) + fan, Asked(p, paths);
    NewStates(p, fan, reachable);
    ThirdFront(p, fan, paths, reachable);
    var f := FrontAt(all, query, reachable, 3);
    EntitiesOfCut(p, f);
    FanIsTaken(p, fan, query, reachable, f.states);
    HopGrows(all, query, reachable, 3, f, fan, p.f);
  }

  lemma FanIsTaken(p: Places, fan: set<Row>, query: Query, reachable: TargetReachability,
                   states: set<State>)
    requires IsExample(p, fan, reachable)
    requires query.direction.Outgoing? && Done(p.h, "y") in states
    ensures fan <= ForwardRows(Ways(p) + fan, query, reachable, states)
  {
    HoldingIs(IsGiven(p, fan, reachable));
    forall r | r in fan
      ensures r in ForwardRows(Ways(p) + fan, query, reachable, states)
    {
      assert Candidate(query.direction, Done(p.h, "y"), r) && Allowed(query, reachable, Done(p.h, "y"), r);
    }
  }

  // ---- the false leaf -----------------------------------------------------------------------------------

  lemma FitsBefore(p: Places, fan: set<Row>, paths: nat, reachable: TargetReachability, budget: nat,
                   i: nat)
    requires IsExample(p, fan, reachable) && budget >= 7 && i <= 3
    ensures var f := FrontAt(Ways(p) + fan, Asked(p, paths), reachable, i);
            Fits(f, budget) && !IsOver(Asked(p, paths), f, i)
  {
    var f := FrontAt(Ways(p) + fan, Asked(p, paths), reachable, i);
    if i < 2 {
      FirstFronts(p, fan, paths, reachable);
      assert (if i == 0 then Open(p.s, {}) else Open(p.e, {})) in f.states;
    } else if i == 2 {
      SecondFront(p, fan, paths, reachable);
      assert Open(p.f, {"y"}) in f.states;
    } else {
      ThirdFront(p, fan, paths, reachable);
      assert Done(p.b, "x") in f.states;
    }
  }

  /** The forward search of the example is cut in front of the fourth hop, whatever the reverse
      search left of the row budget. */
  lemma IsCut(p: Places, fan: set<Row>, paths: nat, reachable: TargetReachability, budget: nat,
              hops: nat)
    requires IsExample(p, fan, reachable) && |fan| > MAX_TRAVERSAL_ROWS
    requires 7 <= budget <= MAX_TRAVERSAL_ROWS
    ensures Ran(Ways(p) + fan, Asked(p, paths), reachable, budget, hops) <==> hops == 3
  {
    var all, query := Ways(p) + fan, Asked(p, paths);
    forall i: nat | i <= 3
      ensures Fits(FrontAt(all, query, reachable, i), budget)
      ensures !IsOver(query, FrontAt(all, query, reachable, i), i)
    {
      FitsBefore(p, fan, paths, reachable, budget, i);
    }
    FourthFront(p, fan, paths, reachable);
    assert !Fits(FrontAt(all, query, reachable, 4), budget);
  }

  function Nodes(p: Places): seq<Entity> {
    [p.s, p.a, p.b, p.e, p.f]
  }

  function Keys4(p: Places): seq<EdgeKey> {
    [Edge(p.s, p.a).Key(), Edge(p.a, p.b).Key(), Edge(p.b, p.e).Key(), Edge(p.e, p.f).Key()]
  }

  /** How the targets are entered along the path. */
  lemma Progresses(p: Places)
    requires Placed(p)
    ensures var nodes := Nodes(p);
            && RepositoryState(nodes[..1], TARGETS) == Progress({}, None)
            && RepositoryState(nodes[..2], TARGETS) == Progress({}, None)
            && RepositoryState(nodes[..3], TARGETS) == Progress({"x"}, None)
            && RepositoryState(nodes[..4], TARGETS) == Progress({"x"}, None)
            && RepositoryState(nodes, TARGETS) == Progress(TARGETS, Some("y"))
  {
    var nodes := Nodes(p);
    var query := Asked(p, 0);
    assert nodes[..1] == [p.s] && nodes[..5] == nodes;
    StateStarts(query);
    StateSteps(query, nodes, 1);
    StateSteps(query, nodes, 2);
    StateSteps(query, nodes, 3);
    StateSteps(query, nodes, 4);
    Advances(p);
  }

  lemma Advances(p: Places)
    requires Placed(p)
    ensures Advance(Progress({}, None), p.s, TARGETS) == Progress({}, None)
    ensures Advance(Progress({}, None), p.a, TARGETS) == Progress({}, None)
    ensures Advance(Progress({}, None), p.b, TARGETS) == Progress({"x"}, None)
    ensures Advance(Progress({"x"}, None), p.e, TARGETS) == Progress({"x"}, None)
    ensures Advance(Progress({"x"}, None), p.f, TARGETS) == Progress(TARGETS, Some("y"))
  {
    assert {} + {"x"} == {"x"} && {"x"} + {"y"} == TARGETS;
    assert "y" in TARGETS && "y" !in {"x"};
  }

  /** A search over the rows of the cut acquisition. */
  ghost predicate CutSearch(p: Places, paths: nat, env: Env) {
    && env.query == Asked(p, paths) && Holds(env, Keys(Taken(p)))
    && env.incomplete == {p.b, p.e, p.h} && p.f !in env.boundaries
  }

  lemma OpenLeg(env: Env, nodes: seq<Entity>, edges: seq<EdgeKey>, i: nat)
    requires |nodes| == |edges| + 1 && i < |edges| && env.query.destination.None?
    requires Step(nodes[i + 1], edges[i]) in Out(env, nodes[i]) && nodes[i + 1] !in nodes[..i + 1]
    requires RepositoryState(nodes[..i + 1], env.query.targets).completion.None?
    requires env.query.targets <= Reachable(env, nodes[i + 1])
    ensures Leg(env, nodes, edges, i)
  {
  }

  lemma KeyOut(env: Env, rows: set<Row>, r: Row)
    requires Holds(env, Keys(rows)) && r in rows && env.query.direction.Outgoing?
    ensures Step(r.to, r.Key()) in Out(env, r.from)
  {
    assert r.Key() in Keys(rows);
  }

  lemma WalkToF(p: Places, fan: set<Row>, paths: nat, env: Env)
    requires IsExample(p, fan, env.reachable) && CutSearch(p, paths, env)
    ensures IsWalk(env, Nodes(p), Keys4(p))
  {
    var nodes, edges := Nodes(p), Keys4(p);
    Apart(p, fan, env.reachable);
    Progresses(p);
    KeyOut(env, Taken(p), Edge(p.s, p.a));
    KeyOut(env, Taken(p), Edge(p.a, p.b));
    KeyOut(env, Taken(p), Edge(p.b, p.e));
    KeyOut(env, Taken(p), Edge(p.e, p.f));
    forall i | 0 <= i < |edges|
      ensures Leg(env, nodes, edges, i)
    {
      OpenLeg(env, nodes, edges, i);
    }
  }

  lemma Apart(p: Places, fan: set<Row>, reachable: TargetReachability)
    requires IsExample(p, fan, reachable)
    ensures Placed(p)
    ensures forall i, j :: 0 <= i < j < 5 ==> Nodes(p)[i] != Nodes(p)[j]
    ensures forall i :: 0 <= i < 5 ==> TARGETS <= ReachableTargets(reachable, Nodes(p)[i])
  {
    HoldingIs(IsGiven(p, fan, reachable));
  }

  lemma NothingFollows(p: Places, fan: set<Row>, paths: nat, env: Env)
    requires IsExample(p, fan, env.reachable) && CutSearch(p, paths, env)
    ensures Neighbours(env, Nodes(p)) == []
  {
    HoldingIs(IsGiven(p, fan, env.reachable));
    Progresses(p);
    forall step
      ensures step !in Neighbours(env, Nodes(p))
    {
      if step in Out(env, p.f) {
        assert step.edge in Keys(Taken(p));
        assert step.to == p.b;
      }
    }
    HasFirst(Neighbours(env, Nodes(p)));
  }

  lemma LeavesF(p: Places, fan: set<Row>, paths: nat)
    requires Placed(p)
    ensures LeavesRepository(Ways(p) + fan, Asked(p, paths), p.f)
  {
    var r := Edge(p.f, p.b);
    assert r in Ways(p) + fan;
    assert TargetPrefix("y")[7] == 'y' && TargetPrefix("x")[7] == 'x';
    assert p.b[7] == 'x';
  }

  /** A completed walk with no neighbour ends in a leaf. */
  lemma EndsInLeaf(env: Env, nodes: seq<Entity>, edges: seq<EdgeKey>)
    requires IsWalk(env, nodes, edges) && env.query.destination.None?
    requires RepositoryState(nodes, env.query.targets).completion.Some?
    requires IsRepositoryOwned(Last(nodes)) && Neighbours(env, nodes) == []
    requires Last(nodes) !in env.boundaries && Last(nodes) !in env.incomplete
    ensures Emits(env, Path(nodes, edges, Leaf))
  {
  }

  /** A completed walk to a boundary ends there and is no leaf. */
  lemma EndsInBoundary(env: Env, nodes: seq<Entity>, edges: seq<EdgeKey>)
    requires IsWalk(env, nodes, edges) && env.query.destination.None?
    requires IsRepositoryOwned(Last(nodes)) && EmitsBoundary(env, nodes)
    ensures Emits(env, Path(nodes, edges, RepositoryBoundary))
    ensures !Emits(env, Path(nodes, edges, Leaf))
  {
  }

  lemma CompletesAtF(p: Places)
    requires Placed(p)
    ensures Last(Nodes(p)) == p.f && RepositoryState(Nodes(p), TARGETS).completion.Some?
  {
    Progresses(p);
  }

  lemma LeafIsEmitted(p: Places, fan: set<Row>, paths: nat, env: Env)
    requires IsExample(p, fan, env.reachable) && CutSearch(p, paths, env)
    ensures Emits(env, Path(Nodes(p), Keys4(p), Leaf))
  {
    Apart(p, fan, env.reachable);
    WalkToF(p, fan, paths, env);
    NothingFollows(p, fan, paths, env);
    CompletesAtF(p);
    EndsInLeaf(env, Nodes(p), Keys4(p));
  }

  lemma LeafIsNotNaive(p: Places, fan: set<Row>, paths: nat, naive: Env)
    requires Placed(p) && NaiveSearch(Ways(p) + fan, Asked(p, paths), naive)
    requires IsWalk(naive, Nodes(p), Keys4(p))
    ensures !Emits(naive, Path(Nodes(p), Keys4(p), Leaf))
    ensures Emits(naive, Path(Nodes(p), Keys4(p), RepositoryBoundary))
  {
    LeavesF(p, fan, paths);
    CompletesAtF(p);
    EndsInBoundary(naive, Nodes(p), Keys4(p));
  }

  /** The naive search goes on from `f` to the contract. */
  lemma NaiveGoesOn(p: Places, fan: set<Row>, paths: nat, naive: Env)
    requires Placed(p) && NaiveSearch(Ways(p) + fan, Asked(p, paths), naive)
    requires IsWalk(naive, Nodes(p), Keys4(p))
    ensures Emits(naive, Path(Nodes(p) + [p.c], Keys4(p) + [Edge(p.f, p.c).Key()],
                              RepositoryBoundary))
  {
    CompletesAtF(p);
    ContractIsNext(p, fan, paths, naive);
    GoesToContract(naive, Nodes(p), Keys4(p), Step(p.c, Edge(p.f, p.c).Key()));
  }

  lemma ContractIsNext(p: Places, fan: set<Row>, paths: nat, naive: Env)
    requires Placed(p) && NaiveSearch(Ways(p) + fan, Asked(p, paths), naive)
    ensures Step(p.c, Edge(p.f, p.c).Key()) in Out(naive, p.f)
  {
    TakenWays(p);
    KeyOut(naive, Ways(p) + fan, Edge(p.f, p.c));
  }

  /** A completed walk that can step to an entity of no repository ends there in a boundary. */
  lemma GoesToContract(naive: Env, nodes: seq<Entity>, edges: seq<EdgeKey>, step: Step)
    requires IsWalk(naive, nodes, edges) && |edges| < naive.query.maxHops
    requires naive.query.destination.None? && naive.incomplete == {}
    requires RepositoryState(nodes, naive.query.targets).completion.Some?
    requires IsRepositoryOwned(Last(nodes)) && !IsRepositoryOwned(step.to) && step.to !in nodes
    requires step in Out(naive, Last(nodes))
    ensures Emits(naive, Path(nodes + [step.to], edges + [step.edge], RepositoryBoundary))
  {
    assert step in Neighbours(naive, nodes);
    WalkGrows(naive, nodes, edges, step);
    OwnersOwn(step.to, naive.query.targets);
    assert (nodes + [step.to])[..|nodes|] == nodes;
  }

  lemma FrontIsCutSearch(p: Places, fan: set<Row>, paths: nat, reachable: TargetReachability,
                         rows: seq<Row>, incomplete: set<Entity>, boundaries: set<Entity>, env: Env)
    requires IsExample(p, fan, reachable)
    requires Returns(Ways(p) + fan, Asked(p, paths), reachable, 3, rows, incomplete, boundaries, true)
             || !FrontAt(Ways(p) + fan, Asked(p, paths), reachable, 3).found
    requires env.query == Asked(p, paths) && Holds(env, Keys(Elements(rows)))
    requires env.incomplete == incomplete && env.boundaries == boundaries
    ensures CutSearch(p, paths, env) && Edge(p.f, p.c) !in rows
  {
    ExampleTakes(p, fan, reachable);
    assert Edge(p.f, p.c) in rows ==> Edge(p.f, p.c) in Elements(rows);
    ThirdFront(p, fan, paths, reachable);
    EntitiesOfCut(p, FrontAt(Ways(p) + fan, Asked(p, paths), reachable, 3));
    FourthFront(p, fan, paths, reachable);
    FitsBefore(p, fan, paths, reachable, 7, 3);
  }

  /** The path to `f` is reported as a leaf although an edge of `f` was not acquired: the search of
      the whole graph goes on along it, and reports a repository boundary at `f` before. */
  lemma LeafIsFalse(p: Places, fan: set<Row>, paths: nat, rows: seq<Row>, env: Env)
    requires Placed(p) && IsFan(p, fan) && |fan| > MAX_TRAVERSAL_ROWS
    requires Answers(Ways(p) + fan, Asked(p, paths), rows, env)
    ensures Edge(p.f, p.c) in Ways(p) + fan && Edge(p.f, p.c) !in rows
    ensures Emits(env, Path(Nodes(p), Keys4(p), Leaf))
    ensures var naive := NaiveEnv(Ways(p) + fan, Asked(p, paths));
            && !Emits(naive, Path(Nodes(p), Keys4(p), Leaf))
            && Emits(naive, Path(Nodes(p), Keys4(p), RepositoryBoundary))
            && Emits(naive, Path(Nodes(p) + [p.c], Keys4(p) + [Edge(p.f, p.c).Key()],
                                 RepositoryBoundary))
  {
    var all, query := Ways(p) + fan, Asked(p, paths);
    ReadsLittle(p, fan, paths);
    ForwardRan(p, fan, paths, rows, env);
    var budget, hops :| Forwards(all, query, env.reachable, budget, hops, rows, env.incomplete,
                                 env.boundaries);
    BothReached(p, fan, paths, env.reachable);
    IsCut(p, fan, paths, env.reachable, budget, hops);
    FrontIsCutSearch(p, fan, paths, env.reachable, rows, env.incomplete, env.boundaries, env);
    LeafIsEmitted(p, fan, paths, env);
    var naive := NaiveEnv(all, query);
    PrunedWalkIsNaive(all, query, Elements(rows), env, naive, Nodes(p), Keys4(p));
    LeafIsNotNaive(p, fan, paths, naive);
    NaiveGoesOn(p, fan, paths, naive);
  }

  lemma ForwardRan(p: Places, fan: set<Row>, paths: nat, rows: seq<Row>, env: Env)
    requires Placed(p) && IsFan(p, fan)
    requires ReadLimit(Ways(p) + fan, Asked(p, paths), TARGETS) <= 28
    requires Acquires(Ways(p) + fan, Asked(p, paths), rows, env.incomplete, env.boundaries,
                      env.reachable)
    ensures exists budget, hops :: Forwards(Ways(p) + fan, Asked(p, paths), env.reachable, budget,
                                            hops, rows, env.incomplete, env.boundaries)
  {
    var all, query := Ways(p) + fan, Asked(p, paths);
    if ReachesTargets(all, query, TARGETS, env.reachable) {
      BothReached(p, fan, paths, env.reachable);
      HoldingIs(IsGiven(p, fan, env.reachable));
      assert StartReaches(query, env.reachable);
    }
  }

  // ---- the reverse search reads little of the example ---------------------------------------------------

  lemma NoTarget(id: Entity, target: string)
    requires !IsRepositoryOwned(id)
    ensures !InTarget(id, target)
  {
    assert "repo://" <= TargetPrefix(target);
  }

  lemma StartsInPlaces(p: Places, fan: set<Row>, node: Entity)
    requires IsFan(p, fan) && node !in {p.s, p.a, p.e, p.b, p.f, p.h}
    ensures forall other :: other in Ways(p) + fan ==> other.Key().Source(Outgoing) != node
  {
    assert forall other: Row :: other.Key().Source(Outgoing) == other.from;
  }

  /** No edge to a contract leads anywhere near a target. */
  lemma ContractIsFar(p: Places, fan: set<Row>, r: Row, target: string, depth: nat)
    requires Placed(p) && IsFan(p, fan) && r in fan + {Edge(p.f, p.c)}
    ensures r !in Approach(Ways(p) + fan, Outgoing, target, depth)
  {
    assert r.Key().Target(Outgoing) == r.to;
    NoTarget(r.to, target);
    StartsInPlaces(p, fan, r.to);
    LeadsNowhere(Ways(p) + fan, r.to, target, depth);
  }

  lemma LeadsNowhere(all: set<Row>, node: Entity, target: string, k: nat)
    requires forall r :: r in all ==> r.Key().Source(Outgoing) != node
    ensures !ReachesWithin(all, Outgoing, node, target, k)
  {
  }

  lemma ApproachIsTaken(p: Places, fan: set<Row>, r: Row, target: string, depth: nat)
    requires Placed(p) && IsFan(p, fan) && r in Approach(Ways(p) + fan, Outgoing, target, depth)
    ensures r in Taken(p)
  {
    TakenWays(p);
    if r in fan + {Edge(p.f, p.c)} {
      ContractIsFar(p, fan, r, target, depth);
    }
  }

  lemma ReadsSeven(p: Places, fan: set<Row>, paths: nat, target: string)
    requires Placed(p) && IsFan(p, fan)
    ensures ReadFor(Ways(p) + fan, Asked(p, paths), target) <= 7
  {
    var approach := Approach(Ways(p) + fan, Outgoing, target, 5);
    forall r | r in approach
      ensures r in Taken(p)
    {
      ApproachIsTaken(p, fan, r, target, 5);
    }
    NotMore(approach, Taken(p));
    SevenWays(p);
  }

  lemma ReadsLittle(p: Places, fan: set<Row>, paths: nat)
    requires Placed(p) && IsFan(p, fan)
    ensures ReadLimit(Ways(p) + fan, Asked(p, paths), TARGETS) <= 28
  {
    var all, query := Ways(p) + fan, Asked(p, paths);
    ReadsSeven(p, fan, paths, "x");
    ReadsSeven(p, fan, paths, "y");
    ReadOneMore(all, query, TARGETS, "x");
    assert TARGETS - {"x"} == {"y"} && {"y"} - {"y"} == {};
    ReadOneMore(all, query, {"y"}, "y");
  }

  lemma SevenWays(p: Places)
    ensures |Taken(p)| <= 7
  {
    var listed := [Edge(p.s, p.e), Edge(p.s, p.a), Edge(p.e, p.f), Edge(p.a, p.b), Edge(p.f, p.b),
                   Edge(p.b, p.e), Edge(p.b, p.h)];
    ElementsFewer(listed);
    assert Taken(p) == Elements(listed);
  }

  lemma {:induction false} ElementsFewer(rows: seq<Row>)
    ensures |Elements(rows)| <= |rows|
  {
    if rows != [] {
      ElementsFewer(rows[1..]);
      assert Elements(rows) == {rows[0]} + Elements(rows[1..]);
    } else {
      assert Elements(rows) == {};
    }
  }

  // ---- identifiers and a fan ------------------------------------------------------------------------------

  const PLACES :=
    Places("http://s", "http://a", "http://e", "repo://x/b", "repo://y/f", "repo://y/h", "http://c")

  function Dots(n: nat): (s: string)
    ensures |s| == n && forall i :: 0 <= i < n ==> s[i] == '.'
  {
    if n == 0 then "" else Dots(n - 1) + "."
  }

  function Fan(n: nat): (fan: set<Row>)
    ensures forall r :: r in fan ==> r.from == PLACES.h && r.to == Dots(|r.to|) && 0 < |r.to| <= n
    ensures |fan| == n
  {
    if n == 0 then {} else Fan(n - 1) + {Edge(PLACES.h, Dots(n))}
  }

  lemma Prefixes()
    ensures TargetPrefix("x") == "repo://x/" && TargetPrefix("y") == "repo://y/"
  {
  }

  lemma PlacesArePlaced()
    ensures Placed(PLACES)
  {
    Prefixes();
    var x, y := "repo://x/", "repo://y/";
    assert x <= PLACES.b && y <= PLACES.f && y <= PLACES.h;
    assert x[7] == 'x' && y[7] == 'y' && PLACES.b[7] == 'x' && PLACES.f[7] == PLACES.h[7] == 'y';
    assert PLACES.s[0] == PLACES.a[0] == PLACES.e[0] == 'h' && x[0] == y[0] == 'r';
    assert PLACES.s[7] == 's' && PLACES.a[7] == 'a' && PLACES.e[7] == 'e';
    assert PLACES.f[9] == 'f' && PLACES.h[9] == 'h';
  }

  lemma FanIsFan(n: nat)
    ensures IsFan(PLACES, Fan(n))
  {
    forall r | r in Fan(n)
      ensures !IsRepositoryOwned(r.to) && r.to !in {PLACES.s, PLACES.a, PLACES.e, PLACES.b, PLACES.f, PLACES.h}
    {
      assert r.to[0] == '.';
      assert PLACES.s[0] == PLACES.a[0] == PLACES.e[0] == 'h';
      assert PLACES.b[0] == PLACES.f[0] == PLACES.h[0] == "repo://"[0] == 'r';
    }
  }

  /** There are such identifiers, and a fan beyond the row limit. */
  lemma GraphExists()
    ensures Placed(PLACES) && IsFan(PLACES, Fan(MAX_TRAVERSAL_ROWS + 1))
    ensures |Fan(MAX_TRAVERSAL_ROWS + 1)| > MAX_TRAVERSAL_ROWS
  {
    PlacesArePlaced();
    FanIsFan(MAX_TRAVERSAL_ROWS + 1);
  }

  // ---- the promise holds up to one target -------------------------------------------------------------------

  /** What the reverse search of a target finds. */
  ghost function Found(all: set<Row>, direction: Direction, target: string, depth: nat)
    : set<Entity>
  {
    set n | n in EdgeEnds(all, direction)
            && (InTarget(n, target) || ReachesWithin(all, direction, n, target, depth))
  }

  lemma FoundIsReachSet(all: set<Row>, direction: Direction, target: string, depth: nat)
    ensures ReachSet(all, direction, target, depth, Found(all, direction, target, depth))
  {
    forall n | ReachesWithin(all, direction, n, target, depth)
      ensures n in EdgeEnds(all, direction)
    {
      ReachesByEdge(all, direction, n, target, depth);
    }
  }

  lemma ReachesByEdge(all: set<Row>, direction: Direction, node: Entity, target: string, k: nat)
    requires ReachesWithin(all, direction, node, target, k)
    ensures node in EdgeEnds(all, direction)
  {
    var r :| Leads(all, direction, node, target, k, r);
  }

  ghost function FoundTargets(all: set<Row>, query: Query): TargetReachability {
    map n | n in EdgeEnds(all, query.direction) ::
      set t | t in query.targets && n in Found(all, query.direction, t, ReachDepth(query.maxHops))
  }

  lemma FoundReaches(all: set<Row>, query: Query)
    ensures ReachesTargets(all, query, query.targets, FoundTargets(all, query))
  {
    forall t | t in query.targets
      ensures ReachSet(all, query.direction, t, ReachDepth(query.maxHops),
                       ReachingSet(FoundTargets(all, query), t))
    {
      FoundIsReachSet(all, query.direction, t, ReachDepth(query.maxHops));
      assert ReachingSet(FoundTargets(all, query), t)
          == Found(all, query.direction, t, ReachDepth(query.maxHops));
    }
  }

  /** The graph has an acquisition, which is cut. */
  lemma CutHappens(p: Places, fan: set<Row>, paths: nat) returns (rows: seq<Row>, env: Env)
    requires Placed(p) && IsFan(p, fan) && |fan| > MAX_TRAVERSAL_ROWS
    ensures Answers(Ways(p) + fan, Asked(p, paths), rows, env)
  {
    var all, query := Ways(p) + fan, Asked(p, paths);
    var reachable := FoundTargets(all, query);
    FoundReaches(all, query);
    BothReached(p, fan, paths, reachable);
    rows, env := CutOf(p, fan, paths, reachable);
  }

  lemma CutOf(p: Places, fan: set<Row>, paths: nat, reachable: TargetReachability)
    returns (rows: seq<Row>, env: Env)
    requires IsExample(p, fan, reachable) && |fan| > MAX_TRAVERSAL_ROWS
    requires ReachesTargets(Ways(p) + fan, Asked(p, paths), TARGETS, reachable)
    ensures Answers(Ways(p) + fan, Asked(p, paths), rows, env)
  {
    var all, query := Ways(p) + fan, Asked(p, paths);
    var f := FrontAt(all, query, reachable, 3);
    ExampleTakes(p, fan, reachable);
    ThirdFront(p, fan, paths, reachable);
    EntitiesOfCut(p, f);
    FitsBefore(p, fan, paths, reachable, 7, 3);
    IsCut(p, fan, paths, reachable, MAX_TRAVERSAL_ROWS, 3);
    var boundaries := FrontAt(all, query, reachable, 4).boundaries;
    rows := f.rows;
    env := Env(query, Adjacency(Keys(Elements(rows)), Outgoing), Entities(f.states), boundaries,
               reachable);
    AdjacencyHolds(env, Keys(Elements(rows)));
    assert Returns(all, query, reachable, 3, rows, env.incomplete, boundaries, true);
    ForwardIsSound(all, query, reachable, 3, rows, env.incomplete, boundaries, true);
    assert Forwards(all, query, reachable, MAX_TRAVERSAL_ROWS, 3, rows, env.incomplete, boundaries);
  }

  ghost predicate Reports(all: set<Row>, query: Query, rows: seq<Row>, env: Env, path: Path) {
    Answers(all, query, rows, env) && Emits(env, path)
  }

  /** Every path any search for the query reports is one of the naive search, for every graph. */
  ghost predicate AlwaysTrue(query: Query) {
    forall all, rows, env, path {:trigger Reports(all, query, rows, env, path)} ::
      Reports(all, query, rows, env, path) ==> Emits(NaiveEnv(all, query), path)
  }

  predicate LeavesAtMost(query: Query, n: nat) {
    && query.targets != {} && query.destination.None?
    && |query.targets - StartProgress(query).visited| <= n
  }

  /** Whatever is cut, every reported path end is true, as long as no more than one target is left
      to enter; with two left it need not be. */
  lemma TrueUpToOneTarget(n: nat)
    ensures (forall query :: LeavesAtMost(query, n) ==> AlwaysTrue(query)) <==> n <= 1
  {
    if n <= 1 {
      forall query | LeavesAtMost(query, n)
        ensures AlwaysTrue(query)
      {
        OneTargetIsAlwaysTrue(query);
      }
    } else {
      var query := NotAlwaysTrue();
      assert LeavesAtMost(query, n);
    }
  }

  lemma OneTargetIsAlwaysTrue(query: Query)
    requires LeavesAtMost(query, 1)
    ensures AlwaysTrue(query)
  {
    forall all, rows, env, path | Reports(all, query, rows, env, path)
      ensures Emits(NaiveEnv(all, query), path)
    {
      OneTargetIsTrue(all, query, rows, env, path);
    }
  }

  lemma NotTrue(all: set<Row>, query: Query, rows: seq<Row>, env: Env, path: Path)
    requires Reports(all, query, rows, env, path) && !Emits(NaiveEnv(all, query), path)
    ensures !AlwaysTrue(query)
  {
  }

  lemma TwoAreLeft(p: Places, paths: nat)
    ensures LeavesAtMost(Asked(p, paths), 2)
  {
    var query := Asked(p, paths);
    Pair("x", "y");
    NotMore(query.targets - StartProgress(query).visited, query.targets);
  }

  lemma NotAlwaysTrue() returns (query: Query)
    ensures LeavesAtMost(query, 2) && !AlwaysTrue(query)
  {
    GraphExists();
    TwoAreLeft(PLACES, 1);
    query := Asked(PLACES, 1);
    FanDecides(PLACES, Fan(MAX_TRAVERSAL_ROWS + 1), 1);
  }

  lemma FanDecides(p: Places, fan: set<Row>, paths: nat)
    requires Placed(p) && IsFan(p, fan) && |fan| > MAX_TRAVERSAL_ROWS
    ensures !AlwaysTrue(Asked(p, paths))
  {
    var rows, env := CutHappens(p, fan, paths);
    LeafIsFalse(p, fan, paths, rows, env);
    NotTrue(Ways(p) + fan, Asked(p, paths), rows, env, Path(Nodes(p), Keys4(p), Leaf));
  }
}
