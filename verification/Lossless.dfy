/** Pruning by repository reachability loses no path: a search over the rows of a filtered
    acquisition emits what a search of the whole graph without that pruning emits. */
module Lossless {
  import opened Graph
  import opened PathSearch
  import opened Paths
  import opened Acquisition
  import opened Edges
  import opened Reach
  import opened Filtered

  /** An entity of a target repository with an edge into another repository. */
  predicate LeavesRepository(all: set<Row>, query: Query, node: Entity) {
    TargetRepository(node, query.targets).Some? &&
    IsBoundary(all, query, State(node, Progress(query.targets, TargetRepository(node, query.targets))))
  }

  /** The naive search: every edge, nothing incomplete, every target thought reachable. */
  ghost predicate NaiveSearch(all: set<Row>, query: Query, naive: Env) {
    && naive.query == query && naive.incomplete == {} && Holds(naive, Keys(all))
    && (forall r :: r in all ==> query.targets <= Reachable(naive, r.Key().Target(query.direction)))
    && (forall n :: n in naive.boundaries <==> LeavesRepository(all, query, n))
  }

  ghost predicate PrunedSearch(all: set<Row>, query: Query, rows: set<Row>, env: Env) {
    && env.query == query && env.incomplete == {} && rows <= all && Holds(env, Keys(rows))
    && query.targets != {} && query.destination.None?
    && FilteredAcquired(all, query, env.reachable, rows, env.boundaries)
  }

  function StateAt(query: Query, nodes: seq<Entity>): State
    requires nodes != []
  {
    State(Last(nodes), RepositoryState(nodes, query.targets))
  }

  lemma StateSteps(query: Query, nodes: seq<Entity>, i: nat)
    requires 0 < i < |nodes|
    ensures RepositoryState(nodes[..i + 1], query.targets)
         == Advance(RepositoryState(nodes[..i], query.targets), nodes[i], query.targets)
  {
    assert nodes[..i + 1][..i] == nodes[..i];
  }

  lemma StateStarts(query: Query)
    ensures StateAt(query, [query.start]) == State(query.start, StartProgress(query))
  {
    assert [query.start][..0] == [];
    assert RepositoryState([], query.targets) == Progress({}, None);
  }

  // ---- legs are moves ------------------------------------------------------------------------

  /** Following a leg is a move of the state search, unless it ends at a contract. */
  lemma FollowIsMove(query: Query, reachable: TargetReachability, nodes: seq<Entity>, next: Entity)
    requires nodes != [] && Sane(query, StateAt(query, nodes))
    requires var state := RepositoryState(nodes, query.targets);
             var after := Advance(state, next, query.targets);
             && (after.completion.Some? ==> IsRepositoryOwned(next))
             && (state.completion.Some? ==> TargetRepository(next, query.targets) == state.completion)
             && (state.completion.None? ==>
                   query.targets - after.visited <= ReachableTargets(reachable, next))
    ensures NextState(query, reachable, StateAt(query, nodes), next)
         == Some(State(next, Advance(RepositoryState(nodes, query.targets), next, query.targets)))
  {
  }

  /** An expanded state within the hop limit answers for every move and allowed row. */
  lemma SettledState(all: set<Row>, query: Query, reachable: TargetReachability, rows: set<Row>,
                     boundaries: set<Entity>, found: bool, level: map<State, nat>, hops: nat,
                     state: State)
    requires SearchedTo(all, query, reachable, rows, boundaries, found, level, hops)
    requires state in level && level[state] <= query.maxHops
    ensures StateExpanded(all, query, reachable, rows, boundaries, level, state)
    ensures Sane(query, state)
  {
  }

  /** The state after a leg is settled one hop later, unless the leg ends at a contract. */
  lemma LegSettles(all: set<Row>, query: Query, reachable: TargetReachability, rows: set<Row>,
                   boundaries: set<Entity>, found: bool, level: map<State, nat>, hops: nat,
                   nodes: seq<Entity>, i: nat, r: Row)
    requires SearchedTo(all, query, reachable, rows, boundaries, found, level, hops)
    requires 0 < i < |nodes| && i <= query.maxHops
    requires StateAt(query, nodes[..i]) in level && level[StateAt(query, nodes[..i])] < i
    requires r in all && r.Key().Source(query.direction) == nodes[i - 1]
    requires r.Key().Target(query.direction) == nodes[i]
    requires var state := RepositoryState(nodes[..i], query.targets);
             var after := RepositoryState(nodes[..i + 1], query.targets);
             && (after.completion.Some? ==> IsRepositoryOwned(nodes[i]))
             && (state.completion.Some? ==>
                   TargetRepository(nodes[i], query.targets) == state.completion)
             && (state.completion.None? ==>
                   query.targets - after.visited <= ReachableTargets(reachable, nodes[i]))
    ensures StateAt(query, nodes[..i + 1]) in level && level[StateAt(query, nodes[..i + 1])] <= i
    ensures Moves(query, reachable, StateAt(query, nodes[..i]), r)
  {
    var front := nodes[..i];
    var state := StateAt(query, front);
    StateSteps(query, nodes, i);
    SettledState(all, query, reachable, rows, boundaries, found, level, hops, state);
    FollowIsMove(query, reachable, front, nodes[i]);
    assert Moves(query, reachable, state, r);
    assert MoveOf(query, reachable, state, r) == StateAt(query, nodes[..i + 1]);
  }

  // ---- walks of the pruned search --------------------------------------------------------------

  lemma FollowablePruned(env: Env, nodes: seq<Entity>, next: Entity)
    requires nodes != [] && env.query.targets != {} && CanFollow(env, nodes, next)
    ensures var state := RepositoryState(nodes, env.query.targets);
            var after := Advance(state, next, env.query.targets);
            && (state.completion.Some? && IsRepositoryOwned(next) ==>
                  TargetRepository(next, env.query.targets) == state.completion)
            && (state.completion.None? ==>
                  env.query.targets - after.visited <= ReachableTargets(env.reachable, next))
            && (state.completion.Some? ==> after.completion == state.completion)
  {
  }

  /** Every walk over pruned rows stays in states the acquisition settled. */
  lemma {:induction false} PrunedWalkStates(all: set<Row>, query: Query, rows: set<Row>, env: Env,
                                            found: bool, level: map<State, nat>, hops: nat,
                                            nodes: seq<Entity>, edges: seq<EdgeKey>, i: nat)
    requires env.query == query && rows <= all && Holds(env, Keys(rows))
    requires query.targets != {}
    requires SearchedTo(all, query, env.reachable, rows, env.boundaries, found, level, hops)
    requires IsWalk(env, nodes, edges) && i < |nodes| && !AtContract(env, nodes[..i + 1])
    ensures StateAt(query, nodes[..i + 1]) in level && level[StateAt(query, nodes[..i + 1])] <= i
    decreases i
  {
    if i == 0 {
      assert nodes[..1] == [query.start];
      StateStarts(query);
    } else {
      var front := nodes[..i];
      assert Leg(env, nodes, edges, i - 1);
      assert nodes[..i - 1 + 1] == front;
      PrunedWalkStates(all, query, rows, env, found, level, hops, nodes, edges, i - 1);
      StateSteps(query, nodes, i);
      FollowablePruned(env, front, nodes[i]);
      var r := EdgeRow(env, rows, nodes, edges, i - 1);
      LegSettles(all, query, env.reachable, rows, env.boundaries, found, level, hops, nodes, i, r);
    }
  }

  lemma EdgeRow(env: Env, rows: set<Row>, nodes: seq<Entity>, edges: seq<EdgeKey>, i: nat)
    returns (r: Row)
    requires Holds(env, Keys(rows)) && IsWalk(env, nodes, edges) && i < |edges|
    ensures r in rows && r.Key() == edges[i]
    ensures edges[i].Source(env.query.direction) == nodes[i]
    ensures edges[i].Target(env.query.direction) == nodes[i + 1]
  {
    assert Leg(env, nodes, edges, i);
    assert edges[i] in Keys(rows);
    r :| r in rows && r.Key() == edges[i];
  }

  // ---- walks of the naive search that emit -------------------------------------------------------

  /** A walk leads from each of its nodes to each target one of its later nodes lies in. */
  lemma {:induction false} WalkReaches(all: set<Row>, naive: Env, nodes: seq<Entity>,
                                       edges: seq<EdgeKey>, i: nat, j: nat, target: string)
    requires Holds(naive, Keys(all)) && IsWalk(naive, nodes, edges)
    requires i < j < |nodes| && InTarget(nodes[j], target)
    ensures ReachesWithin(all, naive.query.direction, nodes[i], target, j - i)
    decreases j - i
  {
    var r := EdgeRow(naive, all, nodes, edges, i);
    if i + 1 < j {
      WalkReaches(all, naive, nodes, edges, i + 1, j, target);
    }
    assert Leads(all, naive.query.direction, nodes[i], target, j - i, r);
  }

  /** On a path that completes, every target still missing at a node is reachable from it. */
  lemma MissingIsReachable(all: set<Row>, query: Query, reachable: TargetReachability, naive: Env,
                           nodes: seq<Entity>, edges: seq<EdgeKey>, i: nat)
    requires ReachesTargets(all, query, query.targets, reachable)
    requires naive.query == query && Holds(naive, Keys(all)) && IsWalk(naive, nodes, edges)
    requires RepositoryState(nodes, query.targets).completion.Some? && i < |nodes|
    ensures query.targets - RepositoryState(nodes[..i + 1], query.targets).visited
         <= ReachableTargets(reachable, nodes[i])
  {
    var state := RepositoryState(nodes[..i + 1], query.targets);
    forall t | t in query.targets - state.visited
      ensures t in ReachableTargets(reachable, nodes[i])
    {
      var j := LaterEntry(query, nodes, i, t);
      WalkReaches(all, naive, nodes, edges, i, j, t);
      ReachesLonger(all, query.direction, nodes[i], t, j - i, ReachDepth(query.maxHops));
      VisitedIsEntered(nodes[..i + 1], query.targets, t);
      assert nodes[..i + 1][0] == query.start;
      assert nodes[i] in ReachingSet(reachable, t);
    }
  }

  lemma LaterEntry(query: Query, nodes: seq<Entity>, i: nat, t: string) returns (j: nat)
    requires RepositoryState(nodes, query.targets).completion.Some? && i < |nodes|
    requires t in query.targets && t !in RepositoryState(nodes[..i + 1], query.targets).visited
    ensures i < j < |nodes| && TargetRepository(nodes[j], query.targets) == Some(t)
    ensures InTarget(nodes[j], t)
  {
    var k := CompletionPoint(nodes, query.targets);
    assert forall m :: 0 <= m <= i ==> nodes[..i + 1][m] == nodes[m];
    VisitedIsEntered(nodes[..k + 1], query.targets, t);
    j :| 0 <= j < k + 1 && TargetRepository(nodes[..k + 1][j], query.targets) == Some(t);
    VisitedIsEntered(nodes[..i + 1], query.targets, t);
  }

  /** One more node of a completing walk of the naive search. */
  lemma NaiveLeg(all: set<Row>, query: Query, reachable: TargetReachability, rows: set<Row>,
                 boundaries: set<Entity>, found: bool, level: map<State, nat>, hops: nat,
                 naive: Env, nodes: seq<Entity>, edges: seq<EdgeKey>, i: nat)
    requires ReachesTargets(all, query, query.targets, reachable) && query.targets != {}
    requires SearchedTo(all, query, reachable, rows, boundaries, found, level, hops)
    requires naive.query == query && Holds(naive, Keys(all)) && IsWalk(naive, nodes, edges)
    requires RepositoryState(nodes, query.targets).completion.Some?
    requires 0 < i < |nodes| && !AtContract(naive, nodes[..i + 1])
    requires StateAt(query, nodes[..i]) in level && level[StateAt(query, nodes[..i])] < i
    ensures StateAt(query, nodes[..i + 1]) in level && level[StateAt(query, nodes[..i + 1])] <= i
  {
    assert Leg(naive, nodes, edges, i - 1);
    assert nodes[..i - 1 + 1] == nodes[..i];
    StateSteps(query, nodes, i);
    FollowableNaive(naive, nodes[..i], nodes[i]);
    MissingIsReachable(all, query, reachable, naive, nodes, edges, i);
    var r := EdgeRow(naive, all, nodes, edges, i - 1);
    LegSettles(all, query, reachable, rows, boundaries, found, level, hops, nodes, i, r);
  }

  /** A completing walk of the naive search stays in states the acquisition settled. */
  lemma {:induction false} NaiveWalkStates(all: set<Row>, query: Query,
      reachable: TargetReachability, rows: set<Row>, boundaries: set<Entity>, found: bool,
      level: map<State, nat>, hops: nat, naive: Env, nodes: seq<Entity>, edges: seq<EdgeKey>,
      i: nat)
    requires ReachesTargets(all, query, query.targets, reachable) && query.targets != {}
    requires SearchedTo(all, query, reachable, rows, boundaries, found, level, hops)
    requires naive.query == query && Holds(naive, Keys(all)) && IsWalk(naive, nodes, edges)
    requires RepositoryState(nodes, query.targets).completion.Some?
    requires i < |nodes| && !AtContract(naive, nodes[..i + 1])
    ensures StateAt(query, nodes[..i + 1]) in level && level[StateAt(query, nodes[..i + 1])] <= i
    decreases i
  {
    if i == 0 {
      assert nodes[..1] == [query.start];
      StateStarts(query);
    } else {
      assert Leg(naive, nodes, edges, i - 1);
      assert nodes[..i - 1 + 1] == nodes[..i];
      NaiveWalkStates(all, query, reachable, rows, boundaries, found, level, hops, naive,
                      nodes, edges, i - 1);
      NaiveLeg(all, query, reachable, rows, boundaries, found, level, hops, naive, nodes, edges, i);
    }
  }

  lemma FollowableNaive(env: Env, nodes: seq<Entity>, next: Entity)
    requires nodes != [] && env.query.targets != {} && CanFollow(env, nodes, next)
    ensures var state := RepositoryState(nodes, env.query.targets);
            var after := Advance(state, next, env.query.targets);
            && (state.completion.Some? && IsRepositoryOwned(next) ==>
                  TargetRepository(next, env.query.targets) == state.completion)
            && (state.completion.Some? ==> after.completion == state.completion)
  {
  }

  /** Only an entity that a repository owns can complete the targets. */
  lemma CompletedByOwned(query: Query, nodes: seq<Entity>, i: nat)
    requires 0 < i < |nodes| && !IsRepositoryOwned(nodes[i])
    ensures RepositoryState(nodes[..i + 1], query.targets)
         == RepositoryState(nodes[..i], query.targets)
  {
    StateSteps(query, nodes, i);
    OwnersOwn(nodes[i], query.targets);
  }

  lemma OwnersOwn(id: Entity, targets: set<string>)
    ensures TargetRepository(id, targets).Some? ==> IsRepositoryOwned(id)
  {
  }

  /** Each leg of a completing naive walk was acquired. */
  lemma NaiveLegAcquired(all: set<Row>, query: Query, reachable: TargetReachability,
                         rows: set<Row>, boundaries: set<Entity>, found: bool,
                         level: map<State, nat>, hops: nat, naive: Env, nodes: seq<Entity>,
                         edges: seq<EdgeKey>, i: nat)
    requires ReachesTargets(all, query, query.targets, reachable) && query.targets != {}
    requires SearchedTo(all, query, reachable, rows, boundaries, found, level, hops)
    requires naive.query == query && Holds(naive, Keys(all)) && IsWalk(naive, nodes, edges)
    requires RepositoryState(nodes, query.targets).completion.Some? && i < |edges|
    ensures edges[i] in Keys(rows)
  {
    var front := nodes[..i + 1];
    var state := StateAt(query, front);
    assert Leg(naive, nodes, edges, i);
    NaiveWalkStates(all, query, reachable, rows, boundaries, found, level, hops, naive,
                    nodes, edges, i);
    SettledState(all, query, reachable, rows, boundaries, found, level, hops, state);
    var r := EdgeRow(naive, all, nodes, edges, i);
    CandidateIsSource(query.direction, state, r);
    if AtContract(naive, nodes[..i + 2]) {
      CompletedByOwned(query, nodes, i + 1);
      assert Allowed(query, reachable, state, r);
    } else {
      StateSteps(query, nodes, i + 1);
      FollowableNaive(naive, front, nodes[i + 1]);
      MissingIsReachable(all, query, reachable, naive, nodes, edges, i + 1);
      LegSettles(all, query, reachable, rows, boundaries, found, level, hops, nodes, i + 1, r);
      MoveIsAllowed(all, query, reachable, state, r);
    }
    assert r in rows;
  }

  lemma NaiveWalkIsPruned(all: set<Row>, query: Query, rows: set<Row>, env: Env, found: bool,
                          level: map<State, nat>, hops: nat, naive: Env, nodes: seq<Entity>,
                          edges: seq<EdgeKey>)
    requires env.query == query && Holds(env, Keys(rows)) && query.targets != {}
    requires ReachesTargets(all, query, query.targets, env.reachable)
    requires SearchedTo(all, query, env.reachable, rows, env.boundaries, found, level, hops)
    requires NaiveSearch(all, query, naive) && IsWalk(naive, nodes, edges)
    requires RepositoryState(nodes, query.targets).completion.Some?
    ensures IsWalk(env, nodes, edges)
  {
    forall i | 0 <= i < |edges|
      ensures Leg(env, nodes, edges, i)
    {
      assert Leg(naive, nodes, edges, i);
      NaiveLegAcquired(all, query, env.reachable, rows, env.boundaries, found, level, hops, naive,
                       nodes, edges, i);
      MissingIsReachable(all, query, env.reachable, naive, nodes, edges, i + 1);
      StateSteps(query, nodes, i + 1);
    }
  }

  lemma PrunedWalkIsNaive(all: set<Row>, query: Query, rows: set<Row>, env: Env, naive: Env,
                          nodes: seq<Entity>, edges: seq<EdgeKey>)
    requires env.query == query && Holds(env, Keys(rows)) && rows <= all && query.targets != {}
    requires NaiveSearch(all, query, naive) && IsWalk(env, nodes, edges)
    ensures IsWalk(naive, nodes, edges)
  {
    forall i | 0 <= i < |edges|
      ensures Leg(naive, nodes, edges, i)
    {
      assert Leg(env, nodes, edges, i);
      var r := EdgeRow(env, rows, nodes, edges, i);
      assert r in all && edges[i] in Keys(all);
    }
  }

  // ---- path ends ---------------------------------------------------------------------------------

  /** At a settled completed state both searches see the same followable neighbours and the
      same boundary. */
  lemma SameEnd(all: set<Row>, query: Query, rows: set<Row>, env: Env, found: bool,
                level: map<State, nat>, hops: nat, naive: Env, nodes: seq<Entity>)
    requires env.query == query && env.incomplete == {} && Holds(env, Keys(rows)) && rows <= all
    requires query.targets != {} && nodes != []
    requires SearchedTo(all, query, env.reachable, rows, env.boundaries, found, level, hops)
    requires NaiveSearch(all, query, naive)
    requires StateAt(query, nodes) in level && level[StateAt(query, nodes)] <= query.maxHops
    requires Completed(StateAt(query, nodes))
    ensures forall s :: s in Neighbours(env, nodes) <==> s in Neighbours(naive, nodes)
    ensures EmitsBoundary(env, nodes) <==> EmitsBoundary(naive, nodes)
  {
    var state := StateAt(query, nodes);
    SettledState(all, query, env.reachable, rows, env.boundaries, found, level, hops, state);
    forall s
      ensures s in Neighbours(env, nodes) <==> s in Neighbours(naive, nodes)
    {
      assert CanFollow(env, nodes, s.to) <==> CanFollow(naive, nodes, s.to);
      if s in Neighbours(env, nodes) {
        var r :| r in rows && r.Key() == s.edge;
        assert s.edge in Keys(all);
      }
      if s in Neighbours(naive, nodes) {
        assert s.edge in Keys(all);
        var r :| r in all && r.Key() == s.edge;
        CandidateIsSource(query.direction, state, r);
        assert Allowed(query, env.reachable, state, r);
        assert r in rows;
      }
    }
    SameBoundary(all, query, rows, env, found, level, hops, state);
  }

  lemma SameBoundary(all: set<Row>, query: Query, rows: set<Row>, env: Env, found: bool,
                     level: map<State, nat>, hops: nat, state: State)
    requires SearchedTo(all, query, env.reachable, rows, env.boundaries, found, level, hops)
    requires state in level && level[state] <= query.maxHops && Completed(state)
    ensures state.entity in env.boundaries <==> LeavesRepository(all, query, state.entity)
  {
  }

  lemma SameEnds(env: Env, naive: Env, nodes: seq<Entity>, edges: seq<EdgeKey>, t: Termination)
    requires nodes != [] && env.query == naive.query && env.incomplete == naive.incomplete == {}
    requires AtContract(env, nodes) ||
             ((forall s :: s in Neighbours(env, nodes) <==> s in Neighbours(naive, nodes))
              && (EmitsBoundary(env, nodes) <==> EmitsBoundary(naive, nodes)))
    ensures Ends(env, nodes, edges, t) <==> Ends(naive, nodes, edges, t)
  {
    if !AtContract(env, nodes) {
      if Neighbours(env, nodes) != [] {
        assert Neighbours(env, nodes)[0] in Neighbours(naive, nodes);
      }
      if Neighbours(naive, nodes) != [] {
        assert Neighbours(naive, nodes)[0] in Neighbours(env, nodes);
      }
    }
  }

  /** With targets and no destination, only completed paths are emitted. */
  lemma EmittedIsCompleted(env: Env, path: Path)
    requires env.query.targets != {} && env.query.destination.None? && Emits(env, path)
    ensures RepositoryState(path.nodes, env.query.targets).completion.Some?
  {
  }

  // ---- the theorem ---------------------------------------------------------------------------------

  /** The pruned search emits what the naive search emits where the acquisition settled. */
  lemma SettledSearch(all: set<Row>, query: Query, rows: set<Row>, env: Env, found: bool,
                      level: map<State, nat>, hops: nat, naive: Env, path: Path)
    requires env.query == query && env.incomplete == {} && rows <= all && Holds(env, Keys(rows))
    requires query.targets != {} && query.destination.None?
    requires ReachesTargets(all, query, query.targets, env.reachable)
    requires SearchedTo(all, query, env.reachable, rows, env.boundaries, found, level, hops)
    requires NaiveSearch(all, query, naive)
    ensures Emits(env, path) <==> Emits(naive, path)
  {
    var nodes, edges := path.nodes, path.edges;
    if Emits(env, path) {
      EmittedIsCompleted(env, path);
      PrunedWalkIsNaive(all, query, rows, env, naive, nodes, edges);
    }
    if Emits(naive, path) {
      EmittedIsCompleted(naive, path);
      NaiveWalkIsPruned(all, query, rows, env, found, level, hops, naive, nodes, edges);
    }
    if Emits(env, path) || Emits(naive, path) {
      var i := |edges|;
      assert nodes[..i + 1] == nodes;
      if !AtContract(env, nodes) {
        PrunedWalkStates(all, query, rows, env, found, level, hops, nodes, edges, i);
        SameEnd(all, query, rows, env, found, level, hops, naive, nodes);
      }
      SameEnds(env, naive, nodes, edges, path.termination);
    }
  }

  /** A walk that completes reaches a completed state no later than its last owned node. */
  lemma CompletedIsFound(all: set<Row>, query: Query, reachable: TargetReachability,
                         rows: set<Row>, boundaries: set<Entity>, found: bool,
                         level: map<State, nat>, hops: nat, naive: Env, nodes: seq<Entity>,
                         edges: seq<EdgeKey>)
    requires ReachesTargets(all, query, query.targets, reachable) && query.targets != {}
    requires SearchedTo(all, query, reachable, rows, boundaries, found, level, hops)
    requires naive.query == query && Holds(naive, Keys(all)) && IsWalk(naive, nodes, edges)
    requires RepositoryState(nodes, query.targets).completion.Some?
    ensures found
  {
    var k := CompletionPoint(nodes, query.targets);
    OwnersOwn(nodes[k], query.targets);
    NaiveWalkStates(all, query, reachable, rows, boundaries, found, level, hops, naive,
                    nodes, edges, k);
    assert Completed(StateAt(query, nodes[..k + 1]));
  }

  /** Nothing acquired leaves only the start, which completes nothing on its own. */
  lemma EmptySearch(query: Query, env: Env, path: Path)
    requires env.query == query && Holds(env, Keys({}))
    requires query.targets != {} && query.destination.None? && Emits(env, path)
    ensures Completed(State(query.start, StartProgress(query)))
  {
    EmittedIsCompleted(env, path);
    if |path.edges| > 0 {
      var r := EdgeRow(env, {}, path.nodes, path.edges, 0);
    }
    assert path.nodes == [query.start];
    StateStarts(query);
  }

  /** Repository pruning is lossless: with no row or work limit met, a search over the filtered
      acquisition emits exactly the paths, edges and terminations of the naive search. Targets
      may nest, and no bound on the number of paths is assumed. */
  lemma FilteredLossless(all: set<Row>, query: Query, rows: set<Row>, env: Env, naive: Env,
                         path: Path)
    requires PrunedSearch(all, query, rows, env) && NaiveSearch(all, query, naive)
    ensures Emits(env, path) <==> Emits(naive, path)
  {
    if Searched(all, query, env.reachable, rows, env.boundaries, true) {
      var level: map<State, nat>, hops: nat :|
        SearchedTo(all, query, env.reachable, rows, env.boundaries, true, level, hops);
      SettledSearch(all, query, rows, env, true, level, hops, naive, path);
    } else {
      if Emits(env, path) {
        EmptySearch(query, env, path);
        StartCompletes(all, query, env);
      }
      if Emits(naive, path) {
        EmittedIsCompleted(naive, path);
        NothingToFind(all, query, env, naive, path);
      }
    }
  }

  /** A start that completes the targets alone reaches them and is found completed. */
  lemma StartCompletes(all: set<Row>, query: Query, env: Env)
    requires Completed(State(query.start, StartProgress(query)))
    ensures StartReaches(query, env.reachable)
    ensures forall kept, bounds :: !Searched(all, query, env.reachable, kept, bounds, false)
  {
  }

  /** A completing walk contradicts both ways an acquisition can come back empty. */
  lemma NothingToFind(all: set<Row>, query: Query, env: Env, naive: Env, path: Path)
    requires ReachesTargets(all, query, query.targets, env.reachable) && query.targets != {}
    requires NaiveSearch(all, query, naive) && IsWalk(naive, path.nodes, path.edges)
    requires RepositoryState(path.nodes, query.targets).completion.Some?
    ensures StartReaches(query, env.reachable)
    ensures forall kept, bounds :: !Searched(all, query, env.reachable, kept, bounds, false)
  {
    MissingIsReachable(all, query, env.reachable, naive, path.nodes, path.edges, 0);
    assert path.nodes[..1] == [query.start];
    StateStarts(query);
    forall kept, bounds, level: map<State, nat>, hops: nat
      ensures !SearchedTo(all, query, env.reachable, kept, bounds, false, level, hops)
    {
      if SearchedTo(all, query, env.reachable, kept, bounds, false, level, hops) {
        CompletedIsFound(all, query, env.reachable, kept, bounds, false, level, hops, naive,
                         path.nodes, path.edges);
      }
    }
  }

  // ---- the naive search -------------------------------------------------------------------------------

  ghost function NaiveEnv(all: set<Row>, query: Query): (naive: Env)
    ensures NaiveSearch(all, query, naive) && DistinctSteps(naive)
  {
    var targets := set r | r in all :: r.Key().Target(query.direction);
    var sources := set r | r in all :: r.Key().Source(query.direction);
    var naive := Env(query, Adjacency(Keys(all), query.direction), {},
                     set n | n in sources && LeavesRepository(all, query, n),
                     map n | n in targets :: query.targets);
    AdjacencyHolds(naive, Keys(all));
    assert forall n :: LeavesRepository(all, query, n) ==> n in sources by {
      forall n | LeavesRepository(all, query, n)
        ensures n in sources
      {
        LeavesFromSource(all, query, n);
      }
    }
    naive
  }

  lemma LeavesFromSource(all: set<Row>, query: Query, node: Entity)
    requires LeavesRepository(all, query, node)
    ensures node in set r | r in all :: r.Key().Source(query.direction)
  {
  }
}
