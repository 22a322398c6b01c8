/** The filtered traversal when a limit may cut its acquisition: which of the reported path ends are
    true, and why they all are when at most one target is left to enter. */
module Cut {
  import opened OnDemand
  import opened Graph
  import opened PathSearch
  import opened Paths
  import opened Acquisition
  import opened Edges
  import opened Traverse
  import opened Reach
  import opened Filtered
  import opened Lossless

  // ---- what a cut leaves of the path ends -----------------------------------------------------------

  lemma BoundaryLeaves(all: set<Row>, query: Query, e: Entity)
    requires IsBoundaryEntity(all, query, e)
    ensures LeavesRepository(all, query, e)
  {
    var s: State :| s.entity == e && Sane(query, s) && IsBoundary(all, query, s);
    assert s.progress == Progress(query.targets, TargetRepository(e, query.targets));
  }

  /** An edge that was not acquired and leads on from the end of a completed path: anywhere from
      a leaf, off the path from a cycle. */
  predicate Overlooked(all: set<Row>, query: Query, acquired: set<EdgeKey>, path: Path,
                       key: EdgeKey)
    requires path.nodes != []
  {
    var next := key.Target(query.direction);
    && key in Keys(all) && key !in acquired && key.Source(query.direction) == Last(path.nodes)
    && (!IsRepositoryOwned(next) || TargetRepository(next, query.targets)
                                    == RepositoryState(path.nodes, query.targets).completion)
    && (path.termination.Leaf? || next !in path.nodes)
  }

  /** A path of a cut acquisition really ends where it says. */
  ghost predicate ReallyEnds(all: set<Row>, query: Query, acquired: set<EdgeKey>, path: Path) {
    path.nodes != [] &&
    (path.termination.Leaf? || path.termination.Cycle? ==>
       && !LeavesRepository(all, query, Last(path.nodes))
       && forall key {:trigger Overlooked(all, query, acquired, path, key)} ::
            !Overlooked(all, query, acquired, path, key))
  }

  lemma CompletedFollow(env: Env, naive: Env, nodes: seq<Entity>, next: Entity)
    requires env.query == naive.query && env.query.targets != {}
    requires RepositoryState(nodes, env.query.targets).completion.Some?
    ensures CanFollow(env, nodes, next) <==> CanFollow(naive, nodes, next)
    ensures CanFollow(naive, nodes, next) <==>
              || !IsRepositoryOwned(next)
              || TargetRepository(next, env.query.targets)
                 == RepositoryState(nodes, env.query.targets).completion
  {
  }

  /** Whatever the naive search follows from a completed path was acquired or overlooked. */
  lemma NaiveStep(all: set<Row>, query: Query, rows: set<Row>, env: Env, naive: Env, path: Path,
                  step: Step)
    requires env.query == query && Holds(env, Keys(rows)) && rows <= all && query.targets != {}
    requires NaiveSearch(all, query, naive) && path.nodes != []
    requires RepositoryState(path.nodes, query.targets).completion.Some?
    ensures step in Neighbours(env, path.nodes) ==> step in Neighbours(naive, path.nodes)
    ensures step in Neighbours(naive, path.nodes)
            && (path.termination.Leaf? || step.to !in path.nodes) ==>
              step in Neighbours(env, path.nodes)
              || Overlooked(all, query, Keys(rows), path, step.edge)
    ensures Overlooked(all, query, Keys(rows), path, step.edge)
            && step.to == step.edge.Target(query.direction) ==>
              step in Neighbours(naive, path.nodes)
  {
    CompletedFollow(env, naive, path.nodes, step.to);
  }

  lemma CutEnd(all: set<Row>, query: Query, rows: set<Row>, env: Env, naive: Env, path: Path)
    requires env.query == query && Holds(env, Keys(rows)) && rows <= all
    requires query.targets != {} && query.destination.None?
    requires NaiveSearch(all, query, naive) && Emits(env, path)
    requires path.termination.Leaf? || path.termination.Cycle?
    ensures Emits(naive, path) <==> ReallyEnds(all, query, Keys(rows), path)
  {
    EmittedIsCompleted(env, path);
    PrunedWalkIsNaive(all, query, rows, env, naive, path.nodes, path.edges);
    forall step
      ensures step in Neighbours(env, path.nodes) ==> step in Neighbours(naive, path.nodes)
      ensures step in Neighbours(naive, path.nodes)
              && (path.termination.Leaf? || step.to !in path.nodes) ==>
                step in Neighbours(env, path.nodes)
                || Overlooked(all, query, Keys(rows), path, step.edge)
      ensures Overlooked(all, query, Keys(rows), path, step.edge)
              && step.to == step.edge.Target(query.direction) ==>
                step in Neighbours(naive, path.nodes)
    {
      NaiveStep(all, query, rows, env, naive, path, step);
    }
    forall key
      ensures Overlooked(all, query, Keys(rows), path, key) ==>
                Step(key.Target(query.direction), key) in Neighbours(naive, path.nodes)
    {
      NaiveStep(all, query, rows, env, naive, path, Step(key.Target(query.direction), key));
    }
    HasFirst(Neighbours(naive, path.nodes));
    HasFirst(Neighbours(env, path.nodes));
  }

  lemma HasFirst(steps: seq<Step>)
    ensures steps != [] ==> steps[0] in steps
  {
  }

  /** A search over a cut acquisition reports no boundary and no hop limit that is not there; a
      leaf or a cycle is one exactly if nothing that leads on was left out. */
  lemma CutEnds(all: set<Row>, query: Query, rows: set<Row>, env: Env, naive: Env, path: Path)
    requires env.query == query && Holds(env, Keys(rows)) && rows <= all
    requires query.targets != {} && query.destination.None?
    requires forall e :: e in env.boundaries ==> IsBoundaryEntity(all, query, e)
    requires NaiveSearch(all, query, naive) && Emits(env, path)
    ensures Emits(naive, path) <==> ReallyEnds(all, query, Keys(rows), path)
  {
    var t := path.termination;
    if t.Leaf? || t.Cycle? {
      CutEnd(all, query, rows, env, naive, path);
    } else {
      EmittedIsCompleted(env, path);
      PrunedWalkIsNaive(all, query, rows, env, naive, path.nodes, path.edges);
      if t.MaxHops? {
        var step :| step in Neighbours(env, path.nodes) && step.to !in path.nodes;
        NaiveStep(all, query, rows, env, naive, path, step);
      } else if EmitsBoundary(env, path.nodes) {
        BoundaryLeaves(all, query, Last(path.nodes));
      }
    }
  }

  // ---- states expanded before a cut -----------------------------------------------------------------

  function StartState(query: Query): State {
    State(query.start, StartProgress(query))
  }

  /** The rows the query lets through for the state were taken, its moves made and its boundary
      reported. */
  ghost predicate IsExpanded(all: set<Row>, query: Query, reachable: TargetReachability, f: Front,
                             s: State)
  {
    && (forall r | r in all && Candidate(query.direction, s, r) && Allowed(query, reachable, s, r) ::
          r in f.rows)
    && (forall r | r in all && Moves(query, reachable, s, r) ::
          MoveOf(query, reachable, s, r) in f.visited)
    && (IsBoundary(all, query, s) ==> s.entity in f.boundaries)
  }

  /** The states a front has left behind. */
  function Passed(f: Front): set<State> {
    f.visited - f.states
  }

  ghost predicate IsTakenFor(query: Query, f: Front, r: Row) {
    exists s :: s in Passed(f) && s.entity == r.Key().Source(query.direction)
  }

  ghost predicate Expands(all: set<Row>, query: Query, reachable: TargetReachability, f: Front) {
    && Elements(f.rows) <= all && StartState(query) in f.visited
    && (forall s :: s in f.visited ==> Sane(query, s))
    && (forall s :: s in Passed(f) ==> IsExpanded(all, query, reachable, f, s))
    && (forall r :: r in f.rows ==> IsTakenFor(query, f, r))
  }

  lemma HopPasses(all: set<Row>, query: Query, reachable: TargetReachability, f: Front)
    requires f.states <= f.visited
    ensures var g := Hop(all, query, reachable, f);
            && g.states <= g.visited && Passed(g) == f.visited
  {
  }

  lemma HopExpandsState(all: set<Row>, query: Query, reachable: TargetReachability, f: Front,
                        s: State)
    requires ReachesTargets(all, query, query.targets, reachable)
    requires Sane(query, s) && s in f.states
    ensures IsExpanded(all, query, reachable, Hop(all, query, reachable, f), s)
  {
    var taken := ForwardRows(all, query, reachable, f.states);
    var g := Hop(all, query, reachable, f);
    forall r | r in all && Candidate(query.direction, s, r) && Allowed(query, reachable, s, r)
      ensures r in g.rows
    {
      assert r in taken && r in SortedRows(taken);
    }
    forall r | r in all && Moves(query, reachable, s, r)
      ensures MoveOf(query, reachable, s, r) in g.visited
    {
      MoveIsAllowed(all, query, reachable, s, r);
      assert r in taken;
    }
  }

  lemma HopKeepsExpanded(all: set<Row>, query: Query, reachable: TargetReachability, f: Front,
                         s: State)
    requires IsExpanded(all, query, reachable, f, s)
    ensures IsExpanded(all, query, reachable, Hop(all, query, reachable, f), s)
  {
  }

  lemma HopTakesFor(all: set<Row>, query: Query, reachable: TargetReachability, f: Front, r: Row)
    requires f.states <= f.visited
    requires r in f.rows ==> IsTakenFor(query, f, r)
    requires r in Hop(all, query, reachable, f).rows
    ensures r in all || r in f.rows
    ensures IsTakenFor(query, Hop(all, query, reachable, f), r)
  {
    HopPasses(all, query, reachable, f);
    if r !in f.rows {
      assert r in ForwardRows(all, query, reachable, f.states);
      var s :| s in f.states && Candidate(query.direction, s, r);
      CandidateIsSource(query.direction, s, r);
    }
  }

  lemma HopExpands(all: set<Row>, query: Query, reachable: TargetReachability, f: Front, g: Front)
    requires Follows(all, query, reachable, f, g)
    requires ReachesTargets(all, query, query.targets, reachable)
    requires f.states <= f.visited && Expands(all, query, reachable, f)
    ensures g.states <= g.visited && Expands(all, query, reachable, g)
  {
    FollowsIsHop(all, query, reachable, f, g);
    HopPasses(all, query, reachable, f);
    forall s | s in g.visited
      ensures Sane(query, s)
    {
      if s !in f.visited {
        HopIsSane(all, query, reachable, f, s);
      }
    }
    forall s | s in Passed(g)
      ensures IsExpanded(all, query, reachable, g, s)
    {
      if s in f.states {
        HopExpandsState(all, query, reachable, f, s);
      } else {
        HopKeepsExpanded(all, query, reachable, f, s);
      }
    }
    forall r | r in g.rows
      ensures IsTakenFor(query, g, r) && r in all
    {
      HopTakesFor(all, query, reachable, f, r);
    }
  }

  /** After any number of hops everything that was left behind is expanded, and every acquired row
      leaves something that was. */
  lemma {:induction false} FrontExpands(all: set<Row>, query: Query, reachable: TargetReachability,
                                        hops: nat)
    requires ReachesTargets(all, query, query.targets, reachable)
    ensures var f := FrontAt(all, query, reachable, hops);
            f.states <= f.visited && Expands(all, query, reachable, f)
    decreases hops
  {
    if hops > 0 {
      FrontExpands(all, query, reachable, hops - 1);
      HopExpands(all, query, reachable, FrontAt(all, query, reachable, hops - 1),
                 FrontAt(all, query, reachable, hops));
    }
  }

  /** Where the state a path ends in was expanded, its leaf or cycle is true. */
  lemma ExpandedEnds(all: set<Row>, query: Query, rows: set<Row>, env: Env, path: Path, f: Front)
    requires env.query == query && Holds(env, Keys(rows)) && rows <= all
    requires query.targets != {} && query.destination.None? && Emits(env, path)
    requires Elements(f.rows) <= rows && f.boundaries <= env.boundaries
    requires Sane(query, StateAt(query, path.nodes))
    requires IsExpanded(all, query, env.reachable, f, StateAt(query, path.nodes))
    ensures ReallyEnds(all, query, Keys(rows), path)
  {
    var state := StateAt(query, path.nodes);
    if path.termination.Leaf? || path.termination.Cycle? {
      EmittedIsCompleted(env, path);
      assert state.progress == Progress(query.targets, TargetRepository(state.entity, query.targets));
      forall key
        ensures !Overlooked(all, query, Keys(rows), path, key)
      {
        NotOverlooked(all, query, rows, env.reachable, path, f, key);
      }
    }
  }

  lemma NotOverlooked(all: set<Row>, query: Query, rows: set<Row>, reachable: TargetReachability,
                      path: Path, f: Front, key: EdgeKey)
    requires path.nodes != [] && Elements(f.rows) <= rows
    requires Completed(StateAt(query, path.nodes))
    requires IsExpanded(all, query, reachable, f, StateAt(query, path.nodes))
    ensures !Overlooked(all, query, Keys(rows), path, key)
  {
    if Overlooked(all, query, Keys(rows), path, key) {
      var state := StateAt(query, path.nodes);
      var r :| r in all && r.Key() == key;
      CandidateIsSource(query.direction, state, r);
      assert Allowed(query, reachable, state, r);
    }
  }

  lemma {:induction false} FoundFromStart(all: set<Row>, query: Query, reachable: TargetReachability,
                                          hops: nat)
    requires Completed(StartState(query))
    ensures FrontAt(all, query, reachable, hops).found
    decreases hops
  {
    if hops > 0 {
      FoundFromStart(all, query, reachable, hops - 1);
      NextKeepsFound(all, query, reachable, FrontAt(all, query, reachable, hops - 1),
                     FrontAt(all, query, reachable, hops));
    }
  }

  lemma NextKeepsFound(all: set<Row>, query: Query, reachable: TargetReachability, f: Front, g: Front)
    requires Follows(all, query, reachable, f, g)
    ensures f.found ==> g.found
    ensures f.boundaries <= g.boundaries
  {
    FollowsIsHop(all, query, reachable, f, g);
  }

  /** A search that emits anything searches the rows of its last front. */
  lemma SearchesFront(all: set<Row>, query: Query, budget: nat, hops: nat, rows: seq<Row>, env: Env,
                      path: Path)
    requires query.targets != {} && query.destination.None?
    requires FilteredSearch(all, query, Elements(rows), env) && Emits(env, path)
    requires Forwards(all, query, env.reachable, budget, hops, rows, env.incomplete, env.boundaries)
    ensures var f := FrontAt(all, query, env.reachable, hops);
            && rows == f.rows && f.boundaries <= env.boundaries
            && (env.incomplete == {} || env.incomplete == Entities(f.states))
  {
    var f := FrontAt(all, query, env.reachable, hops);
    if rows == [] && !f.found {
      assert Elements(rows) == {};
      EmptySearch(query, env, path);
      FoundFromStart(all, query, env.reachable, hops);
    }
    NextKeepsFound(all, query, env.reachable, f, FrontAt(all, query, env.reachable, hops + 1));
  }

  /** The guard: a path whose last state was expanded before the cut is one of the naive search. */
  lemma ExpandedBeforeCut(all: set<Row>, query: Query, budget: nat, hops: nat, rows: seq<Row>,
                          env: Env, path: Path)
    requires query.targets != {} && query.destination.None?
    requires FilteredSearch(all, query, Elements(rows), env) && Emits(env, path)
    requires Forwards(all, query, env.reachable, budget, hops, rows, env.incomplete, env.boundaries)
    requires StateAt(query, path.nodes) in Passed(FrontAt(all, query, env.reachable, hops))
    ensures Emits(NaiveEnv(all, query), path)
  {
    SearchesFront(all, query, budget, hops, rows, env, path);
    FrontExpands(all, query, env.reachable, hops);
    ExpandedEnds(all, query, Elements(rows), env, path, FrontAt(all, query, env.reachable, hops));
    CutEnds(all, query, Elements(rows), env, NaiveEnv(all, query), path);
  }

  // ---- at most one target left to enter -----------------------------------------------------------------

  predicate AtMostOneLeft(query: Query) {
    |query.targets - StartProgress(query).visited| <= 1
  }

  /** What a state has entered is what the start and its own entity lie in. */
  predicate IsUsual(query: Query, s: State) {
    s.progress == Advance(StartProgress(query), s.entity, query.targets)
  }

  lemma OneIsAll(query: Query, t: string)
    requires AtMostOneLeft(query) && t in query.targets && t !in StartProgress(query).visited
    ensures StartProgress(query).visited + {t} == query.targets
  {
    var left := query.targets - StartProgress(query).visited;
    assert |left - {t}| == |left| - 1;
    assert left == {t} + (left - {t});
  }

  lemma StartIsUsual(query: Query)
    requires query.targets != {}
    ensures IsUsual(query, StartState(query))
  {
  }

  lemma MoveIsUsual(query: Query, reachable: TargetReachability, s: State, r: Row)
    requires query.targets != {} && AtMostOneLeft(query)
    requires Sane(query, s) && IsUsual(query, s) && Moves(query, reachable, s, r)
    ensures IsUsual(query, MoveOf(query, reachable, s, r))
  {
    var start, next := StartProgress(query), r.Key().Target(query.direction);
    var owner := TargetRepository(s.entity, query.targets);
    if owner.Some? && owner.value !in start.visited {
      OneIsAll(query, owner.value);
    }
    var to := TargetRepository(next, query.targets);
    if to.Some? && to.value !in start.visited {
      OneIsAll(query, to.value);
    }
  }

  lemma {:induction false} FrontIsUsual(all: set<Row>, query: Query, reachable: TargetReachability,
                                        hops: nat)
    requires query.targets != {} && AtMostOneLeft(query)
    requires ReachesTargets(all, query, query.targets, reachable)
    ensures forall s :: s in FrontAt(all, query, reachable, hops).visited ==> IsUsual(query, s)
    decreases hops
  {
    if hops == 0 {
      StartIsUsual(query);
    } else {
      FrontIsUsual(all, query, reachable, hops - 1);
      FrontExpands(all, query, reachable, hops - 1);
      NextIsUsual(all, query, reachable, FrontAt(all, query, reachable, hops - 1),
                  FrontAt(all, query, reachable, hops));
    }
  }

  lemma NextIsUsual(all: set<Row>, query: Query, reachable: TargetReachability, f: Front, g: Front)
    requires query.targets != {} && AtMostOneLeft(query)
    requires Follows(all, query, reachable, f, g) && f.states <= f.visited
    requires forall s :: s in f.visited ==> Sane(query, s) && IsUsual(query, s)
    ensures forall s :: s in g.visited ==> IsUsual(query, s)
  {
    FollowsIsHop(all, query, reachable, f, g);
    forall s | s in g.visited && s !in f.visited
      ensures IsUsual(query, s)
    {
      var r, p :| r in all && p in f.states && Moves(query, reachable, p, r)
                  && MoveOf(query, reachable, p, r) == s;
      MoveIsUsual(query, reachable, p, r);
    }
  }

  /** A front in which every entity has one state. */
  ghost predicate IsSimple(all: set<Row>, query: Query, reachable: TargetReachability, f: Front) {
    && f.states <= f.visited && Expands(all, query, reachable, f)
    && forall s :: s in f.visited ==> IsUsual(query, s)
  }

  ghost predicate HasOneStateEach(all: set<Row>, query: Query, reachable: TargetReachability,
                                  f: Front)
  {
    Holding(IsSimple(all, query, reachable, f))
  }

  lemma FrontIsSimple(all: set<Row>, query: Query, reachable: TargetReachability, hops: nat)
    requires query.targets != {} && AtMostOneLeft(query)
    requires ReachesTargets(all, query, query.targets, reachable)
    ensures HasOneStateEach(all, query, reachable, FrontAt(all, query, reachable, hops))
  {
    FrontExpands(all, query, reachable, hops);
    FrontIsUsual(all, query, reachable, hops);
    HoldingIs(IsSimple(all, query, reachable, FrontAt(all, query, reachable, hops)));
  }

  lemma StartIsVisited(all: set<Row>, query: Query, reachable: TargetReachability, f: Front)
    requires HasOneStateEach(all, query, reachable, f)
    ensures StartState(query) in f.visited
  {
    HoldingIs(IsSimple(all, query, reachable, f));
  }

  /** A row that was acquired was taken for the one state its entity has. */
  lemma OneStatePassed(all: set<Row>, query: Query, reachable: TargetReachability, f: Front,
                       s: State, r: Row)
    requires HasOneStateEach(all, query, reachable, f)
    requires s in f.visited && r in f.rows && r.Key().Source(query.direction) == s.entity
    ensures s in Passed(f)
  {
    HoldingIs(IsSimple(all, query, reachable, f));
    assert IsTakenFor(query, f, r);
    var p :| p in Passed(f) && p.entity == s.entity;
    assert IsUsual(query, p) && IsUsual(query, s);
  }

  /** A walk over the acquired rows stays in states the search has visited. */
  lemma {:induction false} CutWalkStates(all: set<Row>, query: Query, env: Env, f: Front,
                                         nodes: seq<Entity>, edges: seq<EdgeKey>, i: nat)
    requires env.query == query && Holds(env, Keys(Elements(f.rows))) && query.targets != {}
    requires HasOneStateEach(all, query, env.reachable, f)
    requires IsWalk(env, nodes, edges) && i < |nodes| && !AtContract(env, nodes[..i + 1])
    ensures StateAt(query, nodes[..i + 1]) in f.visited
    decreases i
  {
    if i == 0 {
      assert nodes[..1] == [query.start];
      StateStarts(query);
      StartIsVisited(all, query, env.reachable, f);
    } else {
      var front := nodes[..i];
      assert Leg(env, nodes, edges, i - 1);
      assert nodes[..i - 1 + 1] == front;
      CutWalkStates(all, query, env, f, nodes, edges, i - 1);
      var r := EdgeRow(env, Elements(f.rows), nodes, edges, i - 1);
      OneStatePassed(all, query, env.reachable, f, StateAt(query, front), r);
      CutWalkMoves(all, query, env, f, nodes, i, r);
    }
  }

  lemma CutWalkMoves(all: set<Row>, query: Query, env: Env, f: Front, nodes: seq<Entity>, i: nat,
                     r: Row)
    requires env.query == query && query.targets != {} && 0 < i < |nodes|
    requires HasOneStateEach(all, query, env.reachable, f)
    requires StateAt(query, nodes[..i]) in Passed(f) && CanFollow(env, nodes[..i], nodes[i])
    requires !AtContract(env, nodes[..i + 1]) && r in f.rows
    requires r.Key().Source(query.direction) == nodes[i - 1]
    requires r.Key().Target(query.direction) == nodes[i]
    ensures StateAt(query, nodes[..i + 1]) in f.visited
  {
    var front := nodes[..i];
    HoldingIs(IsSimple(all, query, env.reachable, f));
    StateSteps(query, nodes, i);
    FollowablePruned(env, front, nodes[i]);
    FollowIsMove(query, env.reachable, front, nodes[i]);
    assert r in Elements(f.rows);
    assert IsExpanded(all, query, env.reachable, f, StateAt(query, front));
    assert Moves(query, env.reachable, StateAt(query, front), r);
    assert MoveOf(query, env.reachable, StateAt(query, front), r) == StateAt(query, nodes[..i + 1]);
  }

  /** What a filtered acquisition gives the search. */
  ghost predicate Answers(all: set<Row>, query: Query, rows: seq<Row>, env: Env) {
    && FilteredSearch(all, query, Elements(rows), env)
    && Acquires(all, query, rows, env.incomplete, env.boundaries, env.reachable)
  }

  lemma EndIsVisited(all: set<Row>, query: Query, env: Env, f: Front, path: Path)
    requires env.query == query && Holds(env, Keys(Elements(f.rows))) && query.targets != {}
    requires HasOneStateEach(all, query, env.reachable, f)
    requires Emits(env, path) && !AtContract(env, path.nodes)
    ensures StateAt(query, path.nodes) in f.visited
  {
    assert path.nodes[..|path.edges| + 1] == path.nodes;
    CutWalkStates(all, query, env, f, path.nodes, path.edges, |path.edges|);
  }

  /** With one state for each entity, an entity that is not marked incomplete was expanded. */
  lemma OneStateEnds(all: set<Row>, query: Query, budget: nat, hops: nat, rows: seq<Row>, env: Env,
                     path: Path)
    requires query.targets != {} && query.destination.None? && AtMostOneLeft(query)
    requires FilteredSearch(all, query, Elements(rows), env) && Emits(env, path)
    requires Forwards(all, query, env.reachable, budget, hops, rows, env.incomplete, env.boundaries)
    requires env.incomplete != {} && (path.termination.Leaf? || path.termination.Cycle?)
    ensures StateAt(query, path.nodes) in Passed(FrontAt(all, query, env.reachable, hops))
  {
    var f := FrontAt(all, query, env.reachable, hops);
    SearchesFront(all, query, budget, hops, rows, env, path);
    FrontIsSimple(all, query, env.reachable, hops);
    EndIsVisited(all, query, env, f, path);
    assert forall s :: s in f.states ==> s.entity in Entities(f.states);
  }

  /** With at most one target left to enter, every path a search emits is one of the naive search,
      whatever was cut. */
  lemma OneTargetIsTrue(all: set<Row>, query: Query, rows: seq<Row>, env: Env, path: Path)
    requires query.targets != {} && query.destination.None? && AtMostOneLeft(query)
    requires Answers(all, query, rows, env) && Emits(env, path)
    ensures Emits(NaiveEnv(all, query), path)
  {
    var naive := NaiveEnv(all, query);
    if env.incomplete == {} {
      PrunedPathsAreNaive(all, query, Elements(rows), env);
    } else if path.termination.Leaf? || path.termination.Cycle? {
      if budget, hops :| Forwards(all, query, env.reachable, budget, hops, rows, env.incomplete,
                                  env.boundaries) {
        OneStateEnds(all, query, budget, hops, rows, env, path);
        ExpandedBeforeCut(all, query, budget, hops, rows, env, path);
      } else {
        assert env.incomplete == {query.start} && rows == [];
        NothingAcquired(query, env, path);
      }
    } else {
      CutEnds(all, query, Elements(rows), env, naive, path);
    }
  }

  lemma NothingAcquired(query: Query, env: Env, path: Path)
    requires env.query == query && Holds(env, Keys(Elements([]))) && Emits(env, path)
    ensures path.nodes == [query.start]
  {
    if |path.edges| > 0 {
      var r := EdgeRow(env, Elements([]), path.nodes, path.edges, 0);
    }
  }

  // ---- the traversal ----------------------------------------------------------------------------------

  /** Every path is a walk of the whole graph through all the targets, and one the naive search
      emits exactly if it really ends where it says. It does unless the acquisition was cut and
      more than one target was left to enter; with no limit reported the paths are exactly the
      naive search's. The edges keep whole evidence. */
  method TraverseFiltered(all: set<Row>, query: Query)
    returns (edges: map<EdgeKey, EdgeData>, paths: seq<Path>, reasons: set<TruncationReason>,
             workLimited: bool)
    requires query.targets != {} && query.destination.None?
    ensures Distinct(paths) && |paths| <= query.maxPaths
    ensures forall p :: p in paths ==>
              && IsWalk(NaiveEnv(all, query), p.nodes, p.edges)
              && RepositoryState(p.nodes, query.targets).completion.Some?
    ensures forall p :: p in paths ==>
              (Emits(NaiveEnv(all, query), p) <==> ReallyEnds(all, query, edges.Keys, p))
    ensures AcquisitionLimit !in reasons || AtMostOneLeft(query) ==>
              forall p :: p in paths ==> Emits(NaiveEnv(all, query), p)
    ensures AcquisitionLimit !in reasons && !Limited(reasons) ==>
              !workLimited && forall p :: Emits(NaiveEnv(all, query), p) ==> p in paths
    ensures forall key :: key in edges ==>
              && key in Keys(all)
              && edges[key].evidence
                 == (set r | r in all && r.Key() == key :: (r.evidence, r.provenance))
  {
    var env;
    edges, env, workLimited := AcquireFiltered(all, query);
    ghost var rows :| Answers(all, query, rows, env) && edges.Keys == Keys(Elements(rows));
    paths, reasons := Search(env);
    PrunedPathsAreNaive(all, query, Elements(rows), env);
    if AtMostOneLeft(query) {
      forall p | p in paths
        ensures Emits(NaiveEnv(all, query), p)
      {
        OneTargetIsTrue(all, query, rows, env, p);
      }
    }
  }

  /** A search over the rows of a filtered acquisition, cut or not. */
  ghost predicate FilteredSearch(all: set<Row>, query: Query, rows: set<Row>, env: Env) {
    && env.query == query && Holds(env, Keys(rows)) && rows <= all
    && (forall e :: e in env.boundaries ==> IsBoundaryEntity(all, query, e))
    && (env.incomplete == {} ==> FilteredAcquired(all, query, env.reachable, rows, env.boundaries))
  }

  method AcquireFiltered(all: set<Row>, query: Query)
    returns (edges: map<EdgeKey, EdgeData>, env: Env, workLimited: bool)
    ensures DistinctSteps(env)
    ensures env.incomplete == {} ==> !workLimited
    ensures exists rows :: Answers(all, query, rows, env) && edges.Keys == Keys(Elements(rows))
    ensures forall key :: key in edges ==>
              && key in Keys(all)
              && edges[key].evidence
                 == (set r | r in all && r.Key() == key :: (r.evidence, r.provenance))
  {
    var rows, incomplete, boundaries, reachable;
    rows, incomplete, boundaries, reachable, workLimited := FilteredRows(all, query);
    edges := MergeEdges(rows);
    ghost var kept := Elements(rows);
    assert edges.Keys == Keys(kept);
    var adjacent := BuildAdjacency(edges.Keys, query.direction);
    env := Env(query, adjacent, incomplete, boundaries, reachable);
    AdjacencyHolds(env, edges.Keys);
    assert Answers(all, query, rows, env);
    forall key | key in edges
      ensures key in Keys(all)
      ensures edges[key].evidence
           == (set r | r in all && r.Key() == key :: (r.evidence, r.provenance))
    {
      WholeEvidenceMerged(all, rows, key, edges[key]);
    }
  }

  lemma PrunedPathsAreNaive(all: set<Row>, query: Query, rows: set<Row>, env: Env)
    requires FilteredSearch(all, query, rows, env)
    requires query.targets != {} && query.destination.None?
    ensures forall p :: Emits(env, p) ==>
              && IsWalk(NaiveEnv(all, query), p.nodes, p.edges)
              && RepositoryState(p.nodes, query.targets).completion.Some?
    ensures forall p :: Emits(env, p) ==>
              (Emits(NaiveEnv(all, query), p) <==> ReallyEnds(all, query, Keys(rows), p))
    ensures env.incomplete == {} ==>
              forall p :: Emits(env, p) <==> Emits(NaiveEnv(all, query), p)
  {
    var naive := NaiveEnv(all, query);
    forall p | Emits(env, p)
      ensures IsWalk(naive, p.nodes, p.edges)
      ensures RepositoryState(p.nodes, query.targets).completion.Some?
      ensures Emits(naive, p) <==> ReallyEnds(all, query, Keys(rows), p)
    {
      PrunedWalkIsNaive(all, query, rows, env, naive, p.nodes, p.edges);
      EmittedIsCompleted(env, p);
      CutEnds(all, query, rows, env, naive, p);
    }
    if env.incomplete == {} {
      forall p
        ensures Emits(env, p) <==> Emits(naive, p)
      {
        FilteredLossless(all, query, rows, env, naive, p);
      }
    }
  }
}
