/** Acquisition of rows for a search with repository targets: a breadth-first search over
    (entity, targets entered, completing repository) states, pruned by target reachability. */
module Filtered {
  import opened Order
  import opened Graph
  import opened PathSearch
  import opened Acquisition
  import opened Reach

  datatype State = State(entity: Entity, progress: Progress)

  // ---- the forward query -----------------------------------------------------------------

  /** The three candidate rules: the edges a state's entity has in the traversal direction. */
  predicate Candidate(direction: Direction, state: State, r: Row) {
    match direction
    case Outgoing => r.from == state.entity
    case Incoming =>
      || (r.to == state.entity && !r.relation.ImplementedBy?)
      || (r.to == state.entity && r.relation.ImplementedBy? && !("grpc://" <= r.from))
      || (r.from == state.entity && "grpc://" <= r.from && r.relation.ImplementedBy?)
  }

  lemma CandidateIsSource(direction: Direction, state: State, r: Row)
    ensures Candidate(direction, state, r) <==> r.Key().Source(direction) == state.entity
  {
  }

  /** Whether the query lets a candidate through for a state. */
  predicate Allowed(query: Query, reachable: TargetReachability, state: State, r: Row) {
    var next := r.Key().Target(query.direction);
    match state.progress.completion
    case None => query.targets - state.progress.visited <= ReachableTargets(reachable, next)
    case Some(owner) => TargetPrefix(owner) <= next || !IsRepositoryOwned(next)
  }

  /** A completed state with an edge into another repository. */
  predicate IsBoundary(all: set<Row>, query: Query, state: State) {
    state.progress.completion.Some? &&
    exists r :: r in all && Candidate(query.direction, state, r) &&
      IsRepositoryOwned(r.Key().Target(query.direction)) &&
      !(TargetPrefix(state.progress.completion.value) <= r.Key().Target(query.direction))
  }

  function ForwardRows(all: set<Row>, query: Query, reachable: TargetReachability,
                       states: set<State>): set<Row>
  {
    set r | r in all && exists s :: s in states && Candidate(query.direction, s, r) &&
                                    Allowed(query, reachable, s, r)
  }

  function BoundaryEntities(all: set<Row>, query: Query, states: set<State>): set<Entity> {
    set s | s in states && IsBoundary(all, query, s) :: s.entity
  }

  function Entities(states: set<State>): set<Entity> {
    set s | s in states :: s.entity
  }

  lemma {:induction false} EntitiesFewer(states: set<State>, entities: set<Entity>)
    requires entities <= Entities(states)
    ensures |entities| <= |states|
    decreases |states|
  {
    if entities != {} {
      var e :| e in entities;
      var s :| s in states && s.entity == e;
      EntitiesFewer(states - {s}, entities - {e});
    }
  }

  function FirstEntities(entities: set<Entity>, limit: nat): set<Entity> {
    StringLessStrictTotal();
    var listing := Listing(entities, StringLess);
    if |listing| <= limit then entities else set e | e in listing[..limit]
  }

  /** One limited result listing boundary rows before edge rows: its limit leaves room for
      every boundary, so one edge row too many always shows. */
  method FilteredForward(all: set<Row>, query: Query, reachable: TargetReachability,
                         states: set<State>, remaining: nat)
    returns (edges: seq<Row>, boundaries: set<Entity>)
    ensures boundaries == BoundaryEntities(all, query, states)
    ensures |edges| <= remaining ==>
              && Elements(edges) == ForwardRows(all, query, reachable, states)
              && edges == SortedRows(ForwardRows(all, query, reachable, states))
    ensures |edges| > remaining ==> |ForwardRows(all, query, reachable, states)| > remaining
  {
    var limit := remaining + |states| + 1;
    var rows := ForwardRows(all, query, reachable, states);
    var entities := BoundaryEntities(all, query, states);
    EntitiesFewer(states, entities);
    boundaries := FirstEntities(entities, limit);
    edges := Page(rows, limit - |boundaries|);
  }

  // ---- the state transition --------------------------------------------------------------

  /** Where a state goes along an edge to `next`, unless the search turns it down. */
  function NextState(query: Query, reachable: TargetReachability, state: State, next: Entity)
    : Option<State>
  {
    var completed := state.progress.completion;
    if completed.Some? && !IsRepositoryOwned(next) then None
    else if completed.Some? && TargetRepository(next, query.targets) != completed then None
    else
      var progress := if completed.Some? then state.progress
                      else Advance(state.progress, next, query.targets);
      var missing := query.targets - progress.visited;
      if missing != {} && !(missing <= ReachableTargets(reachable, next)) then None
      else Some(State(next, progress))
  }

  predicate Moves(query: Query, reachable: TargetReachability, state: State, r: Row) {
    r.Key().Source(query.direction) == state.entity &&
    NextState(query, reachable, state, r.Key().Target(query.direction)).Some?
  }

  function MoveOf(query: Query, reachable: TargetReachability, state: State, r: Row): State
    requires Moves(query, reachable, state, r)
  {
    NextState(query, reachable, state, r.Key().Target(query.direction)).value
  }

  function RowMoves(query: Query, reachable: TargetReachability, states: set<State>, r: Row)
    : set<State>
  {
    set s | s in states && Moves(query, reachable, s, r) :: MoveOf(query, reachable, s, r)
  }

  function AllMoves(query: Query, reachable: TargetReachability, states: set<State>,
                    rows: set<Row>): set<State>
  {
    set r, s | r in rows && s in states && Moves(query, reachable, s, r)
      :: MoveOf(query, reachable, s, r)
  }

  predicate Completed(state: State) {
    state.progress.completion.Some?
  }

  ghost predicate RowCompletes(query: Query, reachable: TargetReachability, states: set<State>,
                               r: Row)
  {
    exists s :: s in states && MoveCompletes(query, reachable, s, r)
  }

  predicate MoveCompletes(query: Query, reachable: TargetReachability, state: State, r: Row) {
    !Completed(state) && Moves(query, reachable, state, r)
    && Completed(MoveOf(query, reachable, state, r))
  }

  lemma OneMoreState(query: Query, reachable: TargetReachability, states: set<State>,
                     state: State, r: Row)
    ensures RowMoves(query, reachable, states + {state}, r)
         == RowMoves(query, reachable, states, r)
          + Move(query, reachable, state, r)
    ensures RowCompletes(query, reachable, states + {state}, r)
       <==> RowCompletes(query, reachable, states, r) || MoveCompletes(query, reachable, state, r)
  {
  }

  /** Where the states have got to once `done` of them took their moves along one row. */
  ghost predicate RowDone(query: Query, reachable: TargetReachability, done: set<State>, r: Row,
                          visited: set<State>, next: set<State>,
                          visited': set<State>, next': set<State>, completed: bool)
  {
    && visited' == visited + RowMoves(query, reachable, done, r)
    && next' == next + (RowMoves(query, reachable, done, r) - visited)
    && (completed <==> RowCompletes(query, reachable, done, r))
  }

  lemma RowStep(query: Query, reachable: TargetReachability, done: set<State>, r: Row,
                visited: set<State>, next: set<State>, visited1: set<State>, next1: set<State>,
                completed1: bool, state: State)
    requires RowDone(query, reachable, done, r, visited, next, visited1, next1, completed1)
    ensures RowDone(query, reachable, done + {state}, r, visited, next,
                    visited1 + Move(query, reachable, state, r),
                    next1 + (Move(query, reachable, state, r) - visited1),
                    completed1 || MoveCompletes(query, reachable, state, r))
  {
    OneMoreState(query, reachable, done, state, r);
  }

  lemma RowStarts(query: Query, reachable: TargetReachability, r: Row, visited: set<State>,
                  next: set<State>)
    ensures RowDone(query, reachable, {}, r, visited, next, visited, next, false)
  {
  }

  /** All the moves of one row, each paid for with one step. */
  method AdvanceRow(query: Query, reachable: TargetReachability, states: set<State>, r: Row,
                    visited: set<State>, next: set<State>, budget: nat)
    returns (visited': set<State>, next': set<State>, completed: bool, remaining: nat,
             limited: bool)
    ensures !limited ==>
              RowDone(query, reachable, states, r, visited, next, visited', next', completed)
    ensures !limited <==> |states| <= budget
    ensures !limited ==> remaining == budget - |states|
  {
    visited', next', completed, remaining, limited := visited, next, false, budget, false;
    RowStarts(query, reachable, r, visited, next);
    var pending := states;
    ghost var done: set<State> := {};
    while pending != {}
      invariant done + pending == states && done !! pending
      invariant |pending| + budget == remaining + |states|
      invariant RowDone(query, reachable, done, r, visited, next, visited', next', completed)
      decreases |pending|
    {
      var state :| state in pending;
      if remaining == 0 {
        limited := true;
        return;
      }
      remaining := remaining - 1;
      RowStep(query, reachable, done, r, visited, next, visited', next', completed, state);
      pending, done := pending - {state}, done + {state};
      var found;
      visited', next', found := AdvanceState(query, reachable, state, r, visited', next');
      completed := completed || found;
    }
    assert done == states;
  }

  function Move(query: Query, reachable: TargetReachability, state: State, r: Row): set<State> {
    if Moves(query, reachable, state, r) then {MoveOf(query, reachable, state, r)} else {}
  }

  method AdvanceState(query: Query, reachable: TargetReachability, state: State, r: Row,
                      visited: set<State>, next: set<State>)
    returns (visited': set<State>, next': set<State>, completed: bool)
    ensures visited' == visited + Move(query, reachable, state, r)
    ensures next' == next + (Move(query, reachable, state, r) - visited)
    ensures completed <==> MoveCompletes(query, reachable, state, r)
  {
    visited', next', completed := visited, next, false;
    if Moves(query, reachable, state, r) {
      var move := MoveOf(query, reachable, state, r);
      completed := !Completed(state) && Completed(move);
      if move !in visited {
        visited', next' := visited + {move}, next + {move};
      }
    }
  }

  ghost predicate Completes(query: Query, reachable: TargetReachability, states: set<State>,
                            rows: set<Row>)
  {
    exists r, s :: r in rows && s in states && MoveCompletes(query, reachable, s, r)
  }

  /** Where the states have got to once they took their moves along some rows. */
  ghost predicate RowsDone(query: Query, reachable: TargetReachability, states: set<State>,
                           done: set<Row>, visited: set<State>, visited': set<State>,
                           next: set<State>, completed: bool)
  {
    && visited' == visited + AllMoves(query, reachable, states, done)
    && next == AllMoves(query, reachable, states, done) - visited
    && (completed <==> Completes(query, reachable, states, done))
  }

  lemma RowsStart(query: Query, reachable: TargetReachability, states: set<State>,
                  visited: set<State>)
    ensures RowsDone(query, reachable, states, {}, visited, visited, {}, false)
  {
  }

  lemma RowsStep(query: Query, reachable: TargetReachability, states: set<State>, done: set<Row>,
                 visited: set<State>, visited1: set<State>, next1: set<State>, completed1: bool,
                 r: Row, visited2: set<State>, next2: set<State>, found: bool)
    requires RowsDone(query, reachable, states, done, visited, visited1, next1, completed1)
    requires RowDone(query, reachable, states, r, visited1, next1, visited2, next2, found)
    ensures RowsDone(query, reachable, states, done + {r}, visited, visited2, next2,
                     completed1 || found)
  {
    assert AllMoves(query, reachable, states, done + {r})
        == AllMoves(query, reachable, states, done) + RowMoves(query, reachable, states, r);
  }

  method AdvanceStates(query: Query, reachable: TargetReachability, states: set<State>,
                       rows: seq<Row>, visited: set<State>, budget: nat)
    returns (visited': set<State>, next: set<State>, completed: bool, remaining: nat,
             limited: bool)
    ensures !limited ==>
              && visited' == visited + AllMoves(query, reachable, states, Elements(rows))
              && next == AllMoves(query, reachable, states, Elements(rows)) - visited
              && (completed <==> Completes(query, reachable, states, Elements(rows)))
    ensures !limited ==> remaining == budget - MoveCost(|rows|, |states|)
    ensures limited ==> budget < MoveCost(|rows|, |states|)
  {
    visited', next, completed, remaining, limited := visited, {}, false, budget, false;
    RowsStart(query, reachable, states, visited);
    assert Elements(rows[..0]) == {};
    for i := 0 to |rows|
      invariant !limited && remaining == budget - MoveCost(i, |states|)
      invariant RowsDone(query, reachable, states, Elements(rows[..i]), visited, visited', next,
                         completed)
    {
      assert Elements(rows[..i + 1]) == Elements(rows[..i]) + {rows[i]};
      ghost var before, nextBefore := visited', next;
      var found;
      visited', next, found, remaining, limited :=
        AdvanceRow(query, reachable, states, rows[i], visited', next, remaining);
      if limited {
        MoveCostGrows(i + 1, |rows|, |states|);
        return;
      }
      RowsStep(query, reachable, states, Elements(rows[..i]), visited, before, nextBefore, completed,
               rows[i], visited', next, found);
      completed := completed || found;
    }
    assert rows[..|rows|] == rows;
  }

  /** One step for each state and each row. */
  function MoveCost(rows: nat, states: nat): nat {
    if rows == 0 then 0 else MoveCost(rows - 1, states) + states
  }

  lemma {:induction false} MoveCostGrows(rows: nat, more: nat, states: nat)
    requires rows <= more
    ensures MoveCost(rows, states) <= MoveCost(more, states)
    decreases more
  {
    if rows < more {
      MoveCostGrows(rows, more - 1, states);
    }
  }

  // ---- what the acquisition guarantees ----------------------------------------------------

  function StartProgress(query: Query): Progress {
    Advance(Progress({}, None), query.start, query.targets)
  }

  predicate StartReaches(query: Query, reachable: TargetReachability) {
    query.targets - StartProgress(query).visited <= ReachableTargets(reachable, query.start)
  }

  /** A state keeps the start's own target, and completes in the repository it stands in. */
  ghost predicate Sane(query: Query, state: State) {
    && StartProgress(query).visited <= state.progress.visited
    && (Completed(state) ==>
          && state.progress.visited == query.targets
          && TargetRepository(state.entity, query.targets) == state.progress.completion)
  }

  /** Everything the forward query and the transition say about a state is accounted for. */
  ghost predicate StateExpanded(all: set<Row>, query: Query, reachable: TargetReachability,
                                rows: set<Row>, boundaries: set<Entity>,
                                level: map<State, nat>, state: State)
    requires state in level
  {
    && (forall r | r in all && Candidate(query.direction, state, r)
          && Allowed(query, reachable, state, r) :: r in rows)
    && (forall r | r in all && Moves(query, reachable, state, r) ::
          && MoveOf(query, reachable, state, r) in level
          && level[MoveOf(query, reachable, state, r)] <= level[state] + 1)
    && (IsBoundary(all, query, state) ==> state.entity in boundaries)
  }

  /** A state search that has expanded every state nearer than `hops`. */
  ghost predicate StateFrontier(all: set<Row>, query: Query, reachable: TargetReachability,
                                rows: set<Row>, boundaries: set<Entity>, hops: nat,
                                level: map<State, nat>)
  {
    && rows <= all
    && State(query.start, StartProgress(query)) in level
    && level[State(query.start, StartProgress(query))] == 0
    && (forall s :: s in level ==> level[s] <= hops && Sane(query, s))
    && (forall s :: s in level && level[s] < hops ==>
          StateExpanded(all, query, reachable, rows, boundaries, level, s))
    && (forall e :: e in boundaries ==>
          exists s :: s in level && s.entity == e && IsBoundary(all, query, s))
  }

  ghost predicate Found(level: map<State, nat>) {
    exists s :: s in level && Completed(s)
  }

  /** The acquisition has settled every state within the hop limit. */
  ghost predicate Searched(all: set<Row>, query: Query, reachable: TargetReachability,
                           rows: set<Row>, boundaries: set<Entity>, found: bool)
  {
    exists level: map<State, nat>, hops: nat ::
      SearchedTo(all, query, reachable, rows, boundaries, found, level, hops)
  }

  ghost predicate SearchedTo(all: set<Row>, query: Query, reachable: TargetReachability,
                             rows: set<Row>, boundaries: set<Entity>, found: bool,
                             level: map<State, nat>, hops: nat)
  {
    && StateFrontier(all, query, reachable, rows, boundaries, hops, level)
    && (hops > query.maxHops || forall s :: s in level ==> level[s] < hops)
    && (found <==> Found(level))
  }

  /** What is left after an acquisition that met no limit: nothing when the start cannot reach
      every target or no state completes them, else all the states within the hop limit. */
  ghost predicate FilteredAcquired(all: set<Row>, query: Query, reachable: TargetReachability,
                                   rows: set<Row>, boundaries: set<Entity>)
  {
    && ReachesTargets(all, query, query.targets, reachable)
    && (|| (!StartReaches(query, reachable) && rows == {} && boundaries == {})
        || Searched(all, query, reachable, rows, boundaries, true)
        || ((exists kept, bounds :: Searched(all, query, reachable, kept, bounds, false))
            && rows == {} && boundaries == {}))
  }

  function StateRing(level: map<State, nat>, hops: nat): set<State> {
    set s | s in level && level[s] == hops
  }

  ghost function DeeperStates(level: map<State, nat>, next: set<State>, hops: nat)
    : map<State, nat>
  {
    level + map s | s in next :: hops + 1
  }

  /** An edge the transition takes is one the forward query lets through: the query also asks
      that the next entity reach its own target, which the reverse seed grants it. */
  lemma MoveIsAllowed(all: set<Row>, query: Query, reachable: TargetReachability, state: State,
                      r: Row)
    requires ReachesTargets(all, query, query.targets, reachable)
    requires r in all && Sane(query, state) && Moves(query, reachable, state, r)
    ensures Candidate(query.direction, state, r) && Allowed(query, reachable, state, r)
  {
    CandidateIsSource(query.direction, state, r);
    var next := r.Key().Target(query.direction);
    if !Completed(state) {
      var after := Advance(state.progress, next, query.targets);
      forall t | t in query.targets - state.progress.visited
        ensures t in ReachableTargets(reachable, next)
      {
        if TargetRepository(next, query.targets) == Some(t) {
          assert TargetRepository(query.start, query.targets) != Some(t);
          assert ReachSet(all, query.direction, t, ReachDepth(query.maxHops),
                          ReachingSet(reachable, t));
          assert InTarget(next, t);
          assert next in ReachingSet(reachable, t);
        } else {
          assert t in query.targets - after.visited;
        }
      }
    }
  }

  lemma MoveIsSane(query: Query, reachable: TargetReachability, state: State, r: Row)
    requires Sane(query, state) && Moves(query, reachable, state, r)
    ensures Sane(query, MoveOf(query, reachable, state, r))
  {
  }

  /** Expanding a ring of states moves the state search one hop on. */
  lemma StateRingExpanded(all: set<Row>, query: Query, reachable: TargetReachability,
                          rows: set<Row>, boundaries: set<Entity>, hops: nat,
                          level: map<State, nat>, found: set<Row>, next: set<State>)
    requires ReachesTargets(all, query, query.targets, reachable)
    requires StateFrontier(all, query, reachable, rows, boundaries, hops, level)
    requires found == ForwardRows(all, query, reachable, StateRing(level, hops))
    requires next == AllMoves(query, reachable, StateRing(level, hops), found) - level.Keys
    ensures StateFrontier(all, query, reachable, rows + found,
                          boundaries + BoundaryEntities(all, query, StateRing(level, hops)),
                          hops + 1, DeeperStates(level, next, hops))
  {
    var ring := StateRing(level, hops);
    var level' := DeeperStates(level, next, hops);
    var bounds := boundaries + BoundaryEntities(all, query, ring);
    forall s | s in level' && level'[s] < hops + 1
      ensures StateExpanded(all, query, reachable, rows + found, bounds, level', s)
    {
      RingStateExpanded(all, query, reachable, rows, boundaries, hops, level, found, next, s);
    }
    forall s | s in level'
      ensures Sane(query, s)
    {
      RingSane(all, query, reachable, rows, boundaries, hops, level, found, next, s);
    }
    forall e | e in bounds
      ensures exists s :: s in level' && s.entity == e && IsBoundary(all, query, s)
    {
      RingBoundary(all, query, reachable, rows, boundaries, hops, level, e);
      var s :| s in level && s.entity == e && IsBoundary(all, query, s);
      assert s in level';
    }
  }

  lemma RingSane(all: set<Row>, query: Query, reachable: TargetReachability, rows: set<Row>,
                 boundaries: set<Entity>, hops: nat, level: map<State, nat>, found: set<Row>,
                 next: set<State>, s: State)
    requires StateFrontier(all, query, reachable, rows, boundaries, hops, level)
    requires next == AllMoves(query, reachable, StateRing(level, hops), found) - level.Keys
    requires s in level || s in next
    ensures Sane(query, s)
  {
    if s !in level {
      var r, p :| r in found && p in StateRing(level, hops) && Moves(query, reachable, p, r)
                  && MoveOf(query, reachable, p, r) == s;
      MoveIsSane(query, reachable, p, r);
    }
  }

  lemma RingBoundary(all: set<Row>, query: Query, reachable: TargetReachability,
                     rows: set<Row>, boundaries: set<Entity>, hops: nat,
                     level: map<State, nat>, e: Entity)
    requires StateFrontier(all, query, reachable, rows, boundaries, hops, level)
    requires e in boundaries + BoundaryEntities(all, query, StateRing(level, hops))
    ensures exists s :: s in level && s.entity == e && IsBoundary(all, query, s)
  {
    if e !in boundaries {
      var s :| s in StateRing(level, hops) && IsBoundary(all, query, s) && s.entity == e;
      assert s in level;
    }
  }

  lemma RingStateExpanded(all: set<Row>, query: Query, reachable: TargetReachability,
                          rows: set<Row>, boundaries: set<Entity>, hops: nat,
                          level: map<State, nat>, found: set<Row>, next: set<State>, s: State)
    requires ReachesTargets(all, query, query.targets, reachable)
    requires StateFrontier(all, query, reachable, rows, boundaries, hops, level)
    requires found == ForwardRows(all, query, reachable, StateRing(level, hops))
    requires next == AllMoves(query, reachable, StateRing(level, hops), found) - level.Keys
    requires s in level
    ensures StateExpanded(all, query, reachable, rows + found,
                          boundaries + BoundaryEntities(all, query, StateRing(level, hops)),
                          DeeperStates(level, next, hops), s)
  {
    var ring := StateRing(level, hops);
    if level[s] == hops {
      assert s in ring;
      forall r | r in all && Moves(query, reachable, s, r)
        ensures MoveOf(query, reachable, s, r) in level.Keys + next
      {
        MoveIsAllowed(all, query, reachable, s, r);
        assert r in found;
        assert MoveOf(query, reachable, s, r) in AllMoves(query, reachable, ring, found);
      }
    } else {
      assert StateExpanded(all, query, reachable, rows, boundaries, level, s);
    }
  }

  lemma FoundGrows(query: Query, reachable: TargetReachability, hops: nat,
                   level: map<State, nat>, found: set<Row>, next: set<State>)
    requires next == AllMoves(query, reachable, StateRing(level, hops), found) - level.Keys
    ensures Found(DeeperStates(level, next, hops))
       <==> Found(level) || Completes(query, reachable, StateRing(level, hops), found)
  {
    var ring := StateRing(level, hops);
    var level' := DeeperStates(level, next, hops);
    if s :| s in level' && Completed(s) && s !in level {
      var r, p :| r in found && p in ring && Moves(query, reachable, p, r)
                  && MoveOf(query, reachable, p, r) == s;
      assert Completed(p) || MoveCompletes(query, reachable, p, r);
    }
    if Found(level) {
      var s :| s in level && Completed(s);
      assert s in level';
    }
    if Completes(query, reachable, ring, found) {
      var r, p :| r in found && p in ring && MoveCompletes(query, reachable, p, r);
      var s := MoveOf(query, reachable, p, r);
      assert s in AllMoves(query, reachable, ring, found);
      assert s in level';
    }
  }

  // ---- the forward search, hop by hop ----------------------------------------------------------

  /** What the forward search holds between two hops. */
  datatype Front = Front(rows: seq<Row>, boundaries: set<Entity>, states: set<State>,
                         visited: set<State>, found: bool, cost: nat)

  /** One more hop. */
  ghost function Hop(all: set<Row>, query: Query, reachable: TargetReachability, f: Front): Front {
    var taken := ForwardRows(all, query, reachable, f.states);
    var moves := AllMoves(query, reachable, f.states, taken);
    Front(f.rows + SortedRows(taken), f.boundaries + BoundaryEntities(all, query, f.states),
          moves - f.visited, f.visited + moves,
          f.found || Completes(query, reachable, f.states, taken),
          f.cost + MoveCost(|taken|, |f.states|))
  }

  ghost predicate IsHop(all: set<Row>, query: Query, reachable: TargetReachability, f: Front,
                        g: Front)
  {
    g == Hop(all, query, reachable, f)
  }

  /** The hop from `f` leads to `g`; said so that the queries unfold only on demand. */
  ghost predicate Follows(all: set<Row>, query: Query, reachable: TargetReachability, f: Front,
                          g: Front)
  {
    forall h {:trigger IsHop(all, query, reachable, f, h)} :: IsHop(all, query, reachable, f, h) ==> h == g
  }

  lemma FollowsIsHop(all: set<Row>, query: Query, reachable: TargetReachability, f: Front, g: Front)
    ensures Follows(all, query, reachable, f, g) <==> g == Hop(all, query, reachable, f)
  {
    assert IsHop(all, query, reachable, f, Hop(all, query, reachable, f));
  }

  ghost function NextFront(all: set<Row>, query: Query, reachable: TargetReachability, f: Front)
    : (g: Front)
    ensures Follows(all, query, reachable, f, g)
  {
    FollowsIsHop(all, query, reachable, f, Hop(all, query, reachable, f));
    var g :| Follows(all, query, reachable, f, g);
    g
  }

  ghost function FirstFront(query: Query): Front {
    var start := State(query.start, StartProgress(query));
    Front([], {}, {start}, {start}, Completed(start), 0)
  }

  ghost function FrontAt(all: set<Row>, query: Query, reachable: TargetReachability, hops: nat)
    : Front
  {
    if hops == 0 then FirstFront(query)
    else NextFront(all, query, reachable, FrontAt(all, query, reachable, hops - 1))
  }

  predicate Fits(f: Front, budget: nat) {
    |f.rows| <= budget && f.cost <= MAX_TRAVERSAL_STEPS
  }

  predicate IsOver(query: Query, f: Front, hops: nat) {
    f.states == {} || hops > query.maxHops
  }

  /** None of the first `hops` hops met a limit or was the last. */
  ghost predicate Running(all: set<Row>, query: Query, reachable: TargetReachability, budget: nat,
                          hops: nat)
  {
    && (forall i {:trigger FrontAt(all, query, reachable, i)} :: 0 <= i <= hops ==>
          Fits(FrontAt(all, query, reachable, i), budget))
    && (forall i {:trigger FrontAt(all, query, reachable, i)} :: 0 <= i < hops ==>
          !IsOver(query, FrontAt(all, query, reachable, i), i))
  }

  /** The forward search took `hops` hops; then it was over, or the next did not fit. */
  ghost predicate Ran(all: set<Row>, query: Query, reachable: TargetReachability, budget: nat,
                      hops: nat)
  {
    && Running(all, query, reachable, budget, hops)
    && (IsOver(query, FrontAt(all, query, reachable, hops), hops)
        || !Fits(FrontAt(all, query, reachable, hops + 1), budget))
  }

  /** What such a search returns: where it was cut, the states it did not expand. */
  ghost predicate Returns(all: set<Row>, query: Query, reachable: TargetReachability, hops: nat,
                          rows: seq<Row>, incomplete: set<Entity>, boundaries: set<Entity>,
                          found: bool)
  {
    var f := FrontAt(all, query, reachable, hops);
    && rows == f.rows && (f.found ==> found)
    && if IsOver(query, f, hops) then
         incomplete == {} && boundaries == f.boundaries && found == f.found
       else
         && incomplete == Entities(f.states)
         && boundaries == FrontAt(all, query, reachable, hops + 1).boundaries
  }

  /** Every row of an edge has the edge's ends, on which the query depends. */
  lemma ForwardIsWhole(all: set<Row>, query: Query, reachable: TargetReachability,
                       states: set<State>)
    ensures WholeEvidence(all, ForwardRows(all, query, reachable, states))
  {
    var taken := ForwardRows(all, query, reachable, states);
    forall r, other | r in taken && other in all && other.Key() == r.Key()
      ensures other in taken
    {
      var s :| s in states && Candidate(query.direction, s, r) && Allowed(query, reachable, s, r);
      CandidateIsSource(query.direction, s, r);
      CandidateIsSource(query.direction, s, other);
      assert Allowed(query, reachable, s, other);
    }
  }

  lemma HopIsWhole(all: set<Row>, query: Query, reachable: TargetReachability, f: Front)
    requires WholeEvidence(all, Elements(f.rows))
    ensures WholeEvidence(all, Elements(Hop(all, query, reachable, f).rows))
  {
    var taken := ForwardRows(all, query, reachable, f.states);
    ForwardIsWhole(all, query, reachable, f.states);
    ElementsConcat(f.rows, SortedRows(taken));
    assert Elements(SortedRows(taken)) == taken;
    WholeTogether(all, Elements(f.rows), taken);
  }

  lemma HopIsSane(all: set<Row>, query: Query, reachable: TargetReachability, f: Front, s: State)
    requires forall p :: p in f.states ==> Sane(query, p)
    requires s in Hop(all, query, reachable, f).states
    ensures Sane(query, s)
  {
    var r, p :| r in all && p in f.states && Moves(query, reachable, p, r)
                && MoveOf(query, reachable, p, r) == s;
    MoveIsSane(query, reachable, p, r);
  }

  ghost predicate IsBoundaryEntity(all: set<Row>, query: Query, e: Entity) {
    exists s: State :: s.entity == e && Sane(query, s) && IsBoundary(all, query, s)
  }

  /** Everything of a front but its rows. */
  ghost predicate IsSound(all: set<Row>, query: Query, f: Front) {
    && (forall s :: s in f.states ==> Sane(query, s))
    && (forall e :: e in f.boundaries ==> IsBoundaryEntity(all, query, e))
  }

  lemma HopIsSound(all: set<Row>, query: Query, reachable: TargetReachability, f: Front)
    requires IsSound(all, query, f)
    ensures IsSound(all, query, Hop(all, query, reachable, f))
  {
    forall s | s in Hop(all, query, reachable, f).states
      ensures Sane(query, s)
    {
      HopIsSane(all, query, reachable, f, s);
    }
    forall e | e in BoundaryEntities(all, query, f.states)
      ensures IsBoundaryEntity(all, query, e)
    {
      var s :| s in f.states && IsBoundary(all, query, s) && s.entity == e;
      assert Sane(query, s);
    }
  }

  lemma FirstIsSound(all: set<Row>, query: Query)
    ensures IsSound(all, query, FirstFront(query)) && FirstFront(query).rows == []
  {
  }

  /** After any number of hops all the evidence of every acquired edge is acquired with it, and
      only completed entities with an edge into another repository are boundaries. */
  lemma {:induction false} FrontIsSound(all: set<Row>, query: Query, reachable: TargetReachability,
                                        hops: nat)
    ensures WholeEvidence(all, Elements(FrontAt(all, query, reachable, hops).rows))
    ensures IsSound(all, query, FrontAt(all, query, reachable, hops))
    decreases hops
  {
    if hops == 0 {
      FirstIsSound(all, query);
    } else {
      FrontIsSound(all, query, reachable, hops - 1);
      NextIsSound(all, query, reachable, FrontAt(all, query, reachable, hops - 1),
                  FrontAt(all, query, reachable, hops));
    }
  }

  lemma NextIsSound(all: set<Row>, query: Query, reachable: TargetReachability, f: Front, g: Front)
    requires Follows(all, query, reachable, f, g)
    requires WholeEvidence(all, Elements(f.rows)) && IsSound(all, query, f)
    ensures WholeEvidence(all, Elements(g.rows)) && IsSound(all, query, g)
  {
    FollowsIsHop(all, query, reachable, f, g);
    HopIsWhole(all, query, reachable, f);
    HopIsSound(all, query, reachable, f);
  }

  // ---- the acquisition ---------------------------------------------------------------------

  ghost predicate IsForward(all: set<Row>, query: Query, reachable: TargetReachability,
                            rows: set<Row>, boundaries: set<Entity>, hops: nat,
                            level: map<State, nat>, states: set<State>, visited: set<State>,
                            found: bool, forward: bool)
  {
    forward == (&& StateFrontier(all, query, reachable, rows, boundaries, hops, level)
                && visited == level.Keys && states == StateRing(level, hops)
                && (found <==> Found(level)))
  }

  /** The forward search between hops: its frontier, and the sets the loop carries for it; said so
      that it unfolds only on demand. */
  ghost predicate Forwarding(all: set<Row>, query: Query, reachable: TargetReachability,
                             rows: set<Row>, boundaries: set<Entity>, hops: nat,
                             level: map<State, nat>, states: set<State>, visited: set<State>,
                             found: bool)
  {
    forall forward {:trigger IsForward(all, query, reachable, rows, boundaries, hops, level, states,
                                       visited, found, forward)} ::
      IsForward(all, query, reachable, rows, boundaries, hops, level, states, visited, found, forward)
      ==> forward
  }

  lemma ForwardingIs(all: set<Row>, query: Query, reachable: TargetReachability, rows: set<Row>,
                     boundaries: set<Entity>, hops: nat, level: map<State, nat>,
                     states: set<State>, visited: set<State>, found: bool)
    ensures Forwarding(all, query, reachable, rows, boundaries, hops, level, states, visited, found)
       <==> && StateFrontier(all, query, reachable, rows, boundaries, hops, level)
            && visited == level.Keys && states == StateRing(level, hops)
            && (found <==> Found(level))
  {
    assert IsForward(all, query, reachable, rows, boundaries, hops, level, states, visited, found,
                     && StateFrontier(all, query, reachable, rows, boundaries, hops, level)
                     && visited == level.Keys && states == StateRing(level, hops)
                     && (found <==> Found(level)));
  }

  lemma ForwardIsAll(all: set<Row>, query: Query, reachable: TargetReachability, rows: set<Row>,
                     boundaries: set<Entity>, hops: nat, level: map<State, nat>,
                     states: set<State>, visited: set<State>, found: bool)
    requires Forwarding(all, query, reachable, rows, boundaries, hops, level, states, visited, found)
    ensures rows <= all
  {
    ForwardingIs(all, query, reachable, rows, boundaries, hops, level, states, visited, found);
  }

  lemma ForwardStarts(all: set<Row>, query: Query, reachable: TargetReachability)
    ensures var start := State(query.start, StartProgress(query));
            Forwarding(all, query, reachable, {}, {}, 0, map[start := 0], {start}, {start},
                       Completed(start))
  {
    var start := State(query.start, StartProgress(query));
    ForwardingIs(all, query, reachable, {}, {}, 0, map[start := 0], {start}, {start},
                 Completed(start));
  }

  lemma ForwardOne(all: set<Row>, query: Query, reachable: TargetReachability, rows: set<Row>,
                   boundaries: set<Entity>, hops: nat, level: map<State, nat>,
                   states: set<State>, visited: set<State>, found: bool, taken: set<Row>)
    requires ReachesTargets(all, query, query.targets, reachable)
    requires Forwarding(all, query, reachable, rows, boundaries, hops, level, states, visited, found)
    requires taken == ForwardRows(all, query, reachable, states)
    ensures var moves := AllMoves(query, reachable, states, taken);
            Forwarding(all, query, reachable, rows + taken,
                       boundaries + BoundaryEntities(all, query, states), hops + 1,
                       DeeperStates(level, moves - visited, hops), moves - visited,
                       visited + moves, found || Completes(query, reachable, states, taken))
  {
    var next := AllMoves(query, reachable, states, taken) - visited;
    ForwardingIs(all, query, reachable, rows, boundaries, hops, level, states, visited, found);
    ForwardingIs(all, query, reachable, rows + taken,
                 boundaries + BoundaryEntities(all, query, states), hops + 1,
                 DeeperStates(level, next, hops), next,
                 visited + AllMoves(query, reachable, states, taken),
                 found || Completes(query, reachable, states, taken));
    StateRingExpanded(all, query, reachable, rows, boundaries, hops, level, taken, next);
    FoundGrows(query, reachable, hops, level, taken, next);
  }

  lemma ForwardEnds(all: set<Row>, query: Query, reachable: TargetReachability, rows: set<Row>,
                    boundaries: set<Entity>, hops: nat, level: map<State, nat>,
                    states: set<State>, visited: set<State>, found: bool)
    requires Forwarding(all, query, reachable, rows, boundaries, hops, level, states, visited, found)
    requires states == {} || hops > query.maxHops
    ensures Searched(all, query, reachable, rows, boundaries, found)
  {
    ForwardingIs(all, query, reachable, rows, boundaries, hops, level, states, visited, found);
    assert forall s :: s in level ==> s in StateRing(level, hops) || level[s] < hops;
    assert SearchedTo(all, query, reachable, rows, boundaries, found, level, hops);
  }

  datatype Limit = NoLimit | RowLimit | StepLimit

  /** One hop of the forward search: its query, then the moves of every row and state. */
  method ForwardHop(all: set<Row>, query: Query, reachable: TargetReachability,
                    states: set<State>, visited: set<State>, remaining: nat, steps: nat)
    returns (limit: Limit, edges: seq<Row>, boundaries: set<Entity>, known: set<State>,
             next: set<State>, completed: bool, left: nat)
    ensures boundaries == BoundaryEntities(all, query, states)
    ensures limit.NoLimit? ==>
              && |edges| <= remaining
              && Elements(edges) == ForwardRows(all, query, reachable, states)
              && known == visited + AllMoves(query, reachable, states, Elements(edges))
              && next == AllMoves(query, reachable, states, Elements(edges)) - visited
              && (completed <==> Completes(query, reachable, states, Elements(edges)))
              && edges == SortedRows(ForwardRows(all, query, reachable, states))
              && left == steps - MoveCost(|edges|, |states|)
    ensures limit.RowLimit? ==> |ForwardRows(all, query, reachable, states)| > remaining
    ensures limit.StepLimit? ==> MoveCost(|ForwardRows(all, query, reachable, states)|, |states|) > steps
  {
    known, next, completed, left := visited, {}, false, steps;
    edges, boundaries := FilteredForward(all, query, reachable, states, remaining);
    if |edges| > remaining {
      limit := RowLimit;
      return;
    }
    var limited;
    known, next, completed, left, limited :=
      AdvanceStates(query, reachable, states, edges, visited, steps);
    limit := if limited then StepLimit else NoLimit;
  }

  /** The variables of the loop after `hops` hops. */
  ghost predicate IsFront(all: set<Row>, query: Query, reachable: TargetReachability, hops: nat,
                          rows: seq<Row>, boundaries: set<Entity>, states: set<State>,
                          visited: set<State>, found: bool, steps: nat)
  {
    steps <= MAX_TRAVERSAL_STEPS &&
    FrontAt(all, query, reachable, hops)
    == Front(rows, boundaries, states, visited, found, MAX_TRAVERSAL_STEPS - steps)
  }

  /** A hop that met no limit is the next front. */
  lemma HopTaken(all: set<Row>, query: Query, reachable: TargetReachability, hops: nat, f: Front,
                 edges: seq<Row>, bounds: set<Entity>, known: set<State>, next: set<State>,
                 completed: bool)
    requires f == FrontAt(all, query, reachable, hops)
    requires edges == SortedRows(ForwardRows(all, query, reachable, f.states))
    requires bounds == BoundaryEntities(all, query, f.states)
    requires known == f.visited + AllMoves(query, reachable, f.states, Elements(edges))
    requires next == AllMoves(query, reachable, f.states, Elements(edges)) - f.visited
    requires completed <==> Completes(query, reachable, f.states, Elements(edges))
    ensures FrontAt(all, query, reachable, hops + 1)
         == Front(f.rows + edges, f.boundaries + bounds, next, known, f.found || completed,
                  f.cost + MoveCost(|edges|, |f.states|))
  {
    FollowsIsHop(all, query, reachable, f, NextFront(all, query, reachable, f));
    assert Elements(edges) == ForwardRows(all, query, reachable, f.states);
  }

  /** A hop over a limit is a front that does not fit. */
  lemma HopRefused(all: set<Row>, query: Query, reachable: TargetReachability, hops: nat, f: Front,
                   budget: nat)
    requires f == FrontAt(all, query, reachable, hops) && f.cost <= MAX_TRAVERSAL_STEPS
    ensures var taken := ForwardRows(all, query, reachable, f.states);
            && FrontAt(all, query, reachable, hops + 1).boundaries
               == f.boundaries + BoundaryEntities(all, query, f.states)
            && (|f.rows| + |taken| > budget
                || MoveCost(|taken|, |f.states|) > MAX_TRAVERSAL_STEPS - f.cost
                ==> !Fits(FrontAt(all, query, reachable, hops + 1), budget))
  {
    FollowsIsHop(all, query, reachable, f, NextFront(all, query, reachable, f));
  }

  /** One hop, with what it leaves of the forward search when no limit is met. */
  method ForwardStep(all: set<Row>, query: Query, reachable: TargetReachability, rows: seq<Row>,
                     boundaries: set<Entity>, ghost hops: nat, ghost level: map<State, nat>,
                     states: set<State>, visited: set<State>, found: bool, budget: nat, steps: nat)
    returns (limit: Limit, rows': seq<Row>, boundaries': set<Entity>,
             ghost level': map<State, nat>, states': set<State>, visited': set<State>,
             found': bool, steps': nat)
    requires ReachesTargets(all, query, query.targets, reachable) && |rows| <= budget
    requires Forwarding(all, query, reachable, Elements(rows), boundaries, hops, level, states,
                        visited, found)
    requires IsFront(all, query, reachable, hops, rows, boundaries, states, visited, found, steps)
    ensures |rows'| <= budget
    ensures limit.NoLimit? ==>
              && Forwarding(all, query, reachable, Elements(rows'), boundaries', hops + 1, level',
                            states', visited', found')
              && IsFront(all, query, reachable, hops + 1, rows', boundaries', states', visited',
                         found', steps')
              && Fits(FrontAt(all, query, reachable, hops + 1), budget)
    ensures !limit.NoLimit? ==>
              && rows' == rows && (found ==> found')
              && boundaries' == FrontAt(all, query, reachable, hops + 1).boundaries
              && !Fits(FrontAt(all, query, reachable, hops + 1), budget)
  {
    ghost var f := FrontAt(all, query, reachable, hops);
    var edges, bounds, completed;
    limit, edges, bounds, visited', states', completed, steps' :=
      ForwardHop(all, query, reachable, states, visited, budget - |rows|, steps);
    rows', boundaries', found', level' := rows, boundaries + bounds, found || completed, level;
    if limit.NoLimit? {
      ForwardOne(all, query, reachable, Elements(rows), boundaries, hops, level, states, visited,
                 found, Elements(edges));
      level' := DeeperStates(level, states', hops);
      ElementsConcat(rows, edges);
      HopTaken(all, query, reachable, hops, f, edges, bounds, visited', states', completed);
      rows' := rows + edges;
    } else {
      HopRefused(all, query, reachable, hops, f, budget);
    }
  }

  method ForwardSearch(all: set<Row>, query: Query, reachable: TargetReachability, start: State,
                       budget: nat)
    returns (rows: seq<Row>, incomplete: set<Entity>, boundaries: set<Entity>, found: bool,
             workLimited: bool)
    requires ReachesTargets(all, query, query.targets, reachable)
    requires start == State(query.start, StartProgress(query))
    ensures |rows| <= budget && Elements(rows) <= all
    ensures incomplete == {} ==>
              !workLimited && Searched(all, query, reachable, Elements(rows), boundaries, found)
    ensures exists hops :: Ran(all, query, reachable, budget, hops)
                           && Returns(all, query, reachable, hops, rows, incomplete, boundaries, found)
  {
    rows, incomplete, boundaries, found, workLimited := [], {}, {}, Completed(start), false;
    var states, visited, steps := {start}, {start}, MAX_TRAVERSAL_STEPS;
    ghost var level: map<State, nat> := map[start := 0];
    ForwardStarts(all, query, reachable);
    assert Elements([]) == {};
    var hops := 0;
    while hops <= query.maxHops
      invariant |rows| <= budget && incomplete == {} && !workLimited
      invariant Forwarding(all, query, reachable, Elements(rows), boundaries, hops, level,
                           states, visited, found)
      invariant IsFront(all, query, reachable, hops, rows, boundaries, states, visited, found, steps)
      invariant Running(all, query, reachable, budget, hops)
      decreases query.maxHops + 1 - hops
    {
      if states == {} {
        break;
      }
      var entities := Entities(states);
      assert !IsOver(query, FrontAt(all, query, reachable, hops), hops);
      EntitiesOfSome(states);
      ForwardIsAll(all, query, reachable, Elements(rows), boundaries, hops, level, states, visited,
                   found);
      var limit;
      limit, rows, boundaries, level, states, visited, found, steps :=
        ForwardStep(all, query, reachable, rows, boundaries, hops, level, states, visited, found,
                    budget, steps);
      if !limit.NoLimit? {
        workLimited, incomplete := limit.StepLimit?, entities;
        assert Ran(all, query, reachable, budget, hops);
        assert Returns(all, query, reachable, hops, rows, incomplete, boundaries, found);
        return;
      }
      hops := hops + 1;
    }
    ForwardIsAll(all, query, reachable, Elements(rows), boundaries, hops, level, states, visited,
                 found);
    ForwardEnds(all, query, reachable, Elements(rows), boundaries, hops, level, states, visited,
                found);
    assert Ran(all, query, reachable, budget, hops);
    assert Returns(all, query, reachable, hops, rows, incomplete, boundaries, found);
  }

  /** A forward search of `hops` hops within what the reverse search left of the row budget; all
      it acquired is dropped when it found no completion. */
  ghost predicate Forwards(all: set<Row>, query: Query, reachable: TargetReachability, budget: nat,
                           hops: nat, rows: seq<Row>, incomplete: set<Entity>,
                           boundaries: set<Entity>)
  {
    && budget <= MAX_TRAVERSAL_ROWS <= budget + ReadLimit(all, query, query.targets)
    && ReachesTargets(all, query, query.targets, reachable)
    && Ran(all, query, reachable, budget, hops)
    && (Returns(all, query, reachable, hops, rows, incomplete, boundaries, true)
        || (rows == [] && boundaries == {}
            && !FrontAt(all, query, reachable, hops).found))
  }

  /** What a filtered acquisition comes to: the reverse search read too many rows, the start does
      not reach every target, or the forward search ran. */
  ghost predicate Acquires(all: set<Row>, query: Query, rows: seq<Row>, incomplete: set<Entity>,
                           boundaries: set<Entity>, reachable: TargetReachability)
  {
    || (MAX_TRAVERSAL_ROWS < ReadLimit(all, query, query.targets)
        && incomplete == {query.start} && rows == [] && boundaries == {})
    || (ReachesTargets(all, query, query.targets, reachable) && !StartReaches(query, reachable)
        && incomplete == {} && rows == [] && boundaries == {})
    || (exists budget, hops ::
          Forwards(all, query, reachable, budget, hops, rows, incomplete, boundaries))
  }

  lemma ForwardIsSound(all: set<Row>, query: Query, reachable: TargetReachability, hops: nat,
                       rows: seq<Row>, incomplete: set<Entity>, boundaries: set<Entity>, found: bool)
    requires Returns(all, query, reachable, hops, rows, incomplete, boundaries, found)
    ensures WholeEvidence(all, Elements(rows))
    ensures forall e :: e in boundaries ==> IsBoundaryEntity(all, query, e)
  {
    FrontIsSound(all, query, reachable, hops);
    FrontIsSound(all, query, reachable, hops + 1);
  }

  method FilteredRows(all: set<Row>, query: Query)
    returns (rows: seq<Row>, incomplete: set<Entity>, boundaries: set<Entity>,
             reachable: TargetReachability, workLimited: bool)
    ensures |rows| <= MAX_TRAVERSAL_ROWS && Elements(rows) <= all
    ensures WholeEvidence(all, Elements(rows))
    ensures forall e :: e in boundaries ==> IsBoundaryEntity(all, query, e)
    ensures Acquires(all, query, rows, incomplete, boundaries, reachable)
    ensures incomplete == {} ==>
              !workLimited && FilteredAcquired(all, query, reachable, Elements(rows), boundaries)
  {
    rows, incomplete, boundaries, reachable, workLimited := [], {}, {}, map[], false;
    var result, remaining := ComputeReachability(all, query, MAX_TRAVERSAL_ROWS);
    if result.None? {
      incomplete := {query.start};
      return;
    }
    reachable := result.value;
    var start := State(query.start, StartProgress(query));
    if !StartReaches(query, reachable) {
      return;
    }
    rows, incomplete, boundaries, workLimited :=
      ForwardCompleted(all, query, reachable, start, remaining);
  }

  /** The forward search; what it acquired is dropped when it found no completion. */
  method ForwardCompleted(all: set<Row>, query: Query, reachable: TargetReachability, start: State,
                          budget: nat)
    returns (rows: seq<Row>, incomplete: set<Entity>, boundaries: set<Entity>, workLimited: bool)
    requires ReachesTargets(all, query, query.targets, reachable)
    requires start == State(query.start, StartProgress(query))
    requires budget <= MAX_TRAVERSAL_ROWS <= budget + ReadLimit(all, query, query.targets)
    ensures |rows| <= budget && Elements(rows) <= all && WholeEvidence(all, Elements(rows))
    ensures forall e :: e in boundaries ==> IsBoundaryEntity(all, query, e)
    ensures exists hops ::
              Forwards(all, query, reachable, budget, hops, rows, incomplete, boundaries)
    ensures incomplete == {} ==>
              !workLimited && FilteredAcquired(all, query, reachable, Elements(rows), boundaries)
  {
    var found;
    rows, incomplete, boundaries, found, workLimited :=
      ForwardSearch(all, query, reachable, start, budget);
    ghost var hops :| Ran(all, query, reachable, budget, hops)
      && Returns(all, query, reachable, hops, rows, incomplete, boundaries, found);
    ForwardIsSound(all, query, reachable, hops, rows, incomplete, boundaries, found);
    if !found {
      rows, boundaries := [], {};
    }
    assert Forwards(all, query, reachable, budget, hops, rows, incomplete, boundaries);
  }

  lemma ElementsConcat(rows: seq<Row>, more: seq<Row>)
    ensures Elements(rows + more) == Elements(rows) + Elements(more)
  {
  }

  lemma EntitiesOfSome(states: set<State>)
    requires states != {}
    ensures Entities(states) != {}
  {
    var state :| state in states;
    assert state.entity in Entities(states);
  }
}
