/** Depth-first enumeration of bounded maximal simple paths over an acquired graph. */
module PathSearch {
  import opened Graph

  const MAX_TRAVERSAL_STEPS: nat := 100_000

  datatype Query = Query(start: Entity, direction: Direction, destination: Option<Entity>,
                         targets: set<string>, maxHops: nat, maxPaths: nat)

  datatype Termination = Destination | RepositoryBoundary | Leaf | Cycle | MaxHops

  datatype TruncationReason = MaxHopsReached | MaxPathsReached | AcquisitionLimit | WorkLimit

  datatype Path = Path(nodes: seq<Entity>, edges: seq<EdgeKey>, termination: Termination)

  datatype Step = Step(to: Entity, edge: EdgeKey)

  /** What a search reads: the query, the adjacency lists and the acquisition's by-products. */
  datatype Env = Env(query: Query, adjacent: map<Entity, seq<Step>>, incomplete: set<Entity>,
                     boundaries: set<Entity>, reachable: map<Entity, set<string>>)

  function Out(env: Env, node: Entity): seq<Step> {
    if node in env.adjacent then env.adjacent[node] else []
  }

  // ---- repository progress along a path ------------------------------------------------

  /** Which targets a path has entered, and the target whose entry completed the set. */
  datatype Progress = Progress(visited: set<string>, completion: Option<string>)

  function Advance(progress: Progress, node: Entity, targets: set<string>): Progress {
    match TargetRepository(node, targets)
    case None => progress
    case Some(owner) =>
      var visited := progress.visited + {owner};
      Progress(visited, if progress.completion.None? && visited == targets
                        then Some(owner) else progress.completion)
  }

  function RepositoryState(nodes: seq<Entity>, targets: set<string>): Progress {
    if nodes == [] then Progress({}, None)
    else Advance(RepositoryState(nodes[..|nodes| - 1], targets), nodes[|nodes| - 1], targets)
  }

  method ComputeRepositoryState(nodes: seq<Entity>, targets: set<string>)
    returns (visited: set<string>, completion: Option<string>)
    ensures Progress(visited, completion) == RepositoryState(nodes, targets)
  {
    visited, completion := {}, None;
    for i := 0 to |nodes|
      invariant Progress(visited, completion) == RepositoryState(nodes[..i], targets)
    {
      assert nodes[..i + 1][..i] == nodes[..i];
      var repository := TargetRepository(nodes[i], targets);
      if repository.Some? {
        visited := visited + {repository.value};
        if completion.None? && visited == targets {
          completion := Some(repository.value);
        }
      }
    }
    assert nodes[..|nodes|] == nodes;
  }

  function Reachable(env: Env, node: Entity): set<string> {
    if node in env.reachable then env.reachable[node] else {}
  }

  predicate CanFollow(env: Env, nodes: seq<Entity>, next: Entity) {
    var targets := env.query.targets;
    targets == {} ||
    var state := RepositoryState(nodes, targets);
    match state.completion
    case Some(owner) =>
      !IsRepositoryOwned(next) || TargetRepository(next, targets) == Some(owner)
    case None =>
      var missing := targets - Advance(state, next, targets).visited;
      missing <= Reachable(env, next)
  }

  function Followable(env: Env, nodes: seq<Entity>, steps: seq<Step>): (kept: seq<Step>)
    ensures |kept| <= |steps|
    ensures forall s :: s in kept <==> s in steps && CanFollow(env, nodes, s.to)
  {
    if steps == [] then []
    else
      var rest := Followable(env, nodes, steps[..|steps| - 1]);
      var last := steps[|steps| - 1];
      if CanFollow(env, nodes, last.to) then rest + [last] else rest
  }

  function Neighbours(env: Env, nodes: seq<Entity>): seq<Step>
    requires nodes != []
  {
    Followable(env, nodes, Out(env, nodes[|nodes| - 1]))
  }

  predicate HasExtension(nodes: seq<Entity>, neighbours: seq<Step>) {
    exists s :: s in neighbours && s.to !in nodes
  }

  // ---- the ordered enumeration ----------------------------------------------------------

  predicate AtDestination(env: Env, node: Entity) {
    env.query.destination == Some(node)
  }

  /** A completed path stops at its first node that belongs to no repository. */
  predicate AtContract(env: Env, nodes: seq<Entity>)
    requires nodes != []
  {
    RepositoryState(nodes, env.query.targets).completion.Some? &&
    !IsRepositoryOwned(nodes[|nodes| - 1])
  }

  predicate EmitsBoundary(env: Env, nodes: seq<Entity>)
    requires nodes != []
  {
    var node := nodes[|nodes| - 1];
    RepositoryState(nodes, env.query.targets).completion.Some? &&
    node in env.boundaries && node !in env.incomplete
  }

  predicate OpenEnded(env: Env, nodes: seq<Entity>) {
    env.query.destination.None? &&
    (env.query.targets == {} || RepositoryState(nodes, env.query.targets).completion.Some?)
  }

  /** The paths a visit emits before it looks at any extension, when it extends at all. */
  function Head(env: Env, nodes: seq<Entity>, edges: seq<EdgeKey>): seq<Path>
    requires nodes != []
  {
    if EmitsBoundary(env, nodes) then [Path(nodes, edges, RepositoryBoundary)] else []
  }

  function Dead(env: Env, nodes: seq<Entity>, edges: seq<EdgeKey>): seq<Path>
    requires nodes != []
  {
    if OpenEnded(env, nodes) && nodes[|nodes| - 1] !in env.incomplete && !EmitsBoundary(env, nodes)
    then [Path(nodes, edges, if Neighbours(env, nodes) == [] then Leaf else Cycle)]
    else []
  }

  function Enumerate(env: Env, nodes: seq<Entity>, edges: seq<EdgeKey>): seq<Path>
    requires nodes != [] && |edges| <= env.query.maxHops
    decreases env.query.maxHops - |edges|, 1
  {
    var node := nodes[|nodes| - 1];
    if AtDestination(env, node) then [Path(nodes, edges, Destination)]
    else if AtContract(env, nodes) then
      if node in env.incomplete then [] else [Path(nodes, edges, RepositoryBoundary)]
    else Head(env, nodes, edges) + Tail(env, nodes, edges)
  }

  /** What a visit emits from the followable neighbours of its last node on. */
  function Tail(env: Env, nodes: seq<Entity>, edges: seq<EdgeKey>): seq<Path>
    requires nodes != [] && |edges| <= env.query.maxHops
    decreases env.query.maxHops - |edges|, 0
  {
    var neighbours := Neighbours(env, nodes);
    if !HasExtension(nodes, neighbours) then Dead(env, nodes, edges)
    else if |edges| == env.query.maxHops then
      if OpenEnded(env, nodes) then [Path(nodes, edges, MaxHops)] else []
    else Branches(env, nodes, edges, neighbours)
  }

  function Branches(env: Env, nodes: seq<Entity>, edges: seq<EdgeKey>, steps: seq<Step>): seq<Path>
    requires nodes != [] && |edges| < env.query.maxHops
    decreases env.query.maxHops - |edges| - 1, 3, |steps|
  {
    if steps == [] then []
    else
      Branches(env, nodes, edges, steps[..|steps| - 1]) +
      Branch(env, nodes, edges, steps[|steps| - 1])
  }

  function Branch(env: Env, nodes: seq<Entity>, edges: seq<EdgeKey>, step: Step): seq<Path>
    requires nodes != [] && |edges| < env.query.maxHops
    decreases env.query.maxHops - |edges| - 1, 2
  {
    if step.to in nodes then [] else Enumerate(env, nodes + [step.to], edges + [step.edge])
  }

  /** Node and adjacency steps the whole enumeration below a path takes. */
  function Cost(env: Env, nodes: seq<Entity>, edges: seq<EdgeKey>): nat
    requires nodes != [] && |edges| <= env.query.maxHops
    decreases env.query.maxHops - |edges|, 1
  {
    if AtDestination(env, nodes[|nodes| - 1]) || AtContract(env, nodes) then 1
    else 1 + TailCost(env, nodes, edges)
  }

  function TailCost(env: Env, nodes: seq<Entity>, edges: seq<EdgeKey>): nat
    requires nodes != [] && |edges| <= env.query.maxHops
    decreases env.query.maxHops - |edges|, 0
  {
    var neighbours := Neighbours(env, nodes);
    if !HasExtension(nodes, neighbours) || |edges| == env.query.maxHops then |neighbours|
    else |neighbours| + BranchesCost(env, nodes, edges, neighbours)
  }

  function BranchesCost(env: Env, nodes: seq<Entity>, edges: seq<EdgeKey>, steps: seq<Step>): nat
    requires nodes != [] && |edges| < env.query.maxHops
    decreases env.query.maxHops - |edges| - 1, 3, |steps|
  {
    if steps == [] then 0
    else
      BranchesCost(env, nodes, edges, steps[..|steps| - 1]) +
      BranchCost(env, nodes, edges, steps[|steps| - 1])
  }

  function BranchCost(env: Env, nodes: seq<Entity>, edges: seq<EdgeKey>, step: Step): nat
    requires nodes != [] && |edges| < env.query.maxHops
    decreases env.query.maxHops - |edges| - 1, 2
  {
    1 + if step.to in nodes then 0 else Cost(env, nodes + [step.to], edges + [step.edge])
  }

  /** Whether the enumeration below a path meets the hop limit with somewhere left to go. */
  predicate CutByHops(env: Env, nodes: seq<Entity>, edges: seq<EdgeKey>)
    requires nodes != [] && |edges| <= env.query.maxHops
    decreases env.query.maxHops - |edges|, 1
  {
    !AtDestination(env, nodes[|nodes| - 1]) && !AtContract(env, nodes) &&
    TailCut(env, nodes, edges)
  }

  predicate TailCut(env: Env, nodes: seq<Entity>, edges: seq<EdgeKey>)
    requires nodes != [] && |edges| <= env.query.maxHops
    decreases env.query.maxHops - |edges|, 0
  {
    var neighbours := Neighbours(env, nodes);
    HasExtension(nodes, neighbours) &&
    (|edges| == env.query.maxHops || BranchesCut(env, nodes, edges, neighbours))
  }

  predicate BranchesCut(env: Env, nodes: seq<Entity>, edges: seq<EdgeKey>, steps: seq<Step>)
    requires nodes != [] && |edges| < env.query.maxHops
    decreases env.query.maxHops - |edges| - 1, 3, |steps|
  {
    steps != [] &&
    (BranchesCut(env, nodes, edges, steps[..|steps| - 1]) ||
     BranchCut(env, nodes, edges, steps[|steps| - 1]))
  }

  predicate BranchCut(env: Env, nodes: seq<Entity>, edges: seq<EdgeKey>, step: Step)
    requires nodes != [] && |edges| < env.query.maxHops
    decreases env.query.maxHops - |edges| - 1, 2
  {
    step.to !in nodes && CutByHops(env, nodes + [step.to], edges + [step.edge])
  }

  lemma NextBranch(env: Env, nodes: seq<Entity>, edges: seq<EdgeKey>, steps: seq<Step>, i: nat)
    requires nodes != [] && |edges| < env.query.maxHops && i < |steps|
    ensures Branches(env, nodes, edges, steps[..i + 1])
         == Branches(env, nodes, edges, steps[..i]) + Branch(env, nodes, edges, steps[i])
    ensures BranchesCost(env, nodes, edges, steps[..i + 1])
         == BranchesCost(env, nodes, edges, steps[..i]) + BranchCost(env, nodes, edges, steps[i])
    ensures BranchesCut(env, nodes, edges, steps[..i + 1])
        <==> BranchesCut(env, nodes, edges, steps[..i]) || BranchCut(env, nodes, edges, steps[i])
  {
    assert steps[..i + 1][..i] == steps[..i];
  }

  lemma {:induction false} BranchesGrow(env: Env, nodes: seq<Entity>, edges: seq<EdgeKey>,
                                        steps: seq<Step>, i: nat)
    requires nodes != [] && |edges| < env.query.maxHops && i <= |steps|
    ensures Branches(env, nodes, edges, steps[..i]) <= Branches(env, nodes, edges, steps)
    ensures BranchesCost(env, nodes, edges, steps[..i]) + |steps| - i
         <= BranchesCost(env, nodes, edges, steps)
    decreases |steps|
  {
    if i == |steps| {
      assert steps[..i] == steps;
    } else {
      var front := steps[..|steps| - 1];
      BranchesGrow(env, nodes, edges, front, i);
      assert front[..i] == steps[..i];
    }
  }

  // ---- the search -----------------------------------------------------------------------

  predicate Limited(reasons: set<TruncationReason>) {
    MaxPathsReached in reasons || WorkLimit in reasons
  }

  /** How a visit moves the search when it owed `owed` paths at a cost of `cost` steps. */
  ghost predicate Visited(maxPaths: nat,
                          paths0: seq<Path>, reasons0: set<TruncationReason>, steps0: nat,
                          paths1: seq<Path>, reasons1: set<TruncationReason>, steps1: nat,
                          owed: seq<Path>, cost: nat, cut: bool)
  {
    && paths0 <= paths1 <= paths0 + owed
    && reasons0 <= reasons1 <= reasons0 + {MaxHopsReached, MaxPathsReached, WorkLimit}
    && (MaxPathsReached in reasons1 ==>
          WorkLimit !in reasons1 && |paths1| == maxPaths && |paths0 + owed| > maxPaths)
    && (WorkLimit in reasons1 ==> steps0 + cost > MAX_TRAVERSAL_STEPS)
    && (!Limited(reasons1) ==>
          && paths1 == paths0 + owed && steps1 == steps0 + cost
          && reasons1 == reasons0 + (if cut then {MaxHopsReached} else {}))
  }

  lemma VisitedThen(maxPaths: nat,
                    paths0: seq<Path>, reasons0: set<TruncationReason>, steps0: nat,
                    paths1: seq<Path>, reasons1: set<TruncationReason>, steps1: nat,
                    paths2: seq<Path>, reasons2: set<TruncationReason>, steps2: nat,
                    owed1: seq<Path>, cost1: nat, cut1: bool,
                    owed2: seq<Path>, cost2: nat, cut2: bool)
    requires !Limited(reasons1)
    requires Visited(maxPaths, paths0, reasons0, steps0, paths1, reasons1, steps1,
                     owed1, cost1, cut1)
    requires Visited(maxPaths, paths1, reasons1, steps1, paths2, reasons2, steps2,
                     owed2, cost2, cut2)
    ensures Visited(maxPaths, paths0, reasons0, steps0, paths2, reasons2, steps2,
                    owed1 + owed2, cost1 + cost2, cut1 || cut2)
  {
  }

  /** A limited visit stays limited when more was owed than accounted for so far. */
  lemma VisitedMore(maxPaths: nat,
                    paths0: seq<Path>, reasons0: set<TruncationReason>, steps0: nat,
                    paths1: seq<Path>, reasons1: set<TruncationReason>, steps1: nat,
                    owed: seq<Path>, cost: nat, cut: bool,
                    owed2: seq<Path>, cost2: nat, cut2: bool)
    requires Limited(reasons1) && owed <= owed2 && cost <= cost2
    requires Visited(maxPaths, paths0, reasons0, steps0, paths1, reasons1, steps1, owed, cost, cut)
    ensures Visited(maxPaths, paths0, reasons0, steps0, paths1, reasons1, steps1,
                    owed2, cost2, cut2)
  {
  }

  class PathSearch {
    const env: Env
    var paths: seq<Path>
    var reasons: set<TruncationReason>
    var steps: nat
    var nodes: seq<Entity>
    var edges: seq<EdgeKey>

    constructor (env: Env)
      ensures this.env == env && paths == [] && steps == 0
      ensures nodes == [env.query.start] && edges == []
      ensures reasons == if env.incomplete == {} then {} else {AcquisitionLimit}
    {
      this.env := env;
      paths, steps := [], 0;
      reasons := if env.incomplete == {} then {} else {AcquisitionLimit};
      nodes, edges := [env.query.start], [];
    }

    predicate Valid()
      reads this
    {
      && nodes != [] && |edges| <= env.query.maxHops
      && steps <= MAX_TRAVERSAL_STEPS && |paths| <= env.query.maxPaths
    }

    method Emit(termination: Termination)
      requires Valid() && !Limited(reasons)
      modifies this`paths, this`reasons
      ensures Valid()
      ensures Visited(env.query.maxPaths, old(paths), old(reasons), steps, paths, reasons, steps,
                      [Path(nodes, edges, termination)], 0, false)
    {
      if |paths| == env.query.maxPaths {
        reasons := reasons + {MaxPathsReached};
      } else {
        paths := paths + [Path(nodes, edges, termination)];
      }
    }

    /** One visit emits the enumeration below the current path in order, up to the limits. */
    method Visit()
      requires Valid()
      modifies this
      ensures Valid() && nodes == old(nodes) && edges == old(edges) && old(steps) <= steps
      ensures Limited(old(reasons)) ==>
                paths == old(paths) && reasons == old(reasons) && steps == old(steps)
      ensures !Limited(old(reasons)) ==>
                Visited(env.query.maxPaths, old(paths), old(reasons), old(steps),
                        paths, reasons, steps, Enumerate(env, nodes, edges),
                        Cost(env, nodes, edges), CutByHops(env, nodes, edges))
      decreases MAX_TRAVERSAL_STEPS - steps
    {
      if MaxPathsReached in reasons || WorkLimit in reasons {
        return;
      }
      if steps == MAX_TRAVERSAL_STEPS {
        reasons := reasons + {WorkLimit};
        return;
      }
      steps := steps + 1;
      VisitEntered();
    }

    /** The visit of a node whose own step is counted. */
    method VisitEntered()
      requires Valid() && !Limited(reasons) && steps > 0
      modifies this
      ensures Valid() && nodes == old(nodes) && edges == old(edges) && old(steps) <= steps
      ensures Visited(env.query.maxPaths, old(paths), old(reasons), old(steps) - 1,
                      paths, reasons, steps, Enumerate(env, nodes, edges),
                      Cost(env, nodes, edges), CutByHops(env, nodes, edges))
      decreases MAX_TRAVERSAL_STEPS - steps, 4
    {
      ghost var maxPaths, paths0, reasons0, steps0 := env.query.maxPaths, paths, reasons, steps - 1;
      assert Visited(maxPaths, paths0, reasons0, steps0, paths, reasons, steps, [], 1, false);
      var node := nodes[|nodes| - 1];
      if env.query.destination == Some(node) {
        Emit(Destination);
        return;
      }
      var _, completion := ComputeRepositoryState(nodes, env.query.targets);
      if completion.Some? && !IsRepositoryOwned(node) {
        if node !in env.incomplete {
          Emit(RepositoryBoundary);
        }
        return;
      }
      VisitOpen(completion);
    }

    /** The visit of a node that ends no path at once: its boundary first, then its extensions. */
    method VisitOpen(completion: Option<string>)
      requires Valid() && !Limited(reasons) && steps > 0
      requires completion == RepositoryState(nodes, env.query.targets).completion
      modifies this
      ensures Valid() && nodes == old(nodes) && edges == old(edges) && old(steps) <= steps
      ensures Visited(env.query.maxPaths, old(paths), old(reasons), old(steps) - 1,
                      paths, reasons, steps, Head(env, nodes, edges) + Tail(env, nodes, edges),
                      1 + TailCost(env, nodes, edges), TailCut(env, nodes, edges))
      decreases MAX_TRAVERSAL_STEPS - steps, 3
    {
      ghost var maxPaths, paths0, reasons0, steps0 := env.query.maxPaths, paths, reasons, steps - 1;
      var node := nodes[|nodes| - 1];
      var emittedBoundary :=
        completion.Some? && node in env.boundaries && node !in env.incomplete;
      ghost var head := Head(env, nodes, edges);
      ghost var tail, cost, cut :=
        Tail(env, nodes, edges), TailCost(env, nodes, edges), TailCut(env, nodes, edges);
      if emittedBoundary {
        Emit(RepositoryBoundary);
        if MaxPathsReached in reasons {
          VisitedMore(maxPaths, paths0, reasons0, steps0, paths, reasons, steps,
                      head, 1, false, head + tail, 1 + cost, cut);
          return;
        }
      }
      assert Visited(maxPaths, paths0, reasons0, steps0, paths, reasons, steps, head, 1, false);
      ghost var paths1, reasons1, steps1 := paths, reasons, steps;
      Extend(completion, emittedBoundary);
      VisitedThen(maxPaths, paths0, reasons0, steps0, paths1, reasons1, steps1,
                  paths, reasons, steps, head, 1, false, tail, cost, cut);
    }

    /** A path without extension ends as a leaf or a cycle where its end was fully acquired. */
    method EmitDead(completion: Option<string>, emittedBoundary: bool, neighbours: seq<Step>)
      requires Valid() && !Limited(reasons) && neighbours == Neighbours(env, nodes)
      requires completion == RepositoryState(nodes, env.query.targets).completion
      requires emittedBoundary == EmitsBoundary(env, nodes)
      modifies this`paths, this`reasons
      ensures Valid()
      ensures Visited(env.query.maxPaths, old(paths), old(reasons), steps,
                      paths, reasons, steps, Dead(env, nodes, edges), 0, false)
    {
      if env.query.destination.None? && nodes[|nodes| - 1] !in env.incomplete
         && (env.query.targets == {} || completion.Some?) && !emittedBoundary {
        Emit(if neighbours == [] then Leaf else Cycle);
      }
    }

    method EmitHopLimit(completion: Option<string>)
      requires Valid() && !Limited(reasons)
      requires completion == RepositoryState(nodes, env.query.targets).completion
      modifies this`paths, this`reasons
      ensures Valid()
      ensures Visited(env.query.maxPaths, old(paths), old(reasons), steps, paths, reasons, steps,
                      if OpenEnded(env, nodes) then [Path(nodes, edges, MaxHops)] else [], 0, true)
    {
      ghost var maxPaths, reasons0 := env.query.maxPaths, reasons;
      reasons := reasons + {MaxHopsReached};
      ghost var reasons1 := reasons;
      assert Visited(maxPaths, paths, reasons0, steps, paths, reasons, steps, [], 0, true);
      if env.query.destination.None? && (env.query.targets == {} || completion.Some?) {
        Emit(MaxHops);
        VisitedThen(maxPaths, old(paths), reasons0, steps, old(paths), reasons1, steps,
                    paths, reasons, steps, [], 0, true, [Path(nodes, edges, MaxHops)], 0, false);
      }
    }

    /** The second half of a visit: the followable neighbours of the last node. */
    method Extend(completion: Option<string>, emittedBoundary: bool)
      requires Valid() && !Limited(reasons)
      requires completion == RepositoryState(nodes, env.query.targets).completion
      requires emittedBoundary == EmitsBoundary(env, nodes)
      modifies this
      ensures Valid() && nodes == old(nodes) && edges == old(edges) && old(steps) <= steps
      ensures Visited(env.query.maxPaths, old(paths), old(reasons), old(steps),
                      paths, reasons, steps, Tail(env, nodes, edges),
                      TailCost(env, nodes, edges), TailCut(env, nodes, edges))
      decreases MAX_TRAVERSAL_STEPS - steps, 2
    {
      var neighbours := Neighbours(env, nodes);
      if |neighbours| > MAX_TRAVERSAL_STEPS - steps {
        reasons := reasons + {WorkLimit};
        return;
      }
      ghost var maxPaths, ns, es := env.query.maxPaths, nodes, edges;
      ghost var paths0, reasons0, steps0, count := paths, reasons, steps, |neighbours|;
      steps := steps + |neighbours|;
      ghost var steps1 := steps;
      assert Visited(maxPaths, paths0, reasons0, steps0, paths, reasons, steps, [], count, false);
      ghost var tail, cost, cut;
      if !HasExtension(nodes, neighbours) {
        EmitDead(completion, emittedBoundary, neighbours);
        tail, cost, cut := Dead(env, ns, es), 0, false;
      } else if |edges| == env.query.maxHops {
        EmitHopLimit(completion);
        tail, cost, cut := if OpenEnded(env, ns) then [Path(ns, es, MaxHops)] else [], 0, true;
      } else {
        VisitNeighbours(neighbours);
        tail, cost, cut := Branches(env, ns, es, neighbours),
          BranchesCost(env, ns, es, neighbours), BranchesCut(env, ns, es, neighbours);
      }
      VisitedThen(maxPaths, paths0, reasons0, steps0, paths0, reasons0, steps1,
                  paths, reasons, steps, [], count, false, tail, cost, cut);
      assert [] + tail == tail;
    }

    method VisitNeighbours(neighbours: seq<Step>)
      requires Valid() && |edges| < env.query.maxHops && !Limited(reasons)
      modifies this
      ensures Valid() && nodes == old(nodes) && edges == old(edges) && old(steps) <= steps
      ensures Visited(env.query.maxPaths, old(paths), old(reasons), old(steps),
                      paths, reasons, steps, Branches(env, nodes, edges, neighbours),
                      BranchesCost(env, nodes, edges, neighbours),
                      BranchesCut(env, nodes, edges, neighbours))
      decreases MAX_TRAVERSAL_STEPS - steps, 1
    {
      ghost var maxPaths, ns, es := env.query.maxPaths, nodes, edges;
      ghost var paths0, reasons0, steps0 := paths, reasons, steps;
      ghost var all, total, wasCut := Branches(env, ns, es, neighbours),
        BranchesCost(env, ns, es, neighbours), BranchesCut(env, ns, es, neighbours);
      var i := 0;
      assert neighbours[..0] == [];
      assert neighbours[..|neighbours|] == neighbours;
      while i < |neighbours|
        invariant 0 <= i <= |neighbours|
        invariant Valid() && nodes == ns && edges == es && !Limited(reasons)
        invariant steps0 <= steps
        invariant Visited(maxPaths, paths0, reasons0, steps0, paths, reasons, steps,
                          Branches(env, ns, es, neighbours[..i]),
                          BranchesCost(env, ns, es, neighbours[..i]),
                          BranchesCut(env, ns, es, neighbours[..i]))
        decreases |neighbours| - i
      {
        ghost var paths1, reasons1, steps1 := paths, reasons, steps;
        VisitNeighbour(neighbours[i]);
        NextBranch(env, ns, es, neighbours, i);
        VisitedThen(maxPaths, paths0, reasons0, steps0, paths1, reasons1, steps1,
                    paths, reasons, steps, Branches(env, ns, es, neighbours[..i]),
                    BranchesCost(env, ns, es, neighbours[..i]),
                    BranchesCut(env, ns, es, neighbours[..i]),
                    Branch(env, ns, es, neighbours[i]), BranchCost(env, ns, es, neighbours[i]),
                    BranchCut(env, ns, es, neighbours[i]));
        if MaxPathsReached in reasons || WorkLimit in reasons {
          BranchesGrow(env, ns, es, neighbours, i + 1);
          VisitedMore(maxPaths, paths0, reasons0, steps0, paths, reasons, steps,
                      Branches(env, ns, es, neighbours[..i + 1]),
                      BranchesCost(env, ns, es, neighbours[..i + 1]),
                      BranchesCut(env, ns, es, neighbours[..i + 1]), all, total, wasCut);
          return;
        }
        i := i + 1;
      }
    }

    /** One neighbour: skipped when already on the path, otherwise pushed, visited, popped. */
    method VisitNeighbour(step: Step)
      requires Valid() && |edges| < env.query.maxHops && !Limited(reasons)
      modifies this
      ensures Valid() && nodes == old(nodes) && edges == old(edges) && old(steps) <= steps
      ensures Visited(env.query.maxPaths, old(paths), old(reasons), old(steps),
                      paths, reasons, steps, Branch(env, nodes, edges, step),
                      BranchCost(env, nodes, edges, step), BranchCut(env, nodes, edges, step))
      decreases MAX_TRAVERSAL_STEPS - steps, 0
    {
      if steps == MAX_TRAVERSAL_STEPS {
        reasons := reasons + {WorkLimit};
        return;
      }
      ghost var maxPaths, ns, es := env.query.maxPaths, nodes, edges;
      ghost var paths0, reasons0, steps0 := paths, reasons, steps;
      steps := steps + 1;
      if step.to in nodes {
        return;
      }
      ghost var steps1 := steps;
      assert Visited(maxPaths, paths0, reasons0, steps0, paths, reasons, steps, [], 1, false);
      nodes, edges := nodes + [step.to], edges + [step.edge];
      Visit();
      nodes, edges := nodes[..|nodes| - 1], edges[..|edges| - 1];
      assert nodes == ns && edges == es;
      VisitedThen(maxPaths, paths0, reasons0, steps0, paths0, reasons0, steps1,
                  paths, reasons, steps, [], 1, false, Branch(env, ns, es, step),
                  Cost(env, ns + [step.to], es + [step.edge]), BranchCut(env, ns, es, step));
      assert [] + Branch(env, ns, es, step) == Branch(env, ns, es, step);
    }
  }
}
