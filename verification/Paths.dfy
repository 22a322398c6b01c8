/** What the ordered enumeration contains, said path by path, and the search proved against it. */
module Paths {
  import opened Graph
  import opened PathSearch

  function Last(nodes: seq<Entity>): Entity
    requires nodes != []
  {
    nodes[|nodes| - 1]
  }

  /** Leg `i` leaves a node the search expands, for a followable node not yet on the path. */
  predicate Leg(env: Env, nodes: seq<Entity>, edges: seq<EdgeKey>, i: nat)
    requires |nodes| == |edges| + 1 && i < |edges|
  {
    && Step(nodes[i + 1], edges[i]) in Out(env, nodes[i])
    && CanFollow(env, nodes[..i + 1], nodes[i + 1])
    && nodes[i + 1] !in nodes[..i + 1]
    && !AtDestination(env, nodes[i])
    && !AtContract(env, nodes[..i + 1])
  }

  predicate IsWalk(env: Env, nodes: seq<Entity>, edges: seq<EdgeKey>) {
    && |nodes| == |edges| + 1 && |edges| <= env.query.maxHops
    && nodes[0] == env.query.start
    && forall i :: 0 <= i < |edges| ==> Leg(env, nodes, edges, i)
  }

  /** The ways a walk can end, each with exactly the condition that earns its label. */
  predicate Ends(env: Env, nodes: seq<Entity>, edges: seq<EdgeKey>, termination: Termination)
    requires nodes != []
  {
    if termination.Destination? then AtDestination(env, Last(nodes))
    else
      && !AtDestination(env, Last(nodes))
      && match termination
         case RepositoryBoundary =>
           if AtContract(env, nodes) then Last(nodes) !in env.incomplete
           else EmitsBoundary(env, nodes)
         case Leaf => Stuck(env, nodes) && Neighbours(env, nodes) == []
         case Cycle => Stuck(env, nodes) && Neighbours(env, nodes) != []
         case MaxHops =>
           && !AtContract(env, nodes) && OpenEnded(env, nodes)
           && |edges| == env.query.maxHops && HasExtension(nodes, Neighbours(env, nodes))
         case Destination => false
  }

  predicate Stuck(env: Env, nodes: seq<Entity>)
    requires nodes != []
  {
    && !AtContract(env, nodes) && OpenEnded(env, nodes) && !EmitsBoundary(env, nodes)
    && Last(nodes) !in env.incomplete && !HasExtension(nodes, Neighbours(env, nodes))
  }

  predicate Emits(env: Env, path: Path) {
    IsWalk(env, path.nodes, path.edges) && Ends(env, path.nodes, path.edges, path.termination)
  }

  predicate Extends(path: Path, nodes: seq<Entity>, edges: seq<EdgeKey>) {
    nodes <= path.nodes && edges <= path.edges
  }

  // ---- the enumeration is exactly the emitted paths ----------------------------------------

  lemma WalkGrows(env: Env, nodes: seq<Entity>, edges: seq<EdgeKey>, step: Step)
    requires IsWalk(env, nodes, edges) && |edges| < env.query.maxHops
    requires step in Neighbours(env, nodes) && step.to !in nodes
    requires !AtDestination(env, Last(nodes)) && !AtContract(env, nodes)
    ensures IsWalk(env, nodes + [step.to], edges + [step.edge])
  {
    var ns, es := nodes + [step.to], edges + [step.edge];
    forall i | 0 <= i < |es|
      ensures Leg(env, ns, es, i)
    {
      assert ns[..i + 1] == nodes[..i + 1];
      if i < |edges| {
        assert Leg(env, nodes, edges, i);
      } else {
        assert nodes[..i + 1] == nodes;
      }
    }
  }

  lemma {:induction false} EnumerateSound(env: Env, nodes: seq<Entity>, edges: seq<EdgeKey>,
                                          path: Path)
    requires IsWalk(env, nodes, edges) && path in Enumerate(env, nodes, edges)
    ensures Emits(env, path) && Extends(path, nodes, edges)
    decreases env.query.maxHops - |edges|, 1
  {
    if !AtDestination(env, Last(nodes)) && !AtContract(env, nodes)
       && path !in Head(env, nodes, edges) && HasExtension(nodes, Neighbours(env, nodes))
       && |edges| < env.query.maxHops {
      BranchesSound(env, nodes, edges, Neighbours(env, nodes), path);
    }
  }

  lemma {:induction false} BranchesSound(env: Env, nodes: seq<Entity>, edges: seq<EdgeKey>,
                                         steps: seq<Step>, path: Path)
    requires IsWalk(env, nodes, edges) && |edges| < env.query.maxHops
    requires !AtDestination(env, Last(nodes)) && !AtContract(env, nodes)
    requires forall s :: s in steps ==> s in Neighbours(env, nodes)
    requires path in Branches(env, nodes, edges, steps)
    ensures Emits(env, path) && Extends(path, nodes, edges)
    ensures |path.edges| > |edges|
    ensures Step(path.nodes[|nodes|], path.edges[|edges|]) in steps
    decreases env.query.maxHops - |edges|, 0, |steps|
  {
    var last := steps[|steps| - 1];
    if path in Branch(env, nodes, edges, last) {
      WalkGrows(env, nodes, edges, last);
      EnumerateSound(env, nodes + [last.to], edges + [last.edge], path);
      assert (nodes + [last.to])[|nodes|] == last.to && (edges + [last.edge])[|edges|] == last.edge;
    } else {
      BranchesSound(env, nodes, edges, steps[..|steps| - 1], path);
    }
  }

  lemma {:induction false} EnumerateComplete(env: Env, nodes: seq<Entity>, edges: seq<EdgeKey>,
                                             path: Path)
    requires IsWalk(env, nodes, edges) && Emits(env, path) && Extends(path, nodes, edges)
    ensures path in Enumerate(env, nodes, edges)
    decreases env.query.maxHops - |edges|
  {
    if |path.edges| == |edges| {
      assert path.nodes == nodes && path.edges == edges;
      EndsHere(env, nodes, edges, path.termination);
    } else {
      var step := NextStep(env, nodes, edges, path);
      WalkGrows(env, nodes, edges, step);
      EnumerateComplete(env, nodes + [step.to], edges + [step.edge], path);
      InBranches(env, nodes, edges, Neighbours(env, nodes), step, path);
    }
  }

  lemma EndsHere(env: Env, nodes: seq<Entity>, edges: seq<EdgeKey>, termination: Termination)
    requires nodes != [] && |edges| <= env.query.maxHops && Ends(env, nodes, edges, termination)
    ensures Path(nodes, edges, termination) in Enumerate(env, nodes, edges)
  {
  }

  lemma NextStep(env: Env, nodes: seq<Entity>, edges: seq<EdgeKey>, path: Path)
    returns (step: Step)
    requires IsWalk(env, nodes, edges) && IsWalk(env, path.nodes, path.edges)
    requires Extends(path, nodes, edges) && |path.edges| > |edges|
    ensures step in Neighbours(env, nodes) && step.to !in nodes
    ensures !AtDestination(env, Last(nodes)) && !AtContract(env, nodes)
    ensures Extends(path, nodes + [step.to], edges + [step.edge])
  {
    var i := |edges|;
    assert Leg(env, path.nodes, path.edges, i);
    assert path.nodes[..i + 1] == nodes;
    step := Step(path.nodes[i + 1], path.edges[i]);
  }

  lemma {:induction false} InBranches(env: Env, nodes: seq<Entity>, edges: seq<EdgeKey>,
                                      steps: seq<Step>, step: Step, path: Path)
    requires nodes != [] && |edges| < env.query.maxHops && step in steps
    requires path in Branch(env, nodes, edges, step)
    ensures path in Branches(env, nodes, edges, steps)
    decreases |steps|
  {
    if step != steps[|steps| - 1] {
      InBranches(env, nodes, edges, steps[..|steps| - 1], step, path);
    }
  }

  /** The enumeration from the start lists exactly the emitted paths. */
  lemma EnumerationIsEmitted(env: Env, path: Path)
    ensures path in Enumerate(env, [env.query.start], []) <==> Emits(env, path)
  {
    assert IsWalk(env, [env.query.start], []);
    if path in Enumerate(env, [env.query.start], []) {
      EnumerateSound(env, [env.query.start], [], path);
    }
    if Emits(env, path) {
      EnumerateComplete(env, [env.query.start], [], path);
    }
  }

  // ---- no path is emitted twice -------------------------------------------------------------

  predicate Distinct<T(==)>(xs: seq<T>) {
    forall i, j :: 0 <= i < j < |xs| ==> xs[i] != xs[j]
  }

  lemma DistinctConcat<T>(xs: seq<T>, ys: seq<T>)
    requires Distinct(xs) && Distinct(ys) && forall x, y :: x in xs && y in ys ==> x != y
    ensures Distinct(xs + ys)
  {
    forall i, j | 0 <= i < j < |xs + ys|
      ensures (xs + ys)[i] != (xs + ys)[j]
    {
      if i < |xs| <= j {
        assert xs[i] in xs && ys[j - |xs|] in ys;
      }
    }
  }

  /** No adjacency list names one edge to one node twice. */
  ghost predicate DistinctSteps(env: Env) {
    forall node :: node in env.adjacent ==> Distinct(env.adjacent[node])
  }

  lemma {:induction false} FollowableDistinct(env: Env, nodes: seq<Entity>, steps: seq<Step>)
    requires Distinct(steps)
    ensures Distinct(Followable(env, nodes, steps))
    decreases |steps|
  {
    if steps != [] {
      FollowableDistinct(env, nodes, steps[..|steps| - 1]);
      assert steps[|steps| - 1] !in steps[..|steps| - 1];
    }
  }

  lemma {:induction false} EnumerateDistinct(env: Env, nodes: seq<Entity>, edges: seq<EdgeKey>)
    requires IsWalk(env, nodes, edges) && DistinctSteps(env)
    ensures Distinct(Enumerate(env, nodes, edges))
    decreases env.query.maxHops - |edges|, 1
  {
    if !AtDestination(env, Last(nodes)) && !AtContract(env, nodes)
       && HasExtension(nodes, Neighbours(env, nodes)) && |edges| < env.query.maxHops {
      var neighbours := Neighbours(env, nodes);
      FollowableDistinct(env, nodes, Out(env, Last(nodes)));
      BranchesDistinct(env, nodes, edges, neighbours);
      var branches := Branches(env, nodes, edges, neighbours);
      forall path | path in branches
        ensures |path.edges| > |edges|
      {
        BranchesSound(env, nodes, edges, neighbours, path);
      }
    }
  }

  lemma {:induction false} BranchesDistinct(env: Env, nodes: seq<Entity>, edges: seq<EdgeKey>,
                                            steps: seq<Step>)
    requires IsWalk(env, nodes, edges) && |edges| < env.query.maxHops && DistinctSteps(env)
    requires !AtDestination(env, Last(nodes)) && !AtContract(env, nodes)
    requires Distinct(steps) && forall s :: s in steps ==> s in Neighbours(env, nodes)
    ensures Distinct(Branches(env, nodes, edges, steps))
    decreases env.query.maxHops - |edges|, 0, |steps|
  {
    if steps != [] {
      var last, front := steps[|steps| - 1], steps[..|steps| - 1];
      BranchesDistinct(env, nodes, edges, front);
      if last.to !in nodes {
        WalkGrows(env, nodes, edges, last);
        EnumerateDistinct(env, nodes + [last.to], edges + [last.edge]);
        forall a, b | a in Branches(env, nodes, edges, front) && b in Branch(env, nodes, edges, last)
          ensures a != b
        {
          BranchesSound(env, nodes, edges, front, a);
          BranchesSound(env, nodes, edges, [last], b) by {
            assert [last][..0] == [];
          }
          assert last !in front;
        }
      }
      DistinctConcat(Branches(env, nodes, edges, front), Branch(env, nodes, edges, last));
    }
  }

  // ---- the hop limit is reported exactly when it cut something ------------------------------

  /** A walk that used every hop and could still be extended. */
  predicate CutWalk(env: Env, nodes: seq<Entity>, edges: seq<EdgeKey>) {
    && IsWalk(env, nodes, edges) && |edges| == env.query.maxHops
    && !AtDestination(env, Last(nodes)) && !AtContract(env, nodes)
    && HasExtension(nodes, Neighbours(env, nodes))
  }

  lemma {:induction false} CutSound(env: Env, nodes: seq<Entity>, edges: seq<EdgeKey>)
    requires IsWalk(env, nodes, edges) && CutByHops(env, nodes, edges)
    ensures exists ns, es :: CutWalk(env, ns, es)
    decreases env.query.maxHops - |edges|
  {
    if |edges| == env.query.maxHops {
      assert CutWalk(env, nodes, edges);
    } else {
      var step := CutBranch(env, nodes, edges, Neighbours(env, nodes));
      WalkGrows(env, nodes, edges, step);
      CutSound(env, nodes + [step.to], edges + [step.edge]);
    }
  }

  lemma {:induction false} CutBranch(env: Env, nodes: seq<Entity>, edges: seq<EdgeKey>,
                                     steps: seq<Step>) returns (step: Step)
    requires nodes != [] && |edges| < env.query.maxHops
    requires BranchesCut(env, nodes, edges, steps)
    ensures step in steps && BranchCut(env, nodes, edges, step)
    decreases |steps|
  {
    step := steps[|steps| - 1];
    if !BranchCut(env, nodes, edges, step) {
      step := CutBranch(env, nodes, edges, steps[..|steps| - 1]);
    }
  }

  lemma {:induction false} CutComplete(env: Env, nodes: seq<Entity>, edges: seq<EdgeKey>,
                                       ns: seq<Entity>, es: seq<EdgeKey>)
    requires IsWalk(env, nodes, edges) && CutWalk(env, ns, es) && nodes <= ns && edges <= es
    ensures CutByHops(env, nodes, edges)
    decreases env.query.maxHops - |edges|
  {
    if |edges| == env.query.maxHops {
      assert nodes == ns && edges == es;
    } else {
      var step := NextStep(env, nodes, edges, Path(ns, es, MaxHops));
      WalkGrows(env, nodes, edges, step);
      CutComplete(env, nodes + [step.to], edges + [step.edge], ns, es);
      BranchIsCut(env, nodes, edges, Neighbours(env, nodes), step);
    }
  }

  lemma {:induction false} BranchIsCut(env: Env, nodes: seq<Entity>, edges: seq<EdgeKey>,
                                       steps: seq<Step>, step: Step)
    requires nodes != [] && |edges| < env.query.maxHops
    requires step in steps && BranchCut(env, nodes, edges, step)
    ensures BranchesCut(env, nodes, edges, steps)
    decreases |steps|
  {
    if step != steps[|steps| - 1] {
      BranchIsCut(env, nodes, edges, steps[..|steps| - 1], step);
    }
  }

  lemma CutIsReported(env: Env)
    ensures CutByHops(env, [env.query.start], []) <==> exists ns, es :: CutWalk(env, ns, es)
  {
    if CutByHops(env, [env.query.start], []) {
      CutSound(env, [env.query.start], []);
    }
    if ns, es :| CutWalk(env, ns, es) {
      CutComplete(env, [env.query.start], [], ns, es);
    }
  }

  // ---- the search method against the declarative reading -------------------------------------

  /** The first `maxPaths` paths of the enumeration, and what each truncation reason means.
      `WorkLimit` is exact unless the path cap stopped the search first. */
  method Search(env: Env) returns (paths: seq<Path>, reasons: set<TruncationReason>)
    requires DistinctSteps(env)
    ensures Distinct(paths) && |paths| <= env.query.maxPaths
    ensures forall p :: p in paths ==> Emits(env, p)
    ensures paths <= Enumerate(env, [env.query.start], [])
    ensures !Limited(reasons) ==> forall p :: Emits(env, p) ==> p in paths
    ensures MaxPathsReached in reasons ==>
              |paths| == env.query.maxPaths && exists p :: Emits(env, p) && p !in paths
    ensures MaxPathsReached !in reasons ==>
              (WorkLimit in reasons <==>
               Cost(env, [env.query.start], []) > MAX_TRAVERSAL_STEPS)
    ensures !Limited(reasons) ==>
              (MaxHopsReached in reasons <==> exists ns, es :: CutWalk(env, ns, es))
    ensures AcquisitionLimit in reasons <==> env.incomplete != {}
  {
    var search := new PathSearch(env);
    search.Visit();
    paths, reasons := search.paths, search.reasons;
    ghost var all := Enumerate(env, [env.query.start], []);
    EnumerateDistinct(env, [env.query.start], []);
    forall p
      ensures p in all <==> Emits(env, p)
    {
      EnumerationIsEmitted(env, p);
    }
    CutIsReported(env);
    if |paths| < |all| {
      assert all[|paths|] !in paths;
    }
  }

  // ---- readings of the declarative form -------------------------------------------------------

  /** With a destination, the search emits exactly the bounded simple paths that reach it. */
  lemma DestinationSearch(env: Env, path: Path)
    requires env.query.destination.Some? && env.query.targets == {}
    ensures Emits(env, path) <==>
              && path.termination == Destination
              && |path.nodes| == |path.edges| + 1 && |path.edges| <= env.query.maxHops
              && path.nodes[0] == env.query.start && Distinct(path.nodes)
              && Last(path.nodes) == env.query.destination.value
              && forall i :: 0 <= i < |path.edges| ==>
                   Step(path.nodes[i + 1], path.edges[i]) in Out(env, path.nodes[i])
  {
    var nodes, edges := path.nodes, path.edges;
    forall ns: seq<Entity>
      ensures RepositoryState(ns, {}).completion.None?
    {
      NoCompletionWithoutTargets(ns);
    }
    if Emits(env, path) {
      forall i, j | 0 <= i < j < |nodes|
        ensures nodes[i] != nodes[j]
      {
        assert Leg(env, nodes, edges, j - 1);
        assert nodes[i] in nodes[..j];
      }
      forall i | 0 <= i < |edges|
        ensures Step(nodes[i + 1], edges[i]) in Out(env, nodes[i])
      {
        assert Leg(env, nodes, edges, i);
      }
    }
  }

  lemma {:induction false} CompletionStays(nodes: seq<Entity>, targets: set<string>, j: nat)
    requires j <= |nodes| && RepositoryState(nodes[..j], targets).completion.Some?
    ensures RepositoryState(nodes, targets).completion
         == RepositoryState(nodes[..j], targets).completion
    decreases |nodes|
  {
    if j < |nodes| {
      assert nodes[..|nodes| - 1][..j] == nodes[..j];
      CompletionStays(nodes[..|nodes| - 1], targets, j);
    } else {
      assert nodes[..j] == nodes;
    }
  }

  /** Where a path stood when its targets were complete, if they are. */
  lemma {:induction false} CompletionPoint(nodes: seq<Entity>, targets: set<string>)
    returns (k: nat)
    requires RepositoryState(nodes, targets).completion.Some?
    ensures k < |nodes|
    ensures RepositoryState(nodes[..k], targets).completion.None?
    ensures RepositoryState(nodes[..k + 1], targets)
         == Progress(targets, TargetRepository(nodes[k], targets))
    ensures TargetRepository(nodes[k], targets) == RepositoryState(nodes, targets).completion
    decreases |nodes|
  {
    var front := nodes[..|nodes| - 1];
    if RepositoryState(front, targets).completion.Some? {
      k := CompletionPoint(front, targets);
      assert front[..k] == nodes[..k] && front[..k + 1] == nodes[..k + 1];
    } else {
      k := |nodes| - 1;
      assert nodes[..k + 1] == nodes;
    }
  }

  lemma {:induction false} VisitedIsEntered(nodes: seq<Entity>, targets: set<string>, t: string)
    ensures t in RepositoryState(nodes, targets).visited <==>
              exists i :: 0 <= i < |nodes| && TargetRepository(nodes[i], targets) == Some(t)
    decreases |nodes|
  {
    if nodes != [] {
      var front := nodes[..|nodes| - 1];
      VisitedIsEntered(front, targets, t);
      if i :| 0 <= i < |front| && TargetRepository(front[i], targets) == Some(t) {
        assert TargetRepository(nodes[i], targets) == Some(t);
      }
      if i :| 0 <= i < |nodes| && TargetRepository(nodes[i], targets) == Some(t) {
        assert i < |front| ==> TargetRepository(front[i], targets) == Some(t);
      }
    }
  }

  /** With repository targets and no destination, every emitted path enters every target; after
      the entry that completes the set it stays in that repository, but for one final node
      that no repository owns. */
  lemma TargetSearch(env: Env, path: Path) returns (k: nat)
    requires env.query.destination.None? && env.query.targets != {} && Emits(env, path)
    ensures k < |path.nodes|
    ensures forall t :: t in env.query.targets ==>
              exists i :: 0 <= i <= k && TargetRepository(path.nodes[i], env.query.targets) == Some(t)
    ensures TargetRepository(path.nodes[k], env.query.targets).Some?
    ensures forall i :: k < i < |path.nodes| ==>
              || TargetRepository(path.nodes[i], env.query.targets)
                 == TargetRepository(path.nodes[k], env.query.targets)
              || (i == |path.nodes| - 1 && !IsRepositoryOwned(path.nodes[i])
                  && path.termination == RepositoryBoundary)
  {
    var nodes, targets := path.nodes, env.query.targets;
    k := CompletionPoint(nodes, targets);
    forall t | t in targets
      ensures exists i :: 0 <= i <= k && TargetRepository(nodes[i], targets) == Some(t)
    {
      VisitedIsEntered(nodes[..k + 1], targets, t);
      var i :| 0 <= i < k + 1 && TargetRepository(nodes[..k + 1][i], targets) == Some(t);
      assert TargetRepository(nodes[i], targets) == Some(t);
    }
    forall i | k < i < |nodes|
      ensures || TargetRepository(nodes[i], targets) == TargetRepository(nodes[k], targets)
              || (i == |nodes| - 1 && !IsRepositoryOwned(nodes[i])
                  && path.termination == RepositoryBoundary)
    {
      AfterCompletion(env, nodes, path.edges, k, i);
      if !IsRepositoryOwned(nodes[i]) {
        ContractIsLast(env, path, i);
      }
    }
  }

  /** A walk cannot go on from a contract, and ends there as a repository boundary. */
  lemma ContractIsLast(env: Env, path: Path, i: nat)
    requires env.query.destination.None? && Emits(env, path) && i < |path.nodes|
    requires AtContract(env, path.nodes[..i + 1])
    ensures i == |path.nodes| - 1 && path.termination == RepositoryBoundary
  {
    assert i < |path.edges| ==> Leg(env, path.nodes, path.edges, i);
    assert i == |path.edges|;
    assert path.nodes[..i + 1] == path.nodes;
  }

  lemma AfterCompletion(env: Env, nodes: seq<Entity>, edges: seq<EdgeKey>, k: nat, i: nat)
    requires env.query.targets != {} && IsWalk(env, nodes, edges) && k < i < |nodes|
    requires RepositoryState(nodes[..k + 1], env.query.targets).completion
          == TargetRepository(nodes[k], env.query.targets)
    requires TargetRepository(nodes[k], env.query.targets).Some?
    ensures IsRepositoryOwned(nodes[i]) ==>
              (TargetRepository(nodes[i], env.query.targets)
               == TargetRepository(nodes[k], env.query.targets))
    ensures !IsRepositoryOwned(nodes[i]) ==> AtContract(env, nodes[..i + 1])
  {
    var targets := env.query.targets;
    assert CanFollow(env, nodes[..i], nodes[i]) by {
      assert Leg(env, nodes, edges, i - 1);
    }
    assert nodes[..i][..k + 1] == nodes[..k + 1] == nodes[..i + 1][..k + 1];
    CompletionStays(nodes[..i], targets, k + 1);
    CompletionStays(nodes[..i + 1], targets, k + 1);
  }

  lemma {:induction false} NoCompletionWithoutTargets(nodes: seq<Entity>)
    ensures RepositoryState(nodes, {}).completion.None?
    decreases |nodes|
  {
    if nodes != [] {
      NoCompletionWithoutTargets(nodes[..|nodes| - 1]);
    }
  }
}
