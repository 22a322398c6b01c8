/** Path traversal without repository targets: acquisition and search against the whole graph. */
module Traverse {
  import opened Graph
  import opened PathSearch
  import opened Paths
  import opened Acquisition
  import opened Edges

  /** The search of the whole relation: nothing incomplete, every edge present. */
  ghost predicate WholeSearch(all: set<Row>, query: Query, whole: Env) {
    whole.query == query && whole.incomplete == {} && Holds(whole, Keys(all))
  }

  function WholeEnv(all: set<Row>, query: Query): (whole: Env)
    ensures WholeSearch(all, query, whole) && DistinctSteps(whole)
  {
    var whole := Env(query, Adjacency(Keys(all), query.direction), {}, {}, map[]);
    AdjacencyHolds(whole, Keys(all));
    whole
  }

  /** A search over the rows of an acquisition. */
  ghost predicate AcquiredSearch(all: set<Row>, query: Query, rows: set<Row>, env: Env) {
    && query.targets == {} && env.query == query
    && Acquired(all, query, rows, env.incomplete) && Holds(env, Keys(rows))
  }

  lemma Untargeted(env: Env, nodes: seq<Entity>)
    requires env.query.targets == {} && nodes != []
    ensures !AtContract(env, nodes) && !EmitsBoundary(env, nodes)
    ensures forall next :: CanFollow(env, nodes, next)
    ensures OpenEnded(env, nodes) <==> env.query.destination.None?
  {
    NoCompletionWithoutTargets(nodes);
  }

  /** Hops along a walk never exceed its length. */
  lemma {:induction false} WalkLevels(all: set<Row>, query: Query, rows: set<Row>, env: Env,
                                      level: map<Entity, nat>, nodes: seq<Entity>,
                                      edges: seq<EdgeKey>, i: nat)
    requires query.targets == {} && env.query == query
    requires Levels(all, query, rows, env.incomplete, level) && Holds(env, Keys(rows))
    requires IsWalk(env, nodes, edges) && i < |nodes|
    ensures nodes[i] in level && level[nodes[i]] <= i
    decreases i
  {
    if i > 0 {
      WalkLevels(all, query, rows, env, level, nodes, edges, i - 1);
      assert Leg(env, nodes, edges, i - 1);
      var r :| r in rows && r.Key() == edges[i - 1];
    }
  }

  lemma WalkIsWhole(all: set<Row>, query: Query, rows: set<Row>, env: Env, whole: Env,
                    nodes: seq<Entity>, edges: seq<EdgeKey>)
    requires AcquiredSearch(all, query, rows, env) && WholeSearch(all, query, whole)
    requires IsWalk(env, nodes, edges)
    ensures IsWalk(whole, nodes, edges)
  {
    forall i | 0 <= i < |edges|
      ensures Leg(whole, nodes, edges, i)
    {
      assert Leg(env, nodes, edges, i);
      Untargeted(whole, nodes[..i + 1]);
    }
  }

  /** Where a walk ends at a node that was expanded, both searches see the same neighbours. */
  lemma SameNeighbours(all: set<Row>, query: Query, rows: set<Row>, env: Env, whole: Env,
                       nodes: seq<Entity>)
    requires AcquiredSearch(all, query, rows, env) && WholeSearch(all, query, whole)
    requires nodes != [] && Expanded(all, rows, query.direction, Last(nodes))
    ensures forall s :: s in Neighbours(env, nodes) <==> s in Neighbours(whole, nodes)
    ensures HasExtension(nodes, Neighbours(env, nodes))
       <==> HasExtension(nodes, Neighbours(whole, nodes))
    ensures Neighbours(env, nodes) == [] <==> Neighbours(whole, nodes) == []
  {
  }

  /** Whatever the row cap cut, every emitted path is a path the unbounded search emits with
      the same termination, and a leaf or a cycle ends where everything was acquired. */
  lemma AcquisitionSound(all: set<Row>, query: Query, rows: set<Row>, env: Env, whole: Env,
                         path: Path)
    requires AcquiredSearch(all, query, rows, env) && WholeSearch(all, query, whole)
    requires Emits(env, path)
    ensures Emits(whole, path)
    ensures path.termination.Leaf? || path.termination.Cycle? ==>
              Expanded(all, rows, query.direction, Last(path.nodes))
  {
    var nodes, edges := path.nodes, path.edges;
    var level :| Levels(all, query, rows, env.incomplete, level);
    WalkLevels(all, query, rows, env, level, nodes, edges, |edges|);
    WalkIsWhole(all, query, rows, env, whole, nodes, edges);
    Untargeted(env, nodes);
    Untargeted(whole, nodes);
    if path.termination.Leaf? || path.termination.Cycle? {
      SameNeighbours(all, query, rows, env, whole, nodes);
    } else if path.termination.MaxHops? {
      var s :| s in Neighbours(env, nodes) && s.to !in nodes;
      assert s in Neighbours(whole, nodes);
    }
  }

  lemma {:induction false} WholeWalkIsAcquired(all: set<Row>, query: Query, rows: set<Row>,
                                               env: Env, whole: Env, nodes: seq<Entity>,
                                               edges: seq<EdgeKey>, i: nat)
    requires AcquiredSearch(all, query, rows, env) && WholeSearch(all, query, whole)
    requires env.incomplete == {} && IsWalk(whole, nodes, edges) && i <= |edges|
    ensures IsWalk(env, nodes[..i + 1], edges[..i])
    decreases i
  {
    if i > 0 {
      WholeWalkIsAcquired(all, query, rows, env, whole, nodes, edges, i - 1);
      var ns, es := nodes[..i], edges[..i - 1];
      var level :| Levels(all, query, rows, env.incomplete, level);
      WalkLevels(all, query, rows, env, level, ns, es, i - 1);
      assert Leg(whole, nodes, edges, i - 1);
      assert nodes[..i - 1 + 1] == ns;
      Untargeted(env, ns);
      assert Expanded(all, rows, query.direction, nodes[i - 1]);
      var step := Step(nodes[i], edges[i - 1]);
      assert step in Out(env, Last(ns));
      WalkGrows(env, ns, es, step);
      assert ns + [nodes[i]] == nodes[..i + 1] && es + [edges[i - 1]] == edges[..i];
    }
  }

  /** An acquisition that met no row cap searches exactly like the whole graph. */
  lemma AcquisitionExact(all: set<Row>, query: Query, rows: set<Row>, env: Env, whole: Env,
                         path: Path)
    requires AcquiredSearch(all, query, rows, env) && WholeSearch(all, query, whole)
    requires env.incomplete == {}
    ensures Emits(env, path) <==> Emits(whole, path)
  {
    if Emits(env, path) {
      AcquisitionSound(all, query, rows, env, whole, path);
    }
    if Emits(whole, path) {
      var nodes, edges := path.nodes, path.edges;
      WholeWalkIsAcquired(all, query, rows, env, whole, nodes, edges, |edges|);
      assert nodes[..|edges| + 1] == nodes && edges[..|edges|] == edges;
      var level :| Levels(all, query, rows, env.incomplete, level);
      WalkLevels(all, query, rows, env, level, nodes, edges, |edges|);
      Untargeted(env, nodes);
      Untargeted(whole, nodes);
      if !AtDestination(whole, Last(nodes)) {
        SameNeighbours(all, query, rows, env, whole, nodes);
      }
    }
  }

  /** The merged edges of an acquisition carry all the evidence the relation has for them. */
  lemma WholeEvidenceMerged(all: set<Row>, rows: seq<Row>, key: EdgeKey, data: EdgeData)
    requires Elements(rows) <= all && WholeEvidence(all, Elements(rows))
    requires Merged(rows, key, data)
    ensures key in Keys(all)
    ensures data.evidence == set r | r in all && r.Key() == key :: (r.evidence, r.provenance)
  {
  }

  method AcquireUnfiltered(all: set<Row>, query: Query)
    returns (edges: map<EdgeKey, EdgeData>, env: Env)
    requires query.targets == {}
    ensures DistinctSteps(env)
    ensures exists rows :: AcquiredSearch(all, query, rows, env)
    ensures forall key :: key in edges ==>
              && key in Keys(all)
              && edges[key].evidence
                 == (set r | r in all && r.Key() == key :: (r.evidence, r.provenance))
  {
    var rows, incomplete := MultipathRows(all, query);
    edges := MergeEdges(rows);
    ghost var acquired := Elements(rows);
    assert edges.Keys == Keys(acquired);
    var adjacent := BuildAdjacency(edges.Keys, query.direction);
    env := Env(query, adjacent, incomplete, {}, map[]);
    AdjacencyHolds(env, edges.Keys);
    assert AcquiredSearch(all, query, acquired, env);
    forall key | key in edges
      ensures key in Keys(all)
      ensures edges[key].evidence
           == (set r | r in all && r.Key() == key :: (r.evidence, r.provenance))
    {
      WholeEvidenceMerged(all, rows, key, edges[key]);
    }
  }

  /** The unfiltered traversal, end to end: its edges keep whole evidence, its paths are paths
      of the whole graph, and with no limit reported they are all of them. */
  method TraverseUnfiltered(all: set<Row>, query: Query)
    returns (edges: map<EdgeKey, EdgeData>, paths: seq<Path>, reasons: set<TruncationReason>)
    requires query.targets == {}
    ensures Distinct(paths) && |paths| <= query.maxPaths
    ensures forall p :: p in paths ==> Emits(WholeEnv(all, query), p)
    ensures !Limited(reasons) && AcquisitionLimit !in reasons ==>
              forall p :: Emits(WholeEnv(all, query), p) ==> p in paths
    ensures MaxPathsReached in reasons ==>
              |paths| == query.maxPaths && exists p :: Emits(WholeEnv(all, query), p) && p !in paths
    ensures forall key :: key in edges ==>
              && key in Keys(all)
              && edges[key].evidence
                 == (set r | r in all && r.Key() == key :: (r.evidence, r.provenance))
  {
    var env;
    edges, env := AcquireUnfiltered(all, query);
    ghost var rows :| AcquiredSearch(all, query, rows, env);
    paths, reasons := Search(env);
    SearchesAgree(all, query, rows, env);
  }

  lemma SearchesAgree(all: set<Row>, query: Query, rows: set<Row>, env: Env)
    requires AcquiredSearch(all, query, rows, env)
    ensures forall p :: Emits(env, p) ==> Emits(WholeEnv(all, query), p)
    ensures env.incomplete == {} ==> forall p :: Emits(WholeEnv(all, query), p) ==> Emits(env, p)
  {
    var whole := WholeEnv(all, query);
    forall p | Emits(env, p)
      ensures Emits(whole, p)
    {
      AcquisitionSound(all, query, rows, env, whole, p);
    }
    if env.incomplete == {} {
      forall p | Emits(whole, p)
        ensures Emits(env, p)
      {
        AcquisitionExact(all, query, rows, env, whole, p);
      }
    }
  }
}
