/** Staged closure: frontier acquisition up to a hop limit with one probe row beyond it, then
    breadth-first distances over what was acquired. */
module Closure {
  import opened Graph
  import opened PathSearch
  import opened Acquisition
  import opened Edges

  // ---- trails ----------------------------------------------------------------------------

  ghost predicate Arc(keys: set<EdgeKey>, direction: Direction, a: Entity, b: Entity) {
    exists key :: key in keys && key.Source(direction) == a && key.Target(direction) == b
  }

  ghost predicate Hop(keys: set<EdgeKey>, direction: Direction, nodes: seq<Entity>, i: int) {
    0 < i < |nodes| && Arc(keys, direction, nodes[i - 1], nodes[i])
  }

  /** A walk along edges of `keys`, given by its nodes. */
  ghost predicate Trail(keys: set<EdgeKey>, direction: Direction, root: Entity,
                        nodes: seq<Entity>)
  {
    nodes != [] && nodes[0] == root &&
    forall i {:trigger Hop(keys, direction, nodes, i)} ::
      0 < i < |nodes| ==> Hop(keys, direction, nodes, i)
  }

  ghost predicate TrailTo(keys: set<EdgeKey>, direction: Direction, root: Entity, node: Entity,
                          hops: nat, nodes: seq<Entity>)
  {
    Trail(keys, direction, root, nodes) && nodes[|nodes| - 1] == node && |nodes| <= hops + 1
  }

  ghost predicate Within(keys: set<EdgeKey>, direction: Direction, root: Entity, node: Entity,
                         hops: nat)
  {
    exists nodes :: TrailTo(keys, direction, root, node, hops, nodes)
  }

  /** `hops` is the true distance: some trail is that long and none is shorter. */
  ghost predicate IsDistance(keys: set<EdgeKey>, direction: Direction, root: Entity, node: Entity,
                             hops: nat)
  {
    Within(keys, direction, root, node, hops) &&
    forall k: nat :: Within(keys, direction, root, node, k) ==> hops <= k
  }

  /** Something lies exactly one hop beyond the limit. */
  ghost predicate Beyond(keys: set<EdgeKey>, direction: Direction, root: Entity, limit: nat) {
    var next := limit + 1;
    exists node :: IsDistance(keys, direction, root, node, next)
  }

  lemma TrailPrefix(keys: set<EdgeKey>, direction: Direction, root: Entity, nodes: seq<Entity>)
    requires Trail(keys, direction, root, nodes) && |nodes| > 1
    ensures Trail(keys, direction, root, nodes[..|nodes| - 1])
  {
    var front := nodes[..|nodes| - 1];
    forall i | 0 < i < |front|
      ensures Hop(keys, direction, front, i)
    {
      assert Hop(keys, direction, nodes, i);
    }
  }

  lemma TrailExtend(keys: set<EdgeKey>, direction: Direction, root: Entity, nodes: seq<Entity>,
                    next: Entity)
    requires Trail(keys, direction, root, nodes)
    requires Arc(keys, direction, nodes[|nodes| - 1], next)
    ensures Trail(keys, direction, root, nodes + [next])
  {
    var longer := nodes + [next];
    forall i | 0 < i < |longer|
      ensures Hop(keys, direction, longer, i)
    {
      if i < |nodes| {
        assert Hop(keys, direction, nodes, i);
      }
    }
  }

  // ---- relaxed distance maps ---------------------------------------------------------------

  /** No edge out of a node nearer than `limit` leads further than one hop more. */
  ghost predicate Relaxed(keys: set<EdgeKey>, direction: Direction, root: Entity, limit: nat,
                          distance: map<Entity, nat>)
  {
    && root in distance && distance[root] == 0
    && forall a, b :: a in distance && distance[a] < limit && Arc(keys, direction, a, b) ==>
         b in distance && distance[b] <= distance[a] + 1
  }

  ghost predicate HasTrail(keys: set<EdgeKey>, direction: Direction, root: Entity, node: Entity,
                           hops: nat)
  {
    exists nodes :: Trail(keys, direction, root, nodes) && nodes[|nodes| - 1] == node
                    && |nodes| == hops + 1
  }

  /** Every recorded distance is the length of some trail. */
  ghost predicate Attained(keys: set<EdgeKey>, direction: Direction, root: Entity,
                           distance: map<Entity, nat>)
  {
    forall n :: n in distance ==> HasTrail(keys, direction, root, n, distance[n])
  }

  lemma {:induction false} TrailIsRelaxed(keys: set<EdgeKey>, direction: Direction, root: Entity,
                                          limit: nat, distance: map<Entity, nat>,
                                          nodes: seq<Entity>)
    requires Relaxed(keys, direction, root, limit, distance)
    requires Trail(keys, direction, root, nodes) && |nodes| <= limit + 1
    ensures nodes[|nodes| - 1] in distance && distance[nodes[|nodes| - 1]] <= |nodes| - 1
    decreases |nodes|
  {
    if |nodes| > 1 {
      assert Hop(keys, direction, nodes, |nodes| - 1);
      TrailPrefix(keys, direction, root, nodes);
      TrailIsRelaxed(keys, direction, root, limit, distance, nodes[..|nodes| - 1]);
    }
  }

  /** A relaxed and attained map holds exactly the true distances up to its limit. */
  lemma RelaxedIsExact(keys: set<EdgeKey>, direction: Direction, root: Entity, limit: nat,
                       distance: map<Entity, nat>, node: Entity)
    requires Relaxed(keys, direction, root, limit, distance)
    requires Attained(keys, direction, root, distance)
    requires forall n :: n in distance ==> distance[n] <= limit
    ensures node in distance <==> Within(keys, direction, root, node, limit)
    ensures node in distance ==> IsDistance(keys, direction, root, node, distance[node])
  {
    if node in distance {
      assert HasTrail(keys, direction, root, node, distance[node]);
      var nodes :| Trail(keys, direction, root, nodes) && nodes[|nodes| - 1] == node
                   && |nodes| == distance[node] + 1;
      assert TrailTo(keys, direction, root, node, distance[node], nodes);
      assert TrailTo(keys, direction, root, node, limit, nodes);
      forall k: nat | Within(keys, direction, root, node, k)
        ensures distance[node] <= k
      {
        if k < distance[node] {
          var other :| TrailTo(keys, direction, root, node, k, other);
          TrailIsRelaxed(keys, direction, root, limit, distance, other);
        }
      }
    } else if Within(keys, direction, root, node, limit) {
      var nodes :| TrailTo(keys, direction, root, node, limit, nodes);
      TrailIsRelaxed(keys, direction, root, limit, distance, nodes);
    }
  }

  /** Something lies beyond the limit exactly when an edge at the limit leaves the map. */
  lemma BeyondIsAnEdge(keys: set<EdgeKey>, direction: Direction, root: Entity, limit: nat,
                       distance: map<Entity, nat>)
    requires Relaxed(keys, direction, root, limit, distance)
    requires Attained(keys, direction, root, distance)
    requires forall n :: n in distance ==> distance[n] <= limit
    ensures Beyond(keys, direction, root, limit) <==> EdgeLeaves(keys, direction, limit, distance)
  {
    if Beyond(keys, direction, root, limit) {
      var node :| IsDistance(keys, direction, root, node, limit + 1);
      var nodes :| TrailTo(keys, direction, root, node, limit + 1, nodes);
      RelaxedIsExact(keys, direction, root, limit, distance, node);
      assert TrailTo(keys, direction, root, node, |nodes| - 1, nodes);
      TrailPrefix(keys, direction, root, nodes);
      TrailIsRelaxed(keys, direction, root, limit, distance, nodes[..|nodes| - 1]);
      assert Hop(keys, direction, nodes, |nodes| - 1);
      assert Leaves(keys, direction, limit, distance, nodes[|nodes| - 2], node);
    }
    if EdgeLeaves(keys, direction, limit, distance) {
      var a, b :| Leaves(keys, direction, limit, distance, a, b);
      assert HasTrail(keys, direction, root, a, distance[a]);
      var nodes :| Trail(keys, direction, root, nodes) && nodes[|nodes| - 1] == a
                   && |nodes| == distance[a] + 1;
      TrailExtend(keys, direction, root, nodes, b);
      assert TrailTo(keys, direction, root, b, limit + 1, nodes + [b]);
      RelaxedIsExact(keys, direction, root, limit, distance, b);
      forall k: nat | Within(keys, direction, root, b, k)
        ensures limit + 1 <= k
      {
        if k <= limit {
          var other :| TrailTo(keys, direction, root, b, k, other);
          assert TrailTo(keys, direction, root, b, limit, other);
        }
      }
      assert IsDistance(keys, direction, root, b, limit + 1);
    }
  }

  ghost predicate Leaves(keys: set<EdgeKey>, direction: Direction, limit: nat,
                         distance: map<Entity, nat>, a: Entity, b: Entity)
  {
    a in distance && distance[a] == limit && Arc(keys, direction, a, b) && b !in distance
  }

  ghost predicate EdgeLeaves(keys: set<EdgeKey>, direction: Direction, limit: nat,
                             distance: map<Entity, nat>)
  {
    exists a, b :: Leaves(keys, direction, limit, distance, a, b)
  }

  // ---- breadth-first distances -------------------------------------------------------------

  function Adjacent(edges: seq<EdgeKey>, direction: Direction, node: Entity): (nodes: seq<Entity>)
    ensures forall n :: n in nodes <==>
              exists e :: e in edges && e.Source(direction) == node && e.Target(direction) == n
  {
    if edges == [] then []
    else
      var rest := Adjacent(edges[..|edges| - 1], direction, node);
      var last := edges[|edges| - 1];
      assert edges == edges[..|edges| - 1] + [last];
      if last.Source(direction) == node then rest + [last.Target(direction)] else rest
  }

  function KeysOf(edges: seq<EdgeKey>): set<EdgeKey> {
    set e | e in edges
  }

  /** The queue of a breadth-first search: nearest first, and nothing recorded is more than one
      hop beyond its head. */
  ghost predicate Queued(queue: seq<Entity>, distance: map<Entity, nat>) {
    && (forall n :: n in queue ==> n in distance)
    && (forall i, j :: 0 <= i < j < |queue| ==>
          queue[i] != queue[j] && distance[queue[i]] <= distance[queue[j]])
    && (queue != [] ==> forall n :: n in distance ==> distance[n] <= distance[queue[0]] + 1)
  }

  /** Every recorded node that left the queue has been relaxed. */
  ghost predicate Searching(keys: set<EdgeKey>, direction: Direction, root: Entity, limit: nat,
                            queue: seq<Entity>, distance: map<Entity, nat>)
  {
    && Queued(queue, distance) && Attained(keys, direction, root, distance)
    && root in distance && distance[root] == 0
    && (forall n :: n in distance ==> distance[n] <= limit)
    && forall a, b | a in distance && a !in queue && distance[a] < limit
          && Arc(keys, direction, a, b) :: b in distance && distance[b] <= distance[a] + 1
  }

  /** A node found from the head joins the back of the queue. */
  lemma Enqueue(queue: seq<Entity>, distance: map<Entity, nat>, head: Entity, n: Entity)
    requires Queued([head] + queue, distance) && n !in distance
    ensures Queued([head] + queue + [n], distance[n := distance[head] + 1])
  {
  }

  lemma AttainNext(keys: set<EdgeKey>, direction: Direction, root: Entity,
                   distance: map<Entity, nat>, a: Entity, b: Entity)
    requires Attained(keys, direction, root, distance) && a in distance && b !in distance
    requires Arc(keys, direction, a, b)
    ensures Attained(keys, direction, root, distance[b := distance[a] + 1])
  {
    assert HasTrail(keys, direction, root, a, distance[a]);
    var nodes :| Trail(keys, direction, root, nodes) && nodes[|nodes| - 1] == a
                 && |nodes| == distance[a] + 1;
    TrailExtend(keys, direction, root, nodes, b);
    assert (nodes + [b])[|nodes + [b]| - 1] == b && |nodes + [b]| == distance[a] + 2;
    assert HasTrail(keys, direction, root, b, distance[a] + 1);
  }

  lemma DropHead(head: Entity, queue: seq<Entity>, distance: map<Entity, nat>)
    requires Queued([head] + queue, distance)
    ensures Queued(queue, distance) && head !in queue
    ensures forall n :: n in queue ==> distance[head] <= distance[n]
  {
    var all := [head] + queue;
    assert all[0] == head;
    forall i | 0 <= i < |queue|
      ensures queue[i] == all[i + 1] && queue[i] != head && distance[head] <= distance[queue[i]]
    {
    }
  }

  /** How far the neighbours `done` of the head have moved the queue and the distances. */
  ghost predicate Relaxes(keys: set<EdgeKey>, direction: Direction, root: Entity, head: Entity,
                          done: seq<Entity>, queue: seq<Entity>, distance: map<Entity, nat>,
                          queue': seq<Entity>, distance': map<Entity, nat>)
    requires head in distance
  {
    && Queued([head] + queue', distance')
    && Attained(keys, direction, root, distance')
    && (forall n :: n in distance ==> n in distance' && distance'[n] == distance[n])
    && (forall n :: n in distance' && n !in distance ==>
          n in queue' && n in done && distance'[n] == distance[head] + 1)
    && (forall n :: n in queue' ==> n in queue || n !in distance)
    && (forall n :: n in queue ==> n in queue')
    && (forall n :: n in done ==> n in distance')
    && (distance'.Keys == distance.Keys ==> queue' == queue)
  }

  lemma RelaxOne(keys: set<EdgeKey>, direction: Direction, root: Entity, head: Entity,
                 done: seq<Entity>, queue: seq<Entity>, distance: map<Entity, nat>,
                 queue': seq<Entity>, distance': map<Entity, nat>, n: Entity)
    requires head in distance
    requires Relaxes(keys, direction, root, head, done, queue, distance, queue', distance')
    requires Arc(keys, direction, head, n)
    ensures if n in distance' then
              Relaxes(keys, direction, root, head, done + [n], queue, distance, queue', distance')
            else
              Relaxes(keys, direction, root, head, done + [n], queue, distance, queue' + [n],
                      distance'[n := distance'[head] + 1])
  {
    if n !in distance' {
      Enqueue(queue', distance', head, n);
      AttainNext(keys, direction, root, distance', head, n);
      assert [head] + queue' + [n] == [head] + (queue' + [n]);
    }
  }

  /** Records and queues every neighbour of the head that has no distance yet. */
  method Relax(ghost keys: set<EdgeKey>, direction: Direction, root: Entity, limit: nat,
               head: Entity, neighbours: seq<Entity>, queue: seq<Entity>,
               distance: map<Entity, nat>)
    returns (queue': seq<Entity>, distance': map<Entity, nat>)
    requires Searching(keys, direction, root, limit, [head] + queue, distance)
    requires head in distance && distance[head] < limit
    requires forall n :: n in neighbours <==> Arc(keys, direction, head, n)
    ensures Searching(keys, direction, root, limit, queue', distance') && head !in queue'
    ensures Relaxes(keys, direction, root, head, neighbours, queue, distance, queue', distance')
  {
    queue', distance' := queue, distance;
    for i := 0 to |neighbours|
      invariant Relaxes(keys, direction, root, head, neighbours[..i], queue, distance,
                        queue', distance')
    {
      var n := neighbours[i];
      assert neighbours[..i + 1] == neighbours[..i] + [n];
      RelaxOne(keys, direction, root, head, neighbours[..i], queue, distance, queue', distance', n);
      if n !in distance' {
        distance', queue' := distance'[n := distance'[head] + 1], queue' + [n];
      }
    }
    assert neighbours[..|neighbours|] == neighbours;
    Relaxing(keys, direction, root, limit, head, neighbours, queue, distance, queue', distance');
  }

  lemma Relaxing(keys: set<EdgeKey>, direction: Direction, root: Entity, limit: nat, head: Entity,
                 neighbours: seq<Entity>, queue: seq<Entity>, distance: map<Entity, nat>,
                 queue': seq<Entity>, distance': map<Entity, nat>)
    requires Searching(keys, direction, root, limit, [head] + queue, distance)
    requires head in distance && distance[head] < limit
    requires forall n :: n in neighbours <==> Arc(keys, direction, head, n)
    requires Relaxes(keys, direction, root, head, neighbours, queue, distance, queue', distance')
    ensures Searching(keys, direction, root, limit, queue', distance')
    ensures head !in queue'
  {
    DropHead(head, queue', distance');
    forall a, b | a in distance' && a !in queue' && distance'[a] < limit
                  && Arc(keys, direction, a, b)
      ensures b in distance' && distance'[b] <= distance'[a] + 1
    {
      if a != head {
        assert a !in [head] + queue;
      }
    }
  }

  /** What `truncated` says so far: it is set by, and only by, a processed node at the limit
      with a neighbour that will never be recorded. */
  ghost predicate Reported(keys: set<EdgeKey>, direction: Direction, limit: nat,
                           queue: seq<Entity>, distance: map<Entity, nat>, truncated: bool)
  {
    && (forall n :: n in queue ==> n in distance)
    && (truncated ==> EdgeLeaves(keys, direction, limit, distance))
    && (truncated ==> forall n :: n in queue ==> distance[n] == limit)
    && (forall a, b | Leaves(keys, direction, limit, distance, a, b) && a !in queue :: truncated)
  }

  lemma ReportedAtLimit(keys: set<EdgeKey>, direction: Direction, root: Entity, limit: nat,
                        head: Entity, queue: seq<Entity>, distance: map<Entity, nat>,
                        truncated: bool, found: bool)
    requires Searching(keys, direction, root, limit, [head] + queue, distance)
    requires head in distance && distance[head] == limit
    requires Reported(keys, direction, limit, [head] + queue, distance, truncated)
    requires found <==> exists b :: Arc(keys, direction, head, b) && b !in distance
    ensures Searching(keys, direction, root, limit, queue, distance)
    ensures Reported(keys, direction, limit, queue, distance, truncated || found)
  {
    DropHead(head, queue, distance);
    if found {
      var b :| Arc(keys, direction, head, b) && b !in distance;
      assert Leaves(keys, direction, limit, distance, head, b);
    }
    forall a, b | Leaves(keys, direction, limit, distance, a, b) && a !in queue
      ensures truncated || found
    {
      if a != head {
        assert a !in [head] + queue;
      }
    }
  }

  lemma ReportedRelaxed(keys: set<EdgeKey>, direction: Direction, limit: nat, head: Entity,
                        queue: seq<Entity>, distance: map<Entity, nat>, queue': seq<Entity>,
                        distance': map<Entity, nat>, truncated: bool)
    requires Reported(keys, direction, limit, [head] + queue, distance, truncated)
    requires ([head] + queue)[0] == head && head in distance && distance[head] < limit
    requires forall n :: n in queue' ==> n in distance'
    requires forall n :: n in distance ==> n in distance' && distance'[n] == distance[n]
    requires forall n :: n in distance' && n !in distance ==> n in queue'
    requires forall n :: n in queue ==> n in queue'
    ensures Reported(keys, direction, limit, queue', distance', truncated)
  {
    assert head in [head] + queue;
    forall a, b | a !in queue'
      ensures Leaves(keys, direction, limit, distance', a, b) ==>
                Leaves(keys, direction, limit, distance, a, b) && a !in [head] + queue
    {
    }
  }

  ghost predicate IsUnderway(keys: set<EdgeKey>, direction: Direction, root: Entity, limit: nat,
                             queue: seq<Entity>, distance: map<Entity, nat>, truncated: bool,
                             underway: bool)
  {
    underway == (Searching(keys, direction, root, limit, queue, distance)
                 && Reported(keys, direction, limit, queue, distance, truncated))
  }

  /** The search between two nodes; said so that it unfolds only on demand. */
  ghost predicate Underway(keys: set<EdgeKey>, direction: Direction, root: Entity, limit: nat,
                           queue: seq<Entity>, distance: map<Entity, nat>, truncated: bool)
  {
    forall u {:trigger IsUnderway(keys, direction, root, limit, queue, distance, truncated, u)} ::
      IsUnderway(keys, direction, root, limit, queue, distance, truncated, u) ==> u
  }

  lemma UnderwayIs(keys: set<EdgeKey>, direction: Direction, root: Entity, limit: nat,
                   queue: seq<Entity>, distance: map<Entity, nat>, truncated: bool)
    ensures Underway(keys, direction, root, limit, queue, distance, truncated)
       <==> Searching(keys, direction, root, limit, queue, distance)
            && Reported(keys, direction, limit, queue, distance, truncated)
  {
    assert IsUnderway(keys, direction, root, limit, queue, distance, truncated,
                      Searching(keys, direction, root, limit, queue, distance)
                      && Reported(keys, direction, limit, queue, distance, truncated));
  }

  lemma SearchStarts(keys: set<EdgeKey>, direction: Direction, root: Entity, limit: nat)
    ensures Underway(keys, direction, root, limit, [root], map[root := 0], false)
  {
    RootAttained(keys, direction, root);
    UnderwayIs(keys, direction, root, limit, [root], map[root := 0], false);
  }

  /** Distances of everything within the limit, and whether anything lies just beyond it. */
  method Distances(root: Entity, edges: seq<EdgeKey>, limit: nat, direction: Direction)
    returns (distance: map<Entity, nat>, truncated: bool)
    ensures forall n :: n in distance <==> Within(KeysOf(edges), direction, root, n, limit)
    ensures forall n :: n in distance ==>
              IsDistance(KeysOf(edges), direction, root, n, distance[n])
    ensures truncated <==> Beyond(KeysOf(edges), direction, root, limit)
  {
    ghost var keys := KeysOf(edges);
    distance, truncated := map[root := 0], false;
    var queue := [root];
    SearchStarts(keys, direction, root, limit);
    ghost var universe := {root} + Targets(edges, direction);
    while queue != []
      invariant Underway(keys, direction, root, limit, queue, distance, truncated)
      invariant distance.Keys <= universe
      decreases universe - distance.Keys, |queue|
    {
      var from, rest := queue[0], queue[1..];
      assert [from] + rest == queue;
      queue, distance, truncated :=
        VisitNode(root, edges, limit, direction, from, rest, distance, truncated);
    }
    UnderwayIs(keys, direction, root, limit, queue, distance, truncated);
    Finished(keys, direction, root, limit, distance, truncated);
  }

  function Targets(edges: seq<EdgeKey>, direction: Direction): set<Entity> {
    set e | e in edges :: e.Target(direction)
  }

  /** One node leaves the queue: relaxed below the limit, only looked around at it. */
  method VisitNode(root: Entity, edges: seq<EdgeKey>, limit: nat, direction: Direction,
                   from: Entity, queue: seq<Entity>, distance: map<Entity, nat>, truncated: bool)
    returns (queue': seq<Entity>, distance': map<Entity, nat>, truncated': bool)
    requires Underway(KeysOf(edges), direction, root, limit, [from] + queue, distance, truncated)
    ensures Underway(KeysOf(edges), direction, root, limit, queue', distance', truncated')
    ensures distance.Keys <= distance'.Keys <= distance.Keys + Targets(edges, direction)
    ensures distance'.Keys == distance.Keys ==> |queue'| <= |queue|
  {
    ghost var keys := KeysOf(edges);
    UnderwayIs(keys, direction, root, limit, [from] + queue, distance, truncated);
    assert ([from] + queue)[0] == from;
    var neighbours := Adjacent(edges, direction, from);
    NeighboursAreArcs(edges, direction, from);
    queue', distance', truncated' := queue, distance, truncated;
    if distance[from] == limit {
      var found := exists n :: n in neighbours && n !in distance;
      ReportedAtLimit(keys, direction, root, limit, from, queue, distance, truncated, found);
      truncated' := truncated || found;
    } else {
      queue', distance' := Relax(keys, direction, root, limit, from, neighbours, queue, distance);
      ReportedRelaxed(keys, direction, limit, from, queue, distance, queue', distance', truncated);
    }
    UnderwayIs(keys, direction, root, limit, queue', distance', truncated');
  }

  lemma NeighboursAreArcs(edges: seq<EdgeKey>, direction: Direction, node: Entity)
    ensures forall n :: n in Adjacent(edges, direction, node) <==>
              Arc(KeysOf(edges), direction, node, n)
    ensures forall n :: n in Adjacent(edges, direction, node) ==>
              n in Targets(edges, direction)
  {
  }

  lemma Finished(keys: set<EdgeKey>, direction: Direction, root: Entity, limit: nat,
                 distance: map<Entity, nat>, truncated: bool)
    requires Searching(keys, direction, root, limit, [], distance)
    requires Reported(keys, direction, limit, [], distance, truncated)
    ensures forall n :: n in distance <==> Within(keys, direction, root, n, limit)
    ensures forall n :: n in distance ==> IsDistance(keys, direction, root, n, distance[n])
    ensures truncated <==> Beyond(keys, direction, root, limit)
  {
    assert Relaxed(keys, direction, root, limit, distance);
    forall n
      ensures n in distance <==> Within(keys, direction, root, n, limit)
      ensures n in distance ==> IsDistance(keys, direction, root, n, distance[n])
    {
      RelaxedIsExact(keys, direction, root, limit, distance, n);
    }
    BeyondIsAnEdge(keys, direction, root, limit, distance);
  }

  lemma RootAttained(keys: set<EdgeKey>, direction: Direction, root: Entity)
    ensures Attained(keys, direction, root, map[root := 0])
  {
    assert Trail(keys, direction, root, [root]);
    assert HasTrail(keys, direction, root, root, 0);
  }

  // ---- acquisition -------------------------------------------------------------------------

  /** Acquisition kept every edge out of a node nearer than the limit. */
  ghost predicate Kept(all: set<Row>, direction: Direction, limit: nat, rows: set<Row>,
                       level: map<Entity, nat>)
  {
    forall key | key in Keys(all) && key.Source(direction) in level
      && level[key.Source(direction)] < limit :: key in Keys(rows)
  }

  /** `level` serves both the relation and the acquired rows: same distances, same edges below
      the limit, same verdict on whether anything lies beyond it. */
  ghost predicate Serves(all: set<Row>, direction: Direction, root: Entity, limit: nat,
                         rows: set<Row>, level: map<Entity, nat>)
  {
    && rows <= all
    && (forall n :: n in level ==> level[n] <= limit)
    && Relaxed(Keys(all), direction, root, limit, level)
    && Attained(Keys(rows), direction, root, level)
    && Kept(all, direction, limit, rows, level)
    && (EdgeLeaves(Keys(all), direction, limit, level) ==>
          EdgeLeaves(Keys(rows), direction, limit, level))
  }

  ghost predicate ClosureAcquired(all: set<Row>, direction: Direction, root: Entity, limit: nat,
                                  rows: set<Row>)
  {
    exists level :: Serves(all, direction, root, limit, rows, level)
  }

  function ClosureQuery(root: Entity, direction: Direction, limit: nat): Query {
    Query(root, direction, None, {}, limit, 0)
  }

  lemma TrailGrows(keys: set<EdgeKey>, more: set<EdgeKey>, direction: Direction, root: Entity,
                   nodes: seq<Entity>)
    requires keys <= more && Trail(keys, direction, root, nodes)
    ensures Trail(more, direction, root, nodes)
  {
    forall i | 0 < i < |nodes|
      ensures Hop(more, direction, nodes, i)
    {
      assert Hop(keys, direction, nodes, i);
    }
  }

  lemma HasTrailGrows(keys: set<EdgeKey>, more: set<EdgeKey>, direction: Direction, root: Entity,
                      node: Entity, hops: nat)
    requires keys <= more && HasTrail(keys, direction, root, node, hops)
    ensures HasTrail(more, direction, root, node, hops)
  {
    var nodes :| Trail(keys, direction, root, nodes) && nodes[|nodes| - 1] == node
                 && |nodes| == hops + 1;
    TrailGrows(keys, more, direction, root, nodes);
  }

  /** A row that leads out of the known levels leaves a node of the ring. */
  lemma NewFromRing(all: set<Row>, direction: Direction, ring: set<Entity>, known: set<Entity>,
                    r: Row)
    requires r in AdjacentRows(all, ring, direction) && ring <= known
    requires r.Key().Target(direction) !in known
    ensures r in all && r.Key().Source(direction) in ring
  {
  }

  lemma RingAttained(all: set<Row>, query: Query, rows: set<Row>, result: set<Row>, hops: nat,
                     level: map<Entity, nat>, next: set<Entity>)
    requires Attained(Keys(rows), query.direction, query.start, level)
    requires result == AdjacentRows(all, Ring(level, hops), query.direction)
    requires next == (set r | r in result :: r.Key().Target(query.direction)) - level.Keys
    ensures Attained(Keys(rows + result), query.direction, query.start, Deeper(level, next, hops))
  {
    var keys, more := Keys(rows), Keys(rows + result);
    var level' := Deeper(level, next, hops);
    KeysGrow(rows, result);
    forall n | n in level'
      ensures HasTrail(more, query.direction, query.start, n, level'[n])
    {
      if n in level {
        HasTrailGrows(keys, more, query.direction, query.start, n, level[n]);
      } else {
        var r :| r in result && r.Key().Target(query.direction) == n;
        NewFromRing(all, query.direction, Ring(level, hops), level.Keys, r);
        var a := r.Key().Source(query.direction);
        assert HasTrail(keys, query.direction, query.start, a, hops);
        HasTrailGrows(keys, more, query.direction, query.start, a, hops);
        assert r in rows + result && r.Key() in more;
        LongerTrail(more, query.direction, query.start, a, n, hops);
      }
    }
  }

  lemma KeysGrow(rows: set<Row>, more: set<Row>)
    ensures Keys(rows) <= Keys(rows + more)
  {
  }

  lemma LongerTrail(keys: set<EdgeKey>, direction: Direction, root: Entity, a: Entity, b: Entity,
                    hops: nat)
    requires HasTrail(keys, direction, root, a, hops) && Arc(keys, direction, a, b)
    ensures HasTrail(keys, direction, root, b, hops + 1)
  {
    var nodes :| Trail(keys, direction, root, nodes) && nodes[|nodes| - 1] == a
                 && |nodes| == hops + 1;
    TrailExtend(keys, direction, root, nodes, b);
    assert (nodes + [b])[|nodes + [b]| - 1] == b;
  }

  lemma FrontierRelaxed(all: set<Row>, query: Query, rows: set<Row>, hops: nat,
                        level: map<Entity, nat>)
    requires query.destination.None? && Frontier(all, query, rows, hops, level)
    requires hops == query.maxHops || Ring(level, hops) == {}
    ensures Relaxed(Keys(all), query.direction, query.start, query.maxHops, level)
    ensures Kept(all, query.direction, query.maxHops, rows, level)
  {
    forall a, b | a in level && level[a] < query.maxHops && Arc(Keys(all), query.direction, a, b)
      ensures b in level && level[b] <= level[a] + 1
    {
      assert level[a] == hops ==> a in Ring(level, hops);
      assert Expanded(all, rows, query.direction, a);
      var key :| key in Keys(all) && key.Source(query.direction) == a
                 && key.Target(query.direction) == b;
      var r :| r in all && r.Key() == key;
      assert r in rows;
    }
    forall r | r in all && r.Key().Source(query.direction) in level
               && level[r.Key().Source(query.direction)] < query.maxHops
      ensures r.Key() in Keys(rows)
    {
      var a := r.Key().Source(query.direction);
      assert level[a] == hops ==> a in Ring(level, hops);
      assert Expanded(all, rows, query.direction, a);
      assert r in rows;
    }
  }

  /** The first row in order that leads somewhere new, if any does. */
  method Witness(result: set<Row>, visited: set<Entity>, direction: Direction)
    returns (rows: seq<Row>)
    ensures rows == [] ==> forall r :: r in result ==> r.Key().Target(direction) in visited
    ensures rows != [] ==>
              && rows[0] in result && rows[0].Key().Target(direction) !in visited
              && rows == [rows[0]]
  {
    var listing := SortedRows(result);
    for i := 0 to |listing|
      invariant forall k :: 0 <= k < i ==> listing[k].Key().Target(direction) in visited
    {
      if listing[i].Key().Target(direction) !in visited {
        return [listing[i]];
      }
    }
    return [];
  }

  lemma WitnessServes(all: set<Row>, query: Query, rows: set<Row>, level: map<Entity, nat>,
                      probe: seq<Row>)
    requires query.destination.None? && Frontier(all, query, rows, query.maxHops, level)
    requires Attained(Keys(rows), query.direction, query.start, level)
    requires var result := AdjacentRows(all, Ring(level, query.maxHops), query.direction);
             if probe == [] then
               forall r :: r in result ==> r.Key().Target(query.direction) in level
             else
               && probe[0] in result && probe[0].Key().Target(query.direction) !in level
               && probe == [probe[0]]
    ensures Serves(all, query.direction, query.start, query.maxHops,
                   rows + Elements(probe), level)
  {
    var ring := Ring(level, query.maxHops);
    var more := rows + Elements(probe);
    FrontierRelaxed(all, query, rows, query.maxHops, level);
    KeysGrow(rows, Elements(probe));
    forall n | n in level
      ensures HasTrail(Keys(more), query.direction, query.start, n, level[n])
    {
      HasTrailGrows(Keys(rows), Keys(more), query.direction, query.start, n, level[n]);
    }
    if probe != [] {
      var w := probe[0];
      NewFromRing(all, query.direction, ring, level.Keys, w);
      assert w in more && w.Key() in Keys(more);
      assert Leaves(Keys(more), query.direction, query.maxHops, level,
                    w.Key().Source(query.direction), w.Key().Target(query.direction));
    } else {
      forall a, b
        ensures !Leaves(Keys(all), query.direction, query.maxHops, level, a, b)
      {
        RingRowsStay(all, query.direction, ring, level.Keys, a, b);
      }
    }
  }

  lemma RingRowsStay(all: set<Row>, direction: Direction, ring: set<Entity>, known: set<Entity>,
                     a: Entity, b: Entity)
    requires forall r :: r in AdjacentRows(all, ring, direction) ==>
               r.Key().Target(direction) in known
    ensures a in ring && Arc(Keys(all), direction, a, b) ==> b in known
  {
  }

  ghost predicate IsGathering(all: set<Row>, query: Query, rows: set<Row>, hops: nat,
                              level: map<Entity, nat>, frontier: set<Entity>,
                              visited: set<Entity>, gathering: bool)
  {
    gathering == (&& query.destination.None?
                  && Frontier(all, query, rows, hops, level)
                  && Attained(Keys(rows), query.direction, query.start, level)
                  && visited == level.Keys && frontier == Ring(level, hops))
  }

  /** A closure acquisition about to expand the ring at `hops`; said so that it unfolds only on
      demand. */
  ghost predicate Gathering(all: set<Row>, query: Query, rows: set<Row>, hops: nat,
                            level: map<Entity, nat>, frontier: set<Entity>, visited: set<Entity>)
  {
    forall g {:trigger IsGathering(all, query, rows, hops, level, frontier, visited, g)} ::
      IsGathering(all, query, rows, hops, level, frontier, visited, g) ==> g
  }

  lemma GatheringIs(all: set<Row>, query: Query, rows: set<Row>, hops: nat,
                    level: map<Entity, nat>, frontier: set<Entity>, visited: set<Entity>)
    ensures Gathering(all, query, rows, hops, level, frontier, visited)
       <==> && query.destination.None?
            && Frontier(all, query, rows, hops, level)
            && Attained(Keys(rows), query.direction, query.start, level)
            && visited == level.Keys && frontier == Ring(level, hops)
  {
    assert IsGathering(all, query, rows, hops, level, frontier, visited,
                       && query.destination.None?
                       && Frontier(all, query, rows, hops, level)
                       && Attained(Keys(rows), query.direction, query.start, level)
                       && visited == level.Keys && frontier == Ring(level, hops));
  }

  lemma GatherStart(all: set<Row>, root: Entity, limit: nat, direction: Direction)
    ensures Gathering(all, ClosureQuery(root, direction, limit), {}, 0, map[root := 0],
                      {root}, {root})
  {
    RootAttained({}, direction, root);
    assert Keys({}) == {};
    GatheringIs(all, ClosureQuery(root, direction, limit), {}, 0, map[root := 0], {root}, {root});
  }

  lemma GatherStep(all: set<Row>, query: Query, rows: set<Row>, hops: nat,
                   level: map<Entity, nat>, frontier: set<Entity>, visited: set<Entity>,
                   next: set<Entity>)
    requires Gathering(all, query, rows, hops, level, frontier, visited)
    requires next == (set r | r in AdjacentRows(all, frontier, query.direction)
                            :: r.Key().Target(query.direction)) - visited
    ensures Gathering(all, query, rows + AdjacentRows(all, frontier, query.direction), hops + 1,
                      Deeper(level, next, hops), next, visited + next)
  {
    var result := AdjacentRows(all, frontier, query.direction);
    GatheringIs(all, query, rows, hops, level, frontier, visited);
    GatheringIs(all, query, rows + result, hops + 1, Deeper(level, next, hops), next, visited + next);
    RingExpanded(all, query, rows, result, hops, level, next);
    RingAttained(all, query, rows, result, hops, level, next);
  }

  /** The witness completes an acquisition at the hop limit. */
  lemma GatherEnds(all: set<Row>, query: Query, rows: set<Row>, level: map<Entity, nat>,
                   frontier: set<Entity>, visited: set<Entity>, probe: seq<Row>)
    requires Gathering(all, query, rows, query.maxHops, level, frontier, visited)
    requires var result := AdjacentRows(all, frontier, query.direction);
             if probe == [] then
               forall r :: r in result ==> r.Key().Target(query.direction) in visited
             else
               && probe[0] in result && probe[0].Key().Target(query.direction) !in visited
               && probe == [probe[0]]
    ensures ClosureAcquired(all, query.direction, query.start, query.maxHops,
                            rows + Elements(probe))
  {
    GatheringIs(all, query, rows, query.maxHops, level, frontier, visited);
    WitnessServes(all, query, rows, level, probe);
  }

  lemma GatherExhausts(all: set<Row>, query: Query, rows: set<Row>, hops: nat,
                       level: map<Entity, nat>, visited: set<Entity>)
    requires Gathering(all, query, rows, hops, level, {}, visited) && hops <= query.maxHops
    ensures ClosureAcquired(all, query.direction, query.start, query.maxHops, rows)
  {
    GatheringIs(all, query, rows, hops, level, {}, visited);
    ExhaustedServes(all, query, rows, hops, level);
  }

  method ClosureRows(all: set<Row>, root: Entity, limit: nat, direction: Direction)
    returns (rows: seq<Row>)
    ensures ClosureAcquired(all, direction, root, limit, Elements(rows))
  {
    ghost var query := ClosureQuery(root, direction, limit);
    var frontier, visited := {root}, {root};
    rows := [];
    ghost var level: map<Entity, nat>, acquired: set<Row> := map[root := 0], {};
    GatherStart(all, root, limit, direction);
    var hops := 0;
    while hops <= limit
      invariant hops <= limit && acquired == Elements(rows)
      invariant Gathering(all, query, acquired, hops, level, frontier, visited)
      decreases limit - hops
    {
      var result := AdjacentRows(all, frontier, direction);
      if hops == limit {
        var probe := Witness(result, visited, direction);
        GatherEnds(all, query, acquired, level, frontier, visited, probe);
        ElementsJoin(rows, probe);
        rows := rows + probe;
        return;
      }
      var listing := SortedRows(result);
      assert Elements(listing) == result;
      var next, known := Discover(listing, visited, direction);
      GatherStep(all, query, acquired, hops, level, frontier, visited, next);
      ElementsJoin(rows, listing);
      rows, acquired, level := rows + listing, acquired + result, Deeper(level, next, hops);
      visited, frontier := known, next;
      if next == {} {
        GatherExhausts(all, query, acquired, hops + 1, level, visited);
        return;
      }
      hops := hops + 1;
    }
  }

  lemma ElementsJoin(rows: seq<Row>, more: seq<Row>)
    ensures Elements(rows + more) == Elements(rows) + Elements(more)
  {
  }

  lemma ExhaustedServes(all: set<Row>, query: Query, rows: set<Row>, hops: nat,
                        level: map<Entity, nat>)
    requires query.destination.None? && Frontier(all, query, rows, hops, level)
    requires Attained(Keys(rows), query.direction, query.start, level)
    requires Ring(level, hops) == {} && hops <= query.maxHops
    ensures Serves(all, query.direction, query.start, query.maxHops, rows, level)
  {
    FrontierRelaxed(all, query, rows, hops, level);
    forall n | n in level
      ensures level[n] < query.maxHops
    {
      assert level[n] == hops ==> n in Ring(level, hops);
    }
  }

  // ---- the staged closure --------------------------------------------------------------------

  /** Acquired rows answer for the relation: membership, distance and what lies beyond. */
  lemma ClosureIsExact(all: set<Row>, direction: Direction, root: Entity, limit: nat,
                       rows: set<Row>)
    requires ClosureAcquired(all, direction, root, limit, rows)
    ensures forall n :: Within(Keys(rows), direction, root, n, limit)
                   <==> Within(Keys(all), direction, root, n, limit)
    ensures forall n, k: nat | k <= limit :: IsDistance(Keys(rows), direction, root, n, k)
                   <==> IsDistance(Keys(all), direction, root, n, k)
    ensures Beyond(Keys(rows), direction, root, limit) <==> Beyond(Keys(all), direction, root, limit)
  {
    var level :| Serves(all, direction, root, limit, rows, level);
    KeysGrow(rows, all);
    assert rows + all == all;
    AttainedGrows(Keys(rows), Keys(all), direction, root, level);
    ArcsGrow(Keys(rows), Keys(all), direction);
    assert Relaxed(Keys(rows), direction, root, limit, level);
    forall n
      ensures n in level <==> Within(Keys(all), direction, root, n, limit)
      ensures n in level <==> Within(Keys(rows), direction, root, n, limit)
      ensures n in level ==> IsDistance(Keys(all), direction, root, n, level[n])
      ensures n in level ==> IsDistance(Keys(rows), direction, root, n, level[n])
    {
      RelaxedIsExact(Keys(all), direction, root, limit, level, n);
      RelaxedIsExact(Keys(rows), direction, root, limit, level, n);
    }
    forall n, k: nat | k <= limit
      ensures IsDistance(Keys(rows), direction, root, n, k)
         <==> IsDistance(Keys(all), direction, root, n, k)
    {
      DistanceIsUnique(Keys(all), direction, root, limit, level, n, k);
      DistanceIsUnique(Keys(rows), direction, root, limit, level, n, k);
    }
    BeyondIsAnEdge(Keys(all), direction, root, limit, level);
    BeyondIsAnEdge(Keys(rows), direction, root, limit, level);
    if EdgeLeaves(Keys(rows), direction, limit, level) {
      var a, b :| Leaves(Keys(rows), direction, limit, level, a, b);
      assert Leaves(Keys(all), direction, limit, level, a, b);
    }
  }

  lemma AttainedGrows(keys: set<EdgeKey>, more: set<EdgeKey>, direction: Direction, root: Entity,
                      level: map<Entity, nat>)
    requires keys <= more && Attained(keys, direction, root, level)
    ensures Attained(more, direction, root, level)
  {
    forall n | n in level
      ensures HasTrail(more, direction, root, n, level[n])
    {
      HasTrailGrows(keys, more, direction, root, n, level[n]);
    }
  }

  lemma ArcsGrow(keys: set<EdgeKey>, more: set<EdgeKey>, direction: Direction)
    requires keys <= more
    ensures forall a, b :: Arc(keys, direction, a, b) ==> Arc(more, direction, a, b)
  {
  }

  lemma DistanceIsUnique(keys: set<EdgeKey>, direction: Direction, root: Entity, limit: nat,
                         level: map<Entity, nat>, n: Entity, k: nat)
    requires k <= limit
    requires n in level <==> Within(keys, direction, root, n, limit)
    requires n in level ==> IsDistance(keys, direction, root, n, level[n])
    ensures IsDistance(keys, direction, root, n, k) <==> n in level && level[n] == k
  {
    if Within(keys, direction, root, n, k) {
      var nodes :| TrailTo(keys, direction, root, n, k, nodes);
      assert TrailTo(keys, direction, root, n, limit, nodes);
    }
  }

  /** Dependencies and impact, end to end: the true distance in the whole relation of every
      entity within the limit, and whether anything lies exactly one hop beyond it. */
  method StagedClosure(all: set<Row>, root: Entity, limit: nat, direction: Direction)
    returns (distance: map<Entity, nat>, truncated: bool)
    ensures forall n :: n in distance <==> Within(Keys(all), direction, root, n, limit)
    ensures forall n :: n in distance ==> IsDistance(Keys(all), direction, root, n, distance[n])
    ensures truncated <==> Beyond(Keys(all), direction, root, limit)
  {
    var rows := ClosureRows(all, root, limit, direction);
    var edges := MergeEdges(rows);
    var keys := edges.Keys;
    assert keys == Keys(Elements(rows));
    var sorted := SortedKeys(keys);
    assert KeysOf(sorted) == keys;
    distance, truncated := Distances(root, sorted, limit, direction);
    ClosureIsExact(all, direction, root, limit, Elements(rows));
    forall n | n in distance
      ensures IsDistance(Keys(all), direction, root, n, distance[n])
    {
      assert Within(keys, direction, root, n, limit);
      assert distance[n] <= limit;
    }
  }
}
