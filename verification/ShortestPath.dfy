/** The trace between two entities: breadth-first search over key-ordered edges, stopped at the
    first discovery of the destination, and the walk back along recorded parents. */
module ShortestPath {
  import opened Order
  import opened Graph
  import opened PathSearch
  import opened Acquisition
  import opened Edges
  import opened Closure

  // ---- shorter first, then least node by node --------------------------------------------------

  ghost predicate DiffersAt(a: seq<Entity>, b: seq<Entity>, i: nat) {
    i < |a| && i < |b| && a[..i] == b[..i] && StringLess(a[i], b[i])
  }

  ghost predicate NodesLess(a: seq<Entity>, b: seq<Entity>) {
    exists i: nat :: DiffersAt(a, b, i)
  }

  ghost predicate Shortlex(a: seq<Entity>, b: seq<Entity>) {
    |a| < |b| || (|a| == |b| && NodesLess(a, b))
  }

  ghost predicate AtMost(a: seq<Entity>, b: seq<Entity>) {
    a == b || Shortlex(a, b)
  }

  lemma NodesLessExtend(a: seq<Entity>, b: seq<Entity>, x: Entity, y: Entity)
    requires |a| == |b| && NodesLess(a, b)
    ensures NodesLess(a + [x], b + [y])
  {
    var i: nat :| DiffersAt(a, b, i);
    assert (a + [x])[..i] == a[..i] && (b + [y])[..i] == b[..i];
    assert DiffersAt(a + [x], b + [y], i);
  }

  lemma ShortlexExtend(a: seq<Entity>, b: seq<Entity>, x: Entity, y: Entity)
    requires Shortlex(a, b)
    ensures Shortlex(a + [x], b + [y])
  {
    if |a| == |b| {
      NodesLessExtend(a, b, x, y);
    }
  }

  lemma ShortlexLast(a: seq<Entity>, x: Entity, y: Entity)
    requires StringLess(x, y)
    ensures Shortlex(a + [x], a + [y])
  {
    assert (a + [x])[..|a|] == a && (a + [y])[..|a|] == a;
    assert DiffersAt(a + [x], a + [y], |a|);
  }

  lemma NodesLessTransitive(a: seq<Entity>, b: seq<Entity>, c: seq<Entity>)
    requires |a| == |b| == |c| && NodesLess(a, b) && NodesLess(b, c)
    ensures NodesLess(a, c)
  {
    var i: nat :| DiffersAt(a, b, i);
    var j: nat :| DiffersAt(b, c, j);
    var k := if i < j then i else j;
    assert a[..k] == a[..i][..k] && b[..k] == b[..i][..k] == b[..j][..k] && c[..k] == c[..j][..k];
    if i == j {
      StringLessTransitive(a[i], b[i], c[i]);
    } else if i < j {
      assert b[..j][i] == c[..j][i];
    } else {
      assert a[..i][j] == b[..i][j];
    }
    assert DiffersAt(a, c, k);
  }

  lemma ShortlexTransitive(a: seq<Entity>, b: seq<Entity>, c: seq<Entity>)
    requires AtMost(a, b) && AtMost(b, c)
    ensures AtMost(a, c)
  {
    if |a| == |b| == |c| && a != b && b != c {
      NodesLessTransitive(a, b, c);
    }
  }

  lemma ShortlexIrreflexive(a: seq<Entity>, b: seq<Entity>)
    requires Shortlex(a, b)
    ensures !AtMost(b, a)
  {
    if AtMost(b, a) {
      var i: nat :| DiffersAt(a, b, i);
      if a == b {
        StringLessTotal(a[i], b[i]);
      } else {
        NodesLessTransitive(a, b, a);
        var j: nat :| DiffersAt(a, a, j);
        StringLessTotal(a[j], a[j]);
      }
    }
  }

  // ---- the trails of a search, in order of discovery ---------------------------------------------

  function End(trail: seq<Entity>): Entity {
    if trail == [] then "" else trail[|trail| - 1]
  }

  function Front(trail: seq<Entity>): seq<Entity> {
    if trail == [] then [] else trail[..|trail| - 1]
  }

  ghost predicate OutTrail(keys: set<EdgeKey>, from: Entity, trail: seq<Entity>) {
    Trail(keys, Outgoing, from, trail)
  }

  /** `trail` is the shortest, and among the shortest the least, of all that lead where it does. */
  ghost predicate Best(keys: set<EdgeKey>, from: Entity, trail: seq<Entity>) {
    && OutTrail(keys, from, trail)
    && forall other {:trigger AtMost(trail, other)} ::
         OutTrail(keys, from, other) && End(other) == End(trail) ==> AtMost(trail, other)
  }

  ghost predicate Knows(found: seq<seq<Entity>>, node: Entity) {
    exists i :: 0 <= i < |found| && End(found[i]) == node
  }

  ghost predicate OnTrail(found: seq<seq<Entity>>, heads: nat, trail: seq<Entity>) {
    exists i :: 0 <= i < |found| && i < heads && found[i] == Front(trail)
  }

  ghost predicate InOrder(found: seq<seq<Entity>>) {
    forall i, j {:trigger Shortlex(found[i], found[j])} ::
      0 <= i < j < |found| ==> Shortlex(found[i], found[j])
  }

  ghost predicate AllBest(keys: set<EdgeKey>, from: Entity, found: seq<seq<Entity>>) {
    forall i {:trigger Best(keys, from, found[i])} ::
      0 <= i < |found| ==> Best(keys, from, found[i])
  }

  /** Every trail but the first continues one of the first `heads` trails. */
  ghost predicate Continues(found: seq<seq<Entity>>, heads: nat) {
    && (forall j :: 0 < j < |found| ==> |found[j]| > 1)
    && (forall j {:trigger OnTrail(found, heads, found[j])} ::
          0 < j < |found| ==> OnTrail(found, heads, found[j]))
  }

  /** Best trails, least first, each continuing an earlier one that left the queue. */
  ghost predicate Ranked(keys: set<EdgeKey>, from: Entity, heads: nat, found: seq<seq<Entity>>) {
    && found != [] && found[0] == [from]
    && AllBest(keys, from, found) && InOrder(found) && Continues(found, heads)
  }

  /** The edges out of the first `heads` trails that are not at the limit lead to known nodes. */
  ghost predicate Expanded(keys: set<EdgeKey>, limit: nat, heads: nat, found: seq<seq<Entity>>) {
    forall i, v {:trigger Arc(keys, Outgoing, End(found[i]), v)} ::
      (0 <= i < |found| && i < heads && |found[i]| <= limit
       && Arc(keys, Outgoing, End(found[i]), v)) ==> Knows(found, v)
  }

  ghost predicate Passed(found: seq<seq<Entity>>, heads: nat, node: Entity) {
    exists i :: 0 <= i < |found| && i < heads && End(found[i]) == node
  }

  /** The head's trail is at most any trail to a node that has not left the queue. */
  lemma {:induction false} HeadIsLeast(keys: set<EdgeKey>, from: Entity, limit: nat, k: nat,
                                       found: seq<seq<Entity>>, trail: seq<Entity>)
    requires k < |found| && |found[k]| <= limit
    requires found[0] == [from] && AllBest(keys, from, found) && InOrder(found)
    requires Expanded(keys, limit, k, found)
    requires OutTrail(keys, from, trail) && !Passed(found, k, End(trail))
    ensures AtMost(found[k], trail)
    decreases |trail|
  {
    if Knows(found, End(trail)) {
      var i :| 0 <= i < |found| && End(found[i]) == End(trail);
      assert Best(keys, from, found[i]);
      ShortlexTransitive(found[k], found[i], trail);
    } else {
      var front := Front(trail);
      assert End(found[0]) == from;
      TrailPrefix(keys, Outgoing, from, trail);
      assert Hop(keys, Outgoing, trail, |trail| - 1);
      NotPassed(keys, limit, k, found, End(front), End(trail));
      HeadIsLeast(keys, from, limit, k, found, front);
    }
  }

  /** What leads to an unknown node has not left the queue. */
  lemma NotPassed(keys: set<EdgeKey>, limit: nat, k: nat, found: seq<seq<Entity>>, u: Entity,
                  v: Entity)
    requires k < |found| && |found[k]| <= limit && InOrder(found)
    requires Expanded(keys, limit, k, found)
    requires Arc(keys, Outgoing, u, v) && !Knows(found, v)
    ensures !Passed(found, k, u)
  {
    forall i | 0 <= i < k
      ensures |found[i]| <= limit
    {
      assert Shortlex(found[i], found[k]);
    }
  }

  lemma NewIsBest(keys: set<EdgeKey>, from: Entity, limit: nat, k: nat, found: seq<seq<Entity>>,
                  v: Entity)
    requires k < |found| && |found[k]| <= limit && Ranked(keys, from, k + 1, found)
    requires Expanded(keys, limit, k, found)
    requires Arc(keys, Outgoing, End(found[k]), v) && !Knows(found, v)
    ensures Best(keys, from, found[k] + [v])
  {
    assert Best(keys, from, found[k]);
    TrailExtend(keys, Outgoing, from, found[k], v);
    forall other | OutTrail(keys, from, other) && End(other) == v
      ensures AtMost(found[k] + [v], other)
    {
      var front := Front(other);
      assert End(found[0]) == from;
      assert other == front + [v];
      TrailPrefix(keys, Outgoing, from, other);
      assert Hop(keys, Outgoing, other, |other| - 1);
      NotPassed(keys, limit, k, found, End(front), v);
      HeadIsLeast(keys, from, limit, k, found, front);
      if found[k] != front {
        ShortlexExtend(found[k], front, v, v);
      }
    }
  }

  /** Nodes already found from the head come before `v`. */
  ghost predicate Younger(found: seq<seq<Entity>>, k: nat, v: Entity)
    requires k < |found|
  {
    forall j :: 0 < j < |found| && Front(found[j]) == found[k] ==> StringLess(End(found[j]), v)
  }

  lemma NewIsLast(from: Entity, k: nat, found: seq<seq<Entity>>, v: Entity, j: nat)
    requires k < |found| && found[0] == [from] && found[k] != []
    requires InOrder(found) && Continues(found, k + 1) && Younger(found, k, v)
    requires j < |found|
    ensures Shortlex(found[j], found[k] + [v])
  {
    if j > 0 {
      assert OnTrail(found, k + 1, found[j]);
      var i :| 0 <= i < |found| && i < k + 1 && found[i] == Front(found[j]);
      assert found[j] == found[i] + [End(found[j])];
      if i == k {
        ShortlexLast(found[k], End(found[j]), v);
      } else {
        ShortlexExtend(found[i], found[k], End(found[j]), v);
      }
    }
  }

  lemma NewInOrder(from: Entity, k: nat, found: seq<seq<Entity>>, v: Entity)
    requires k < |found| && found[0] == [from] && found[k] != []
    requires InOrder(found) && Continues(found, k + 1) && Younger(found, k, v)
    ensures InOrder(found + [found[k] + [v]])
  {
    forall j: nat | j < |found|
      ensures Shortlex(found[j], found[k] + [v])
    {
      NewIsLast(from, k, found, v, j);
    }
  }

  lemma NewContinues(k: nat, found: seq<seq<Entity>>, v: Entity)
    requires k < |found| && found[k] != [] && Continues(found, k + 1)
    ensures Continues(found + [found[k] + [v]], k + 1)
  {
    var trail := found[k] + [v];
    var more := found + [trail];
    assert more[k] == Front(trail);
    assert OnTrail(more, k + 1, trail);
    forall j | 0 < j < |found|
      ensures |more[j]| > 1 && OnTrail(more, k + 1, more[j])
    {
      assert OnTrail(found, k + 1, found[j]);
      var i :| 0 <= i < |found| && i < k + 1 && found[i] == Front(found[j]);
      assert more[i] == Front(more[j]);
    }
  }

  lemma StillExpanded(keys: set<EdgeKey>, limit: nat, k: nat, found: seq<seq<Entity>>,
                      trail: seq<Entity>)
    requires k < |found| && Expanded(keys, limit, k, found)
    ensures Expanded(keys, limit, k, found + [trail])
  {
    var more := found + [trail];
    KnowsMore(found, trail);
    forall i, n | 0 <= i < |more| && i < k && |more[i]| <= limit
                  && Arc(keys, Outgoing, End(more[i]), n)
      ensures Knows(more, n)
    {
      assert more[i] == found[i];
    }
  }

  lemma Discovered(keys: set<EdgeKey>, from: Entity, limit: nat, k: nat, found: seq<seq<Entity>>,
                   v: Entity)
    requires k < |found| && |found[k]| <= limit && Ranked(keys, from, k + 1, found)
    requires Expanded(keys, limit, k, found)
    requires Arc(keys, Outgoing, End(found[k]), v) && !Knows(found, v) && Younger(found, k, v)
    ensures Ranked(keys, from, k + 1, found + [found[k] + [v]])
    ensures Expanded(keys, limit, k, found + [found[k] + [v]])
  {
    assert Best(keys, from, found[k]);
    NewIsBest(keys, from, limit, k, found, v);
    NewInOrder(from, k, found, v);
    NewContinues(k, found, v);
    StillExpanded(keys, limit, k, found, found[k] + [v]);
  }

  lemma KnowsMore(found: seq<seq<Entity>>, trail: seq<Entity>)
    ensures forall n :: Knows(found + [trail], n) <==> Knows(found, n) || n == End(trail)
  {
    var more := found + [trail];
    forall n
      ensures Knows(more, n) <==> Knows(found, n) || n == End(trail)
    {
      if Knows(found, n) {
        var i :| 0 <= i < |found| && End(found[i]) == n;
        assert End(more[i]) == n;
      } else if n == End(trail) {
        assert End(more[|found|]) == n;
      }
    }
  }

  // ---- the recorded state -------------------------------------------------------------------------

  type Parents = map<Entity, (Entity, EdgeKey)>

  /** The first edge in key order between its two nodes. */
  ghost predicate FirstEdge(keys: set<EdgeKey>, edge: EdgeKey) {
    && edge in keys
    && forall e | e in keys && e.from == edge.from && e.to == edge.to ::
         e == edge || KeyLess(edge, e)
  }

  /** What the search recorded for the node at the end of a trail. */
  ghost predicate Records(keys: set<EdgeKey>, trail: seq<Entity>, distance: map<Entity, nat>,
                          parents: Parents)
  {
    && trail != [] && End(trail) in distance && distance[End(trail)] == |trail| - 1
    && (|trail| > 1 ==>
          && End(trail) in parents
          && var (u, edge) := parents[End(trail)];
             u == End(Front(trail)) && edge.from == u && edge.to == End(trail)
             && FirstEdge(keys, edge))
  }

  function Ends(found: seq<seq<Entity>>): seq<Entity> {
    seq(|found|, i requires 0 <= i < |found| => End(found[i]))
  }

  /** Distances, parents and queue hold exactly the found trails, queued from `heads` on. */
  ghost predicate Matches(keys: set<EdgeKey>, heads: nat, found: seq<seq<Entity>>,
                          queue: seq<Entity>, distance: map<Entity, nat>, parents: Parents)
  {
    && heads <= |found| && queue == Ends(found)[heads..]
    && (forall i {:trigger Records(keys, found[i], distance, parents)} ::
          0 <= i < |found| ==> Records(keys, found[i], distance, parents))
    && (forall n {:trigger Knows(found, n)} :: n in distance <==> Knows(found, n))
  }

  lemma MatchesMore(keys: set<EdgeKey>, heads: nat, found: seq<seq<Entity>>, queue: seq<Entity>,
                    distance: map<Entity, nat>, parents: Parents, u: Entity, edge: EdgeKey,
                    trail: seq<Entity>)
    requires Matches(keys, heads, found, queue, distance, parents)
    requires trail != [] && End(trail) == u && FirstEdge(keys, edge) && edge.from == u
    requires edge.to !in distance
    ensures Matches(keys, heads, found + [trail + [edge.to]], queue + [edge.to],
                    distance[edge.to := |trail|], parents[edge.to := (u, edge)])
  {
    var longer := trail + [edge.to];
    assert Front(longer) == trail;
    KnowsMore(found, longer);
    assert Ends(found + [longer]) == Ends(found) + [edge.to];
    forall i | 0 <= i < |found|
      ensures Records(keys, found[i], distance[edge.to := |trail|],
                      parents[edge.to := (u, edge)])
    {
      assert Records(keys, found[i], distance, parents);
    }
  }

  /** A search about to take trail `k` as its head. `truncated` is set exactly when an earlier
      head at the limit had an unknown neighbour. */
  ghost predicate Underway(keys: set<EdgeKey>, from: Entity, limit: nat, k: nat,
                           found: seq<seq<Entity>>)
  {
    && Ranked(keys, from, k, found) && Expanded(keys, limit, k, found)
    && (forall i :: 0 <= i < |found| ==> |found[i]| <= limit + 1)
  }

  ghost predicate LeavesFrom(keys: set<EdgeKey>, limit: nat, found: seq<seq<Entity>>, i: int) {
    0 <= i < |found| && |found[i]| == limit + 1 &&
    exists v :: Arc(keys, Outgoing, End(found[i]), v) && !Knows(found, v)
  }

  ghost predicate Truncated(keys: set<EdgeKey>, limit: nat, k: nat, found: seq<seq<Entity>>) {
    exists i :: i < k && LeavesFrom(keys, limit, found, i)
  }

  lemma AtLimit(keys: set<EdgeKey>, from: Entity, limit: nat, k: nat, found: seq<seq<Entity>>,
                leaves: bool)
    requires Underway(keys, from, limit, k, found)
    requires k < |found| && |found[k]| == limit + 1
    requires leaves <==> exists v :: Arc(keys, Outgoing, End(found[k]), v) && !Knows(found, v)
    ensures Underway(keys, from, limit, k + 1, found)
    ensures Truncated(keys, limit, k + 1, found) <==> Truncated(keys, limit, k, found) || leaves
  {
    MoreHeads(keys, from, k, found);
    if leaves {
      assert LeavesFrom(keys, limit, found, k);
    }
    if Truncated(keys, limit, k + 1, found) {
      var i :| i < k + 1 && LeavesFrom(keys, limit, found, i);
    }
  }

  lemma MoreHeads(keys: set<EdgeKey>, from: Entity, k: nat, found: seq<seq<Entity>>)
    requires Ranked(keys, from, k, found)
    ensures Ranked(keys, from, k + 1, found)
  {
    forall j | 0 < j < |found|
      ensures OnTrail(found, k + 1, found[j])
    {
      assert OnTrail(found, k, found[j]);
    }
  }

  // ---- relaxing a head ----------------------------------------------------------------------------

  function OutEdges(edges: seq<EdgeKey>, node: Entity): (out: seq<EdgeKey>)
    ensures forall e :: e in out <==> e in edges && e.from == node
  {
    if edges == [] then []
    else
      var rest := OutEdges(edges[..|edges| - 1], node);
      var last := edges[|edges| - 1];
      if last.from == node then rest + [last] else rest
  }

  lemma {:induction false} OutEdgesSorted(edges: seq<EdgeKey>, node: Entity)
    requires Sorted(edges, KeyLess)
    ensures Sorted(OutEdges(edges, node), KeyLess)
    decreases |edges|
  {
    if edges != [] {
      var front, last := edges[..|edges| - 1], edges[|edges| - 1];
      OutEdgesSorted(front, node);
      var rest := OutEdges(front, node);
      forall i | 0 <= i < |rest|
        ensures KeyLess(rest[i], last)
      {
        assert rest[i] in front;
        var k :| 0 <= k < |front| && front[k] == rest[i];
        assert KeyLess(edges[k], edges[|edges| - 1]);
      }
    }
  }

  /** Exactly the edges out of a node, in key order. */
  ghost predicate Lists(keys: set<EdgeKey>, node: Entity, out: seq<EdgeKey>) {
    Sorted(out, KeyLess) && forall e :: e in out <==> e in keys && e.from == node
  }

  /** The first edge to a node found from the head is the first between the two. */
  lemma NewIsFirst(keys: set<EdgeKey>, node: Entity, out: seq<EdgeKey>, done: nat,
                   found: seq<seq<Entity>>)
    requires Lists(keys, node, out) && done < |out| && !Knows(found, out[done].to)
    requires forall e :: 0 <= e < done ==> Knows(found, out[e].to)
    ensures FirstEdge(keys, out[done])
  {
    assert out[done] in out;
    forall e | e in keys && e.from == out[done].from && e.to == out[done].to
      ensures e == out[done] || KeyLess(out[done], e)
    {
      assert e in out;
      var i :| 0 <= i < |out| && out[i] == e;
      assert done < i ==> KeyLess(out[done], out[i]);
    }
  }

  lemma OutEdgesList(edges: seq<EdgeKey>, node: Entity)
    requires Sorted(edges, KeyLess)
    ensures Lists(KeysOf(edges), node, OutEdges(edges, node))
  {
    OutEdgesSorted(edges, node);
  }

  /** The head at `k` with its first `done` edges followed. */
  ghost predicate Following(keys: set<EdgeKey>, from: Entity, limit: nat, k: nat,
                            out: seq<EdgeKey>, done: nat, found: seq<seq<Entity>>)
  {
    && k < |found| && |found[k]| <= limit && done <= |out|
    && Ranked(keys, from, k + 1, found) && Expanded(keys, limit, k, found)
    && (forall i :: 0 <= i < |found| ==> |found[i]| <= limit + 1)
    && (forall e :: 0 <= e < done ==> Knows(found, out[e].to))
    && (forall j :: 0 < j < |found| && Front(found[j]) == found[k] ==>
          FoundBy(out, done, End(found[j])))
  }

  ghost predicate FoundBy(out: seq<EdgeKey>, done: nat, node: Entity) {
    exists e :: 0 <= e < |out| && e < done && out[e].to == node
  }

  lemma FollowFirst(keys: set<EdgeKey>, from: Entity, limit: nat, k: nat, out: seq<EdgeKey>,
                    found: seq<seq<Entity>>)
    requires Underway(keys, from, limit, k, found)
    requires k < |found| && |found[k]| <= limit
    ensures Following(keys, from, limit, k, out, 0, found)
  {
    MoreHeads(keys, from, k, found);
    forall j | 0 < j < |found|
      ensures Front(found[j]) != found[k]
    {
      assert OnTrail(found, k, found[j]);
      var i :| 0 <= i < |found| && i < k && found[i] == Front(found[j]);
      ShortlexIrreflexive(found[i], found[k]);
    }
  }

  lemma FollowKnown(keys: set<EdgeKey>, from: Entity, limit: nat, k: nat, out: seq<EdgeKey>,
                    done: nat, found: seq<seq<Entity>>)
    requires Following(keys, from, limit, k, out, done, found)
    requires done < |out| && Knows(found, out[done].to)
    ensures Following(keys, from, limit, k, out, done + 1, found)
  {
    forall j | 0 < j < |found| && Front(found[j]) == found[k]
      ensures FoundBy(out, done + 1, End(found[j]))
    {
      assert FoundBy(out, done, End(found[j]));
    }
  }

  lemma ChildrenBefore(keys: set<EdgeKey>, k: nat, out: seq<EdgeKey>, done: nat,
                       found: seq<seq<Entity>>)
    requires k < |found| && done < |out| && !Knows(found, out[done].to)
    requires Lists(keys, End(found[k]), out)
    requires forall e :: 0 <= e < done ==> Knows(found, out[e].to)
    requires forall j :: 0 < j < |found| && Front(found[j]) == found[k] ==>
               FoundBy(out, done, End(found[j]))
    ensures Younger(found, k, out[done].to)
    ensures forall j :: 0 < j < |found| && Front(found[j]) == found[k] ==>
              FoundBy(out, done + 1, End(found[j]))
  {
    forall j | 0 < j < |found| && Front(found[j]) == found[k]
      ensures StringLess(End(found[j]), out[done].to)
      ensures FoundBy(out, done + 1, End(found[j]))
    {
      assert FoundBy(out, done, End(found[j]));
      var e :| 0 <= e < |out| && e < done && out[e].to == End(found[j]);
      assert KeyLess(out[e], out[done]) && out[e] in out && out[done] in out;
      StringLessTotal(out[e].from, out[done].from);
    }
  }

  lemma FollowNew(keys: set<EdgeKey>, from: Entity, limit: nat, k: nat, out: seq<EdgeKey>,
                  done: nat, found: seq<seq<Entity>>)
    requires Following(keys, from, limit, k, out, done, found)
    requires Lists(keys, End(found[k]), out)
    requires done < |out| && !Knows(found, out[done].to)
    ensures Following(keys, from, limit, k, out, done + 1, found + [found[k] + [out[done].to]])
  {
    var v := out[done].to;
    var more := found + [found[k] + [v]];
    ChildrenBefore(keys, k, out, done, found);
    assert out[done] in out;
    assert Arc(keys, Outgoing, End(found[k]), v);
    Discovered(keys, from, limit, k, found, v);
    KnowsMore(found, found[k] + [v]);
    assert FoundBy(out, done + 1, v);
    forall j | 0 < j < |more| && Front(more[j]) == more[k]
      ensures FoundBy(out, done + 1, End(more[j]))
    {
      if j < |found| {
        assert Front(found[j]) == found[k];
      }
    }
  }

  lemma FollowedAll(keys: set<EdgeKey>, from: Entity, limit: nat, k: nat, out: seq<EdgeKey>,
                    found: seq<seq<Entity>>)
    requires Following(keys, from, limit, k, out, |out|, found)
    requires Lists(keys, End(found[k]), out)
    ensures Underway(keys, from, limit, k + 1, found)
    ensures !Truncated(keys, limit, k + 1, found)
  {
    forall v | Arc(keys, Outgoing, End(found[k]), v)
      ensures Knows(found, v)
    {
      var e :| e in keys && e.from == End(found[k]) && e.to == v;
      var i :| 0 <= i < |out| && out[i] == e;
      assert Knows(found, out[i].to);
    }
    forall i | 0 <= i < k
      ensures |found[i]| <= limit
    {
      assert Shortlex(found[i], found[k]);
    }
  }

  // ---- the walk back ------------------------------------------------------------------------------

  function Reverse<T>(xs: seq<T>): (ys: seq<T>)
    ensures |ys| == |xs|
    ensures forall i :: 0 <= i < |ys| ==> ys[i] == xs[|xs| - 1 - i]
  {
    if xs == [] then [] else [xs[|xs| - 1]] + Reverse(xs[..|xs| - 1])
  }

  /** `edges` joins the consecutive nodes, each by the first edge between the two. */
  ghost predicate Joins(keys: set<EdgeKey>, nodes: seq<Entity>, edges: seq<EdgeKey>) {
    && |nodes| == |edges| + 1
    && forall i :: 0 <= i < |edges| ==>
         FirstEdge(keys, edges[i]) && edges[i].from == nodes[i] && edges[i].to == nodes[i + 1]
  }

  /** A walk back along `whole` with its first nodes, `trail`, still to go; the nodes and edges
      met are held last first. */
  ghost predicate WalkingBack(keys: set<EdgeKey>, whole: seq<Entity>, trail: seq<Entity>,
                              nodes: seq<Entity>, edges: seq<EdgeKey>)
  {
    && trail != [] && trail <= whole && |nodes| + |trail| == |whole| + 1
    && (forall i :: 0 <= i < |nodes| ==> nodes[i] == whole[|whole| - 1 - i])
    && |nodes| == |edges| + 1
    && (forall i :: 0 <= i < |edges| ==>
          FirstEdge(keys, edges[i]) && edges[i].to == nodes[i] && edges[i].from == nodes[i + 1])
  }

  lemma StepBack(keys: set<EdgeKey>, whole: seq<Entity>, trail: seq<Entity>, nodes: seq<Entity>,
                 edges: seq<EdgeKey>, parent: Entity, edge: EdgeKey)
    requires WalkingBack(keys, whole, trail, nodes, edges)
    requires |trail| > 1 && parent == End(Front(trail))
    requires FirstEdge(keys, edge) && edge.from == parent && edge.to == End(trail)
    ensures WalkingBack(keys, whole, Front(trail), nodes + [parent], edges + [edge])
  {
    assert whole[|trail| - 1] == trail[|trail| - 1] && whole[|trail| - 2] == trail[|trail| - 2];
  }

  /** The walk at found trail `at`. */
  ghost predicate WalkAt(keys: set<EdgeKey>, found: seq<seq<Entity>>, last: nat, at: nat,
                         nodes: seq<Entity>, edges: seq<EdgeKey>)
  {
    last < |found| && at < |found| && WalkingBack(keys, found[last], found[at], nodes, edges)
  }

  lemma WalkOne(keys: set<EdgeKey>, heads: nat, found: seq<seq<Entity>>,
                distance: map<Entity, nat>, parents: Parents, last: nat, at: nat,
                nodes: seq<Entity>, edges: seq<EdgeKey>)
    returns (before: nat)
    requires WalkAt(keys, found, last, at, nodes, edges)
    requires at > 0 && Continues(found, heads) && Records(keys, found[at], distance, parents)
    ensures var (parent, edge) := parents[End(found[at])];
            && WalkAt(keys, found, last, before, nodes + [parent], edges + [edge])
            && End(found[before]) == parent && |found[before]| < |found[at]|
  {
    assert OnTrail(found, heads, found[at]);
    before :| 0 <= before < |found| && before < heads && found[before] == Front(found[at]);
    var (parent, edge) := parents[End(found[at])];
    StepBack(keys, found[last], found[at], nodes, edges, parent, edge);
  }

  /** Only the first trail ends at the start. */
  lemma FirstIsStart(keys: set<EdgeKey>, from: Entity, heads: nat, found: seq<seq<Entity>>,
                     at: nat)
    requires Ranked(keys, from, heads, found) && at < |found|
    ensures End(found[at]) == from <==> at == 0
  {
    assert End(found[0]) == from && Best(keys, from, found[0]);
    if at > 0 && End(found[at]) == from {
      assert Best(keys, from, found[at]);
      ShortlexIrreflexive(found[0], found[at]);
    }
  }

  lemma WalkDone(keys: set<EdgeKey>, from: Entity, found: seq<seq<Entity>>, last: nat,
                 nodes: seq<Entity>, edges: seq<EdgeKey>)
    requires WalkAt(keys, found, last, 0, nodes, edges) && found[0] == [from]
    ensures Reverse(nodes) == found[last] && Joins(keys, Reverse(nodes), Reverse(edges))
  {
    var back, joined := Reverse(nodes), Reverse(edges);
    forall i | 0 <= i < |joined|
      ensures FirstEdge(keys, joined[i])
      ensures joined[i].from == back[i] && joined[i].to == back[i + 1]
    {
      assert joined[i] == edges[|edges| - 1 - i];
    }
  }

  // ---- the search ---------------------------------------------------------------------------------

  datatype SemanticPath = SemanticPath(nodes: seq<Entity>, edges: seq<EdgeKey>)

  /** A trail to the destination, of true distance, least among those of its length, with the
      edges that join it. */
  ghost predicate IsTrace(keys: set<EdgeKey>, from: Entity, to: Entity, path: SemanticPath) {
    && Best(keys, from, path.nodes) && End(path.nodes) == to
    && Joins(keys, path.nodes, path.edges)
  }

  /** The search state between heads: trails account for the real state. */
  ghost predicate TracingAt(keys: set<EdgeKey>, from: Entity, to: Entity, limit: nat, k: nat,
                            found: seq<seq<Entity>>, queue: seq<Entity>,
                            distance: map<Entity, nat>, parents: Parents, truncated: bool)
  {
    && Underway(keys, from, limit, k, found)
    && Matches(keys, k, found, queue, distance, parents)
    && to !in distance && (truncated <==> Truncated(keys, limit, k, found))
  }

  ghost predicate Tracing(keys: set<EdgeKey>, from: Entity, to: Entity, limit: nat,
                          queue: seq<Entity>, distance: map<Entity, nat>, parents: Parents,
                          truncated: bool)
  {
    exists k: nat, found ::
      TracingAt(keys, from, to, limit, k, found, queue, distance, parents, truncated)
  }

  ghost predicate ArrivedAt(keys: set<EdgeKey>, from: Entity, to: Entity, limit: nat, heads: nat,
                            found: seq<seq<Entity>>, distance: map<Entity, nat>,
                            parents: Parents)
  {
    && Ranked(keys, from, heads, found) && End(found[|found| - 1]) == to
    && |found[|found| - 1]| <= limit + 1
    && forall i {:trigger Records(keys, found[i], distance, parents)} ::
         0 <= i < |found| ==> Records(keys, found[i], distance, parents)
  }

  /** The destination was just recorded. */
  ghost predicate Arrived(keys: set<EdgeKey>, from: Entity, to: Entity, limit: nat,
                          distance: map<Entity, nat>, parents: Parents)
  {
    exists heads: nat, found ::
      ArrivedAt(keys, from, to, limit, heads, found, distance, parents)
  }

  lemma StartTracing(keys: set<EdgeKey>, from: Entity, to: Entity, limit: nat)
    requires from != to
    ensures Tracing(keys, from, to, limit, [from], map[from := 0], map[], false)
  {
    StartIsBest(keys, from);
    assert Ends([[from]]) == [from];
    assert End([[from]][0]) == from;
    assert TracingAt(keys, from, to, limit, 0, [[from]], [from], map[from := 0], map[], false);
  }

  lemma StartIsBest(keys: set<EdgeKey>, from: Entity)
    ensures Best(keys, from, [from])
  {
    forall other | OutTrail(keys, from, other) && End(other) == from
      ensures AtMost([from], other)
    {
      assert |other| == 1 ==> other == [from];
    }
  }

  lemma ArrivedIsTrace(keys: set<EdgeKey>, from: Entity, to: Entity, limit: nat, heads: nat,
                       found: seq<seq<Entity>>, distance: map<Entity, nat>, parents: Parents,
                       path: SemanticPath)
    requires ArrivedAt(keys, from, to, limit, heads, found, distance, parents)
    requires path.nodes == found[|found| - 1] && Joins(keys, path.nodes, path.edges)
    ensures IsTrace(keys, from, to, path) && Within(keys, Outgoing, from, to, limit)
  {
    assert Best(keys, from, path.nodes);
    assert TrailTo(keys, Outgoing, from, to, limit, path.nodes);
  }

  /** Best trails have the length of the true distance. */
  lemma TraceIsShortest(keys: set<EdgeKey>, from: Entity, to: Entity, path: SemanticPath)
    requires IsTrace(keys, from, to, path)
    ensures IsDistance(keys, Outgoing, from, to, |path.edges|)
  {
    assert TrailTo(keys, Outgoing, from, to, |path.edges|, path.nodes);
    forall k: nat | Within(keys, Outgoing, from, to, k)
      ensures |path.edges| <= k
    {
      var other :| TrailTo(keys, Outgoing, from, to, k, other);
      assert OutTrail(keys, from, other) && End(other) == to;
      assert AtMost(path.nodes, other);
    }
  }

  lemma FoundDistance(keys: set<EdgeKey>, from: Entity, limit: nat, found: seq<seq<Entity>>,
                      queue: seq<Entity>, distance: map<Entity, nat>, parents: Parents, n: Entity)
    returns (i: nat)
    requires Underway(keys, from, limit, |found|, found)
    requires Matches(keys, |found|, found, queue, distance, parents) && n in distance
    ensures i < |found| && Best(keys, from, found[i]) && End(found[i]) == n
    ensures |found[i]| == distance[n] + 1 && distance[n] <= limit
  {
    assert Knows(found, n);
    i :| 0 <= i < |found| && End(found[i]) == n;
    assert Records(keys, found[i], distance, parents);
  }

  /** A finished search recorded a relaxed and attained distance for every found trail. */
  lemma FinishedIsExact(keys: set<EdgeKey>, from: Entity, limit: nat, found: seq<seq<Entity>>,
                        queue: seq<Entity>, distance: map<Entity, nat>, parents: Parents)
    requires Underway(keys, from, limit, |found|, found)
    requires Matches(keys, |found|, found, queue, distance, parents)
    ensures Relaxed(keys, Outgoing, from, limit, distance)
    ensures Attained(keys, Outgoing, from, distance)
    ensures forall n :: n in distance ==> distance[n] <= limit
  {
    assert Records(keys, found[0], distance, parents);
    forall n | n in distance
      ensures HasTrail(keys, Outgoing, from, n, distance[n]) && distance[n] <= limit
    {
      var i := FoundDistance(keys, from, limit, found, queue, distance, parents, n);
      assert OutTrail(keys, from, found[i]);
    }
    forall a, b | a in distance && distance[a] < limit && Arc(keys, Outgoing, a, b)
      ensures b in distance && distance[b] <= distance[a] + 1
    {
      FinishedRelaxes(keys, from, limit, found, queue, distance, parents, a, b);
    }
  }

  lemma FinishedRelaxes(keys: set<EdgeKey>, from: Entity, limit: nat, found: seq<seq<Entity>>,
                        queue: seq<Entity>, distance: map<Entity, nat>, parents: Parents,
                        a: Entity, b: Entity)
    requires Underway(keys, from, limit, |found|, found)
    requires Matches(keys, |found|, found, queue, distance, parents)
    requires a in distance && distance[a] < limit && Arc(keys, Outgoing, a, b)
    ensures b in distance && distance[b] <= distance[a] + 1
  {
    var i := FoundDistance(keys, from, limit, found, queue, distance, parents, a);
    assert Knows(found, b);
    var j := FoundDistance(keys, from, limit, found, queue, distance, parents, b);
    TrailExtend(keys, Outgoing, from, found[i], b);
    assert OutTrail(keys, from, found[i] + [b]) && End(found[i] + [b]) == b;
    assert AtMost(found[j], found[i] + [b]);
  }

  lemma TruncatedIsEdge(keys: set<EdgeKey>, from: Entity, limit: nat, found: seq<seq<Entity>>,
                        queue: seq<Entity>, distance: map<Entity, nat>, parents: Parents)
    requires Underway(keys, from, limit, |found|, found)
    requires Matches(keys, |found|, found, queue, distance, parents)
    ensures Truncated(keys, limit, |found|, found) <==> EdgeLeaves(keys, Outgoing, limit, distance)
  {
    if Truncated(keys, limit, |found|, found) {
      var i: int :| i < |found| && LeavesFrom(keys, limit, found, i);
      var v :| Arc(keys, Outgoing, End(found[i]), v) && !Knows(found, v);
      assert Records(keys, found[i], distance, parents);
      assert Leaves(keys, Outgoing, limit, distance, End(found[i]), v);
    }
    if EdgeLeaves(keys, Outgoing, limit, distance) {
      var a, b :| Leaves(keys, Outgoing, limit, distance, a, b);
      var i := FoundDistance(keys, from, limit, found, queue, distance, parents, a);
      assert LeavesFrom(keys, limit, found, i);
    }
  }

  lemma NeverArrived(keys: set<EdgeKey>, from: Entity, to: Entity, limit: nat,
                     distance: map<Entity, nat>, parents: Parents, truncated: bool)
    requires Tracing(keys, from, to, limit, [], distance, parents, truncated)
    ensures !Within(keys, Outgoing, from, to, limit)
    ensures truncated <==> Beyond(keys, Outgoing, from, limit)
  {
    var k: nat, found :|
      TracingAt(keys, from, to, limit, k, found, [], distance, parents, truncated);
    assert |Ends(found)[k..]| == |found| - k;
    FinishedIsExact(keys, from, limit, found, [], distance, parents);
    RelaxedIsExact(keys, Outgoing, from, limit, distance, to);
    BeyondIsAnEdge(keys, Outgoing, from, limit, distance);
    TruncatedIsEdge(keys, from, limit, found, [], distance, parents);
  }

  /** A head taken off the queue, with its first `done` edges followed. */
  ghost predicate AtHeadOf(keys: set<EdgeKey>, from: Entity, to: Entity, limit: nat, k: nat,
                           found: seq<seq<Entity>>, out: seq<EdgeKey>, done: nat, node: Entity,
                           hops: nat, queue: seq<Entity>, distance: map<Entity, nat>,
                           parents: Parents)
  {
    && Following(keys, from, limit, k, out, done, found)
    && Matches(keys, k + 1, found, queue, distance, parents) && to !in distance
    && End(found[k]) == node && |found[k]| == hops + 1
    && Lists(keys, node, out)
  }

  ghost predicate AtHead(keys: set<EdgeKey>, from: Entity, to: Entity, limit: nat,
                         out: seq<EdgeKey>, done: nat, node: Entity, hops: nat,
                         queue: seq<Entity>, distance: map<Entity, nat>, parents: Parents)
  {
    exists k: nat, found ::
      AtHeadOf(keys, from, to, limit, k, found, out, done, node, hops, queue, distance, parents)
  }

  lemma NextKnown(keys: set<EdgeKey>, from: Entity, to: Entity, limit: nat, out: seq<EdgeKey>,
                  done: nat, node: Entity, hops: nat, queue: seq<Entity>,
                  distance: map<Entity, nat>, parents: Parents)
    requires AtHead(keys, from, to, limit, out, done, node, hops, queue, distance, parents)
    requires done < |out| && out[done].to in distance
    ensures AtHead(keys, from, to, limit, out, done + 1, node, hops, queue, distance, parents)
  {
    var k: nat, found :| AtHeadOf(keys, from, to, limit, k, found, out, done, node, hops, queue,
                                  distance, parents);
    FollowKnown(keys, from, limit, k, out, done, found);
    assert AtHeadOf(keys, from, to, limit, k, found, out, done + 1, node, hops, queue, distance,
                    parents);
  }

  lemma NextNew(keys: set<EdgeKey>, from: Entity, to: Entity, limit: nat, out: seq<EdgeKey>,
                done: nat, node: Entity, hops: nat, queue: seq<Entity>,
                distance: map<Entity, nat>, parents: Parents)
    requires AtHead(keys, from, to, limit, out, done, node, hops, queue, distance, parents)
    requires done < |out| && out[done].to !in distance
    ensures var (v, e) := (out[done].to, out[done]);
            var (distance', parents') := (distance[v := hops + 1], parents[v := (node, e)]);
            if v == to then
              Arrived(keys, from, to, limit, distance', parents')
            else
              AtHead(keys, from, to, limit, out, done + 1, node, hops, queue + [v], distance',
                     parents')
  {
    var k: nat, found :| AtHeadOf(keys, from, to, limit, k, found, out, done, node, hops, queue,
                                  distance, parents);
    var v, e := out[done].to, out[done];
    var distance', parents' := distance[v := hops + 1], parents[v := (node, e)];
    var more := found + [found[k] + [v]];
    NewIsFirst(keys, node, out, done, found);
    FollowNew(keys, from, limit, k, out, done, found);
    MatchesMore(keys, k + 1, found, queue, distance, parents, node, e, found[k]);
    assert End(found[k] + [v]) == v;
    if v == to {
      assert ArrivedAt(keys, from, to, limit, k + 1, more, distance', parents');
    } else {
      assert AtHeadOf(keys, from, to, limit, k, more, out, done + 1, node, hops, queue + [v],
                      distance', parents');
    }
  }

  lemma NextHead(keys: set<EdgeKey>, from: Entity, to: Entity, limit: nat, out: seq<EdgeKey>,
                 node: Entity, hops: nat, queue: seq<Entity>, distance: map<Entity, nat>,
                 parents: Parents)
    requires AtHead(keys, from, to, limit, out, |out|, node, hops, queue, distance, parents)
    ensures Tracing(keys, from, to, limit, queue, distance, parents, false)
  {
    var k: nat, found :| AtHeadOf(keys, from, to, limit, k, found, out, |out|, node, hops, queue,
                                  distance, parents);
    FollowedAll(keys, from, limit, k, out, found);
    assert TracingAt(keys, from, to, limit, k + 1, found, queue, distance, parents, false);
  }

  lemma TakeHead(keys: set<EdgeKey>, from: Entity, to: Entity, limit: nat, k: nat,
                 found: seq<seq<Entity>>, node: Entity, queue: seq<Entity>,
                 distance: map<Entity, nat>, parents: Parents, truncated: bool)
    requires TracingAt(keys, from, to, limit, k, found, [node] + queue, distance, parents,
                       truncated)
    ensures k < |found| && End(found[k]) == node && node in distance
    ensures |found[k]| == distance[node] + 1 && distance[node] <= limit
    ensures Matches(keys, k + 1, found, queue, distance, parents)
  {
    assert ([node] + queue)[0] == Ends(found)[k];
    assert ([node] + queue)[1..] == queue;
    assert Ends(found)[k..][1..] == Ends(found)[k + 1..];
    assert Records(keys, found[k], distance, parents);
  }

  lemma HeadRecorded(keys: set<EdgeKey>, from: Entity, to: Entity, limit: nat, node: Entity,
                     queue: seq<Entity>, distance: map<Entity, nat>, parents: Parents,
                     truncated: bool)
    requires Tracing(keys, from, to, limit, [node] + queue, distance, parents, truncated)
    ensures node in distance && distance[node] <= limit
  {
    var k: nat, found :|
      TracingAt(keys, from, to, limit, k, found, [node] + queue, distance, parents, truncated);
    TakeHead(keys, from, to, limit, k, found, node, queue, distance, parents, truncated);
  }

  /** A head below the limit: nothing was truncated before it. */
  lemma FirstLook(keys: set<EdgeKey>, from: Entity, to: Entity, limit: nat, out: seq<EdgeKey>,
                  node: Entity, queue: seq<Entity>, distance: map<Entity, nat>,
                  parents: Parents, truncated: bool)
    requires Tracing(keys, from, to, limit, [node] + queue, distance, parents, truncated)
    requires Lists(keys, node, out)
    requires node in distance && distance[node] < limit
    ensures AtHead(keys, from, to, limit, out, 0, node, distance[node], queue, distance, parents)
    ensures !truncated
  {
    var k: nat, found :|
      TracingAt(keys, from, to, limit, k, found, [node] + queue, distance, parents, truncated);
    TakeHead(keys, from, to, limit, k, found, node, queue, distance, parents, truncated);
    FollowFirst(keys, from, limit, k, out, found);
    NotTruncated(keys, limit, k, found);
    assert AtHeadOf(keys, from, to, limit, k, found, out, 0, node, distance[node], queue,
                    distance, parents);
  }

  /** Before a head below the limit nothing was truncated. */
  lemma NotTruncated(keys: set<EdgeKey>, limit: nat, k: nat, found: seq<seq<Entity>>)
    requires InOrder(found) && k < |found| && |found[k]| <= limit
    ensures !Truncated(keys, limit, k, found)
  {
    forall i | 0 <= i < k
      ensures |found[i]| <= limit
    {
      assert Shortlex(found[i], found[k]);
    }
  }

  /** A head at the limit is only looked at. */
  lemma LookedAt(keys: set<EdgeKey>, from: Entity, to: Entity, limit: nat, node: Entity,
                 queue: seq<Entity>, distance: map<Entity, nat>, parents: Parents,
                 truncated: bool, leaves: bool)
    requires Tracing(keys, from, to, limit, [node] + queue, distance, parents, truncated)
    requires node in distance && distance[node] == limit
    requires leaves <==> exists v :: Arc(keys, Outgoing, node, v) && v !in distance
    ensures Tracing(keys, from, to, limit, queue, distance, parents, truncated || leaves)
  {
    var k: nat, found :|
      TracingAt(keys, from, to, limit, k, found, [node] + queue, distance, parents, truncated);
    TakeHead(keys, from, to, limit, k, found, node, queue, distance, parents, truncated);
    AtLimit(keys, from, limit, k, found, leaves);
    assert TracingAt(keys, from, to, limit, k + 1, found, queue, distance, parents,
                     truncated || leaves);
  }

  /** The parent walk from the node just recorded ends at the start and returns its trail. */
  method WalkBack(ghost keys: set<EdgeKey>, from: Entity, to: Entity, ghost limit: nat,
                  ghost distance: map<Entity, nat>, parents: Parents)
    returns (nodes: seq<Entity>, edges: seq<EdgeKey>)
    requires Arrived(keys, from, to, limit, distance, parents)
    ensures IsTrace(keys, from, to, SemanticPath(nodes, edges))
    ensures Within(keys, Outgoing, from, to, limit)
  {
    ghost var heads: nat, found :| ArrivedAt(keys, from, to, limit, heads, found, distance, parents);
    nodes, edges := [to], [];
    var cursor := to;
    ghost var last: nat := |found| - 1;
    ghost var at := last;
    assert Records(keys, found[last], distance, parents);
    FirstIsStart(keys, from, heads, found, at);
    while cursor != from
      invariant WalkAt(keys, found, last, at, nodes, edges)
      invariant End(found[at]) == cursor
      invariant cursor == from <==> at == 0
      decreases |found[at]|
    {
      assert Records(keys, found[at], distance, parents);
      ghost var before := WalkOne(keys, heads, found, distance, parents, last, at, nodes, edges);
      FirstIsStart(keys, from, heads, found, before);
      var (parent, edge) := parents[cursor];
      nodes, edges, cursor := nodes + [parent], edges + [edge], parent;
      at := before;
    }
    WalkDone(keys, from, found, last, nodes, edges);
    nodes, edges := Reverse(nodes), Reverse(edges);
    ArrivedIsTrace(keys, from, to, limit, heads, found, distance, parents,
                   SemanticPath(nodes, edges));
  }

  function ToNodes(out: seq<EdgeKey>): set<Entity> {
    set e | e in out :: e.to
  }

  /** Follows the head's edges in order, to the end or until the destination is met. */
  method FollowEdges(ghost keys: set<EdgeKey>, from: Entity, to: Entity, ghost limit: nat,
                     node: Entity, hops: nat, out: seq<EdgeKey>, queue: seq<Entity>,
                     distance: map<Entity, nat>, parents: Parents)
    returns (queue': seq<Entity>, distance': map<Entity, nat>, parents': Parents, arrived: bool)
    requires AtHead(keys, from, to, limit, out, 0, node, hops, queue, distance, parents)
    ensures distance.Keys <= distance'.Keys <= distance.Keys + ToNodes(out)
    ensures distance'.Keys == distance.Keys ==> |queue'| <= |queue|
    ensures arrived ==> Arrived(keys, from, to, limit, distance', parents')
    ensures !arrived ==> Tracing(keys, from, to, limit, queue', distance', parents', false)
  {
    queue', distance', parents', arrived := queue, distance, parents, false;
    for i := 0 to |out|
      invariant AtHead(keys, from, to, limit, out, i, node, hops, queue', distance', parents')
      invariant distance.Keys <= distance'.Keys <= distance.Keys + ToNodes(out)
      invariant distance'.Keys == distance.Keys ==> |queue'| <= |queue|
    {
      var edge := out[i];
      if edge.to in distance' {
        NextKnown(keys, from, to, limit, out, i, node, hops, queue', distance', parents');
      } else {
        NextNew(keys, from, to, limit, out, i, node, hops, queue', distance', parents');
        distance', parents' := distance'[edge.to := hops + 1], parents'[edge.to := (node, edge)];
        if edge.to == to {
          return queue', distance', parents', true;
        }
        queue' := queue' + [edge.to];
      }
    }
    NextHead(keys, from, to, limit, out, node, hops, queue', distance', parents');
  }

  /** One node leaves the queue: its edges followed below the limit, only looked at on it. */
  method TraceNode(from: Entity, to: Entity, limit: nat, edges: seq<EdgeKey>, node: Entity,
                   queue: seq<Entity>, distance: map<Entity, nat>, parents: Parents,
                   truncated: bool)
    returns (queue': seq<Entity>, distance': map<Entity, nat>, parents': Parents,
             truncated': bool, arrived: bool)
    requires Sorted(edges, KeyLess)
    requires Tracing(KeysOf(edges), from, to, limit, [node] + queue, distance, parents, truncated)
    ensures distance.Keys <= distance'.Keys <= distance.Keys + Targets(edges, Outgoing)
    ensures distance'.Keys == distance.Keys ==> |queue'| <= |queue|
    ensures arrived ==> Arrived(KeysOf(edges), from, to, limit, distance', parents')
    ensures !arrived ==>
              Tracing(KeysOf(edges), from, to, limit, queue', distance', parents', truncated')
  {
    ghost var keys := KeysOf(edges);
    queue', distance', parents', truncated', arrived :=
      queue, distance, parents, truncated, false;
    HeadRecorded(keys, from, to, limit, node, queue, distance, parents, truncated);
    if distance[node] == limit {
      var neighbours := Adjacent(edges, Outgoing, node);
      NeighboursAreArcs(edges, Outgoing, node);
      var leaves := exists n :: n in neighbours && n !in distance;
      LookedAt(keys, from, to, limit, node, queue, distance, parents, truncated, leaves);
      truncated' := truncated || leaves;
      return;
    }
    var out := OutEdges(edges, node);
    OutEdgesList(edges, node);
    FirstLook(keys, from, to, limit, out, node, queue, distance, parents, truncated);
    queue', distance', parents', arrived :=
      FollowEdges(keys, from, to, limit, node, distance[node], out, queue, distance, parents);
  }

  /** The least shortest trace within the limit, or none when the destination is farther. */
  method Trace(from: Entity, to: Entity, limit: nat, edges: seq<EdgeKey>)
    returns (path: Option<SemanticPath>, truncated: bool)
    requires Sorted(edges, KeyLess)
    ensures path.None? <==> !Within(KeysOf(edges), Outgoing, from, to, limit)
    ensures path.Some? ==> IsTrace(KeysOf(edges), from, to, path.value) && !truncated
    ensures path.None? ==> (truncated <==> Beyond(KeysOf(edges), Outgoing, from, limit))
  {
    ghost var keys := KeysOf(edges);
    if from == to {
      StartIsBest(keys, from);
      assert TrailTo(keys, Outgoing, from, to, limit, [from]);
      return Some(SemanticPath([from], [])), false;
    }
    var distance, parents: Parents, queue := map[from := 0], map[], [from];
    truncated := false;
    StartTracing(keys, from, to, limit);
    ghost var universe := {from} + Targets(edges, Outgoing);
    while queue != []
      invariant Tracing(keys, from, to, limit, queue, distance, parents, truncated)
      invariant distance.Keys <= universe
      decreases universe - distance.Keys, |queue|
    {
      var node, rest := queue[0], queue[1..];
      assert [node] + rest == queue;
      var arrived;
      queue, distance, parents, truncated, arrived :=
        TraceNode(from, to, limit, edges, node, rest, distance, parents, truncated);
      if arrived {
        var nodes, joined := WalkBack(keys, from, to, limit, distance, parents);
        return Some(SemanticPath(nodes, joined)), false;
      }
    }
    NeverArrived(keys, from, to, limit, distance, parents, truncated);
    path := None;
  }

  // ---- the staged trace ----------------------------------------------------------------------------

  lemma ArcKept(all: set<Row>, limit: nat, rows: set<Row>, level: map<Entity, nat>, a: Entity,
                b: Entity)
    requires Kept(all, Outgoing, limit, rows, level) && a in level && level[a] < limit
    requires Arc(Keys(all), Outgoing, a, b)
    ensures Arc(Keys(rows), Outgoing, a, b)
  {
  }

  /** Acquisition keeps every trail within the limit. */
  lemma {:induction false} TrailKept(all: set<Row>, from: Entity, limit: nat, rows: set<Row>,
                                     level: map<Entity, nat>, trail: seq<Entity>)
    requires Serves(all, Outgoing, from, limit, rows, level)
    requires OutTrail(Keys(all), from, trail) && |trail| <= limit + 1
    ensures OutTrail(Keys(rows), from, trail)
    decreases |trail|
  {
    if |trail| > 1 {
      var front := Front(trail);
      TrailPrefix(Keys(all), Outgoing, from, trail);
      TrailKept(all, from, limit, rows, level, front);
      TrailIsRelaxed(Keys(all), Outgoing, from, limit, level, front);
      assert Hop(Keys(all), Outgoing, trail, |trail| - 1);
      ArcKept(all, limit, rows, level, End(front), End(trail));
      TrailExtend(Keys(rows), Outgoing, from, front, End(trail));
      assert trail == front + [End(trail)];
    }
  }

  /** A trace of what was acquired is a trace of the whole relation. */
  lemma TraceIsExact(all: set<Row>, from: Entity, to: Entity, limit: nat, rows: set<Row>,
                     path: SemanticPath)
    requires ClosureAcquired(all, Outgoing, from, limit, rows)
    requires IsTrace(Keys(rows), from, to, path)
    requires Within(Keys(rows), Outgoing, from, to, limit)
    ensures IsTrace(Keys(all), from, to, path)
  {
    var level :| Serves(all, Outgoing, from, limit, rows, level);
    KeysGrow(rows, all);
    assert rows + all == all;
    var within :| TrailTo(Keys(rows), Outgoing, from, to, limit, within);
    assert OutTrail(Keys(rows), from, within) && AtMost(path.nodes, within);
    TrailGrows(Keys(rows), Keys(all), Outgoing, from, path.nodes);
    forall other | OutTrail(Keys(all), from, other) && End(other) == to
      ensures AtMost(path.nodes, other)
    {
      if |other| <= limit + 1 {
        TrailKept(all, from, limit, rows, level, other);
      }
    }
    forall i | 0 <= i < |path.edges|
      ensures FirstEdge(Keys(all), path.edges[i])
    {
      TraceEdgeIsFirst(all, from, limit, rows, level, path, i);
    }
  }

  lemma {:induction false} TrailStart(keys: set<EdgeKey>, from: Entity, trail: seq<Entity>, n: nat)
    requires OutTrail(keys, from, trail) && 0 < n <= |trail|
    ensures OutTrail(keys, from, trail[..n])
    decreases |trail|
  {
    if n < |trail| {
      TrailPrefix(keys, Outgoing, from, trail);
      TrailStart(keys, from, trail[..|trail| - 1], n);
      assert trail[..|trail| - 1][..n] == trail[..n];
    } else {
      assert trail[..n] == trail;
    }
  }

  lemma TraceEdgeIsFirst(all: set<Row>, from: Entity, limit: nat, rows: set<Row>,
                         level: map<Entity, nat>, path: SemanticPath, i: nat)
    requires Serves(all, Outgoing, from, limit, rows, level)
    requires OutTrail(Keys(all), from, path.nodes) && |path.nodes| <= limit + 1
    requires Joins(Keys(rows), path.nodes, path.edges) && i < |path.edges|
    ensures FirstEdge(Keys(all), path.edges[i])
  {
    TrailStart(Keys(all), from, path.nodes, i + 1);
    TrailIsRelaxed(Keys(all), Outgoing, from, limit, level, path.nodes[..i + 1]);
    assert FirstEdge(Keys(rows), path.edges[i]);
    KeysGrow(rows, all);
    assert rows + all == all;
    assert path.nodes[..i + 1][i] == path.edges[i].from;
  }

  /** The trace end to end: the least shortest path of the whole relation when there is one
      within the limit, and otherwise whether anything lies exactly one hop beyond it. */
  method StagedTrace(all: set<Row>, from: Entity, to: Entity, limit: nat)
    returns (path: Option<SemanticPath>, truncated: bool)
    ensures path.None? <==> !Within(Keys(all), Outgoing, from, to, limit)
    ensures path.Some? ==> IsTrace(Keys(all), from, to, path.value) && !truncated
    ensures path.None? ==> (truncated <==> Beyond(Keys(all), Outgoing, from, limit))
  {
    var rows := ClosureRows(all, from, limit, Outgoing);
    var edges := MergeEdges(rows);
    assert edges.Keys == Keys(Elements(rows));
    var sorted := SortedKeys(edges.Keys);
    assert KeysOf(sorted) == edges.Keys;
    path, truncated := Trace(from, to, limit, sorted);
    ClosureIsExact(all, Outgoing, from, limit, Elements(rows));
    if path.Some? {
      TraceIsExact(all, from, to, limit, Elements(rows), path.value);
    }
  }
}
