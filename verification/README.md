# Verified model of the semantic store

The store keeps, for every workspace view, a relation of dependencies between entities of many
repositories, and answers questions about it: which paths lead from an entity, what lies within a
number of hops, which is the shortest trace between two entities, which entities match a text.
Publications of repositories and analyzers change the relation, and a garbage collector removes
what nothing refers to any more. This project models those parts in Dafny and proves what they
promise. `dafny verify dfyconfig.toml` checks all of it.

## What is proved

**Graph queries.** A query runs in two stages: rows are acquired hop by hop under row and work
budgets, then an in-memory search runs over what was acquired.

- `PathSearch`, `Paths`: the depth-first search with its stacks, budgets and reasons emits exactly
  a prefix of an ordered enumeration, and the enumeration is exactly the set of allowed simple
  walks with their terminations. Every truncation reason has its exact meaning.
- `Acquisition`, `Edges`, `Traverse`: without target repositories the staged search is sound for
  every row budget and exact when nothing was cut, compared with a search of the whole relation.
- `Reach`, `Filtered`, `Lossless`: with target repositories the pruned acquisition (reverse
  reachability per target, then a search over entities with the targets visited so far) loses no
  path: the emitted paths are exactly those of a search of the whole relation without pruning.
  No assumption on the targets is needed. When `a` and `a/b` are both targets, `a/b` is never
  entered in either search, so neither emits a path.
- `Cut`: the same when a limit cuts the acquisition. Every reported path is still one of the
  unpruned search when at most one target is left to enter, and for any targets when the state it
  ends in was expanded before the cut.
- `Closure`, `ShortestPath`: hop distances, truncation and the shortest trace are those of the
  whole relation; of several shortest traces the lexicographically least is returned.
- `EntityNames`, `Ranking`, `EntitySearch`, `ViewSearch`: the search over four layers, each cut at
  the limit, returns the best matches of all layers together if and only if each of them is shown
  by a layer, for every store. In a view, where validation keeps one description for each entity,
  it does wherever the scripts derive the names the service displays.

**Publication and garbage collection.** Each transaction is one step.

- `GarbageCollection`, `StateStore`: over every interleaving of publications, deletions, claims and
  single sweep batches, a state that is referred to has its row, and a state with a row has all its
  facts, even when it was published again while half swept. The class `Store` carries out the
  transactions in place and is proved against them.
- `Winners`, `Dependencies`, `Publication`, `ViewStore`: the two derived tables of a view (the
  winning enrichment of every fact, and the resolved dependencies) are refreshed for the changed
  owners and sources only. The class `View` keeps the invariant that both equal a full rebuild,
  after every operation. This includes that the rules for a frontier of sources derive the same
  edges as the rules for the whole view.
- `EntityContract`: the validation before a commit is part of every transaction that adds entities.
  That no entity has two descriptions in what a view selects is an invariant of `View`, also under
  the operations that do not validate.
- `SharedStore`: both parts together. On every interleaving of a view's transactions with those of
  others, claims and sweep batches, the derived tables of the view equal a rebuild that reads the
  states back from their stored rows.
- `Enrichments`: the outcomes of an enrichment publication and what each leaves alone, over runs.

**Self-contained parts.** The bytes under the repository digest and the enrichment snapshot hash
decode uniquely (`Framing`, `RepositoryDigest`, `OwnerIdentity`); GraphQL fragment expansion with a
visited set finds exactly the fields of the infinite unfolding, and exactly the observations of the
unfolding under first selectors (`GraphqlSelection`, `GraphqlUnfolding`); UTF-16 columns and UTF-8
offsets convert back and forth (`Utf16`).

## Where the code does not keep a promise

Each of these is a lemma with a concrete input, next to the condition under which the promise holds.

- A view that is deleted and published again while superseded revisions are swept can lose rows of
  its new revision, because its numbering starts again (`GarbageCollection.RecreatedViewIsSwept`;
  exact condition in `SweepKeepsCurrent`, and over runs in `SweepIsHarmless`).
- An enrichment owner that is selected again between two batches of its sweep lacks facts, because
  its output row still exists (`Enrichments.ReselectedLacksFact`, a whole run; exact condition at
  the call in `PublishedIsWhole`, over runs in `SelectedIsWhole`). Nothing is lost where a
  publication selects only owners that are new or still selected (`SafelySelectedIsWhole`).
- A filtered traversal that was cut can report an entity as a leaf although one of its edges was
  not acquired: an entity is searched in several states, incompleteness is kept for entities, and
  when the cut strikes before the completed state, the rows of an earlier one stand for all of its
  rows (`FalseLeaf.LeafIsFalse`, two targets). The promise holds for every relation exactly up to
  one target left to enter (`FalseLeaf.TrueUpToOneTarget`, by `Cut.OneTargetIsTrue`); with more it
  holds for every path whose final state was expanded before the cut (`Cut.ExpandedBeforeCut`).
  `Cut.CutEnds` describes each path by what was acquired.
- A fragment spread under two selectors yields observations for the first only
  (`GraphqlUnfolding.SecondSpreadIsLost`); fields are not affected (`FieldsAreExact`). What is
  observed is exact in `ObservationsAreExact`, and `NothingIsLost` says of which documents that is
  everything.
- A gRPC method whose path has more than one segment is not found by the name the service displays
  (`EntitySearch.NestedMethodIsMissed`; exact condition in `SearchIsGlobal`).

## Reading the model

- The resolved dependencies of a view are a finite set of rows. The Datalog scripts are set
  comprehensions with the same conditions; `:order` and `:limit` take the front of the sorted
  listing.
- Facts are normalized before they enter: of several rows under one key the last is kept, so a set
  of facts stands for at most one row per key (`crates/adapters-mnestic/src/storage.rs:645-665`).
- Validation comes before the dependency table is refreshed; an aborted transaction leaves every
  relation as it was. That stored kinds and metadata parse is taken for granted.
- A hash is modelled by what it is taken over. That an identifier determines its content is thereby
  built in for analyzed states, fact shard versions and enrichment owners; for the repository
  digest and the owners it is justified by the decoders.
- Edges are named by source, target and relation. Their labels `e1`, `e2`, ... depend on what was
  acquired and matter only for the order of neighbours.
- Methods that change state are in classes or loops as in the source. Lemmas state what holds of the
  functions they are specified by.

## Model

| member | source | states |
|---|---|---|
| Graph.RowLessStrictTotal | crates/adapters-mnestic/src/query.rs:1616-1629 | the `:order` clause of the adjacency queries is a strict total order on rows, so a limited result is determined by the set it is cut from |
| Graph.TargetRepository | crates/adapters-mnestic/src/semantic.rs:1101-1108 | the owner of an id is the first of the sorted targets whose `repo://target/` it starts with, and none exactly when no target matches |
| Graph.OwnerUnique | crates/adapters-mnestic/src/semantic.rs:1101-1108 | an id has at most one owner among the targets, also when one target is a prefix of another |
| PathSearch.ComputeRepositoryState | crates/adapters-mnestic/src/semantic.rs:429-447 | the loop over the nodes computes the visited targets and the repository in which the last missing one was entered |
| PathSearch.PathSearch.constructor | crates/adapters-mnestic/src/semantic.rs:374-386 | a search starts at the start node with no paths and no steps, and with the acquisition reason exactly when some node is incomplete |
| PathSearch.PathSearch.Emit | crates/adapters-mnestic/src/semantic.rs:475-491 | a path is kept while there is room, otherwise `MaxPaths` is reported and nothing is kept |
| PathSearch.PathSearch.Visit | crates/adapters-mnestic/src/semantic.rs:493-586 | the depth-first visit restores its stacks, stays within `max_paths` and the step cap, and adds exactly the next paths of the pure enumeration below the node: all of them when no limit is reported, otherwise a prefix, with the steps it paid and the hop reason |
| PathSearch.PathSearch.VisitEntered | crates/adapters-mnestic/src/semantic.rs:504-586 | the same for a node whose step is counted: a destination and a contract end the path |
| PathSearch.PathSearch.VisitOpen | crates/adapters-mnestic/src/semantic.rs:517-586 | a boundary is emitted before the extensions, and the visit stops there when the list is full |
| PathSearch.PathSearch.EmitDead | crates/adapters-mnestic/src/semantic.rs:543-556 | at a node without extension the visit emits a leaf or a cycle exactly when the search is open-ended there |
| PathSearch.PathSearch.EmitHopLimit | crates/adapters-mnestic/src/semantic.rs:557-565 | at the hop limit the visit reports `MaxHops` and emits the path only when the search is open-ended there |
| PathSearch.PathSearch.Extend | crates/adapters-mnestic/src/semantic.rs:526-586 | the work check before the loop never lets the remaining steps underflow, and the node pays one step per neighbour twice |
| PathSearch.PathSearch.VisitNeighbours | crates/adapters-mnestic/src/semantic.rs:566-585 | the loop over the neighbours adds the branches in order and stops at the first limit |
| PathSearch.PathSearch.VisitNeighbour | crates/adapters-mnestic/src/semantic.rs:571-579 | one neighbour costs a step, is skipped when it is on the path, and leaves both stacks as they were |
| Paths.EnumerateSound | crates/adapters-mnestic/src/semantic.rs:493-586 | every enumerated path is a simple walk of allowed steps from the start and ends there for the reason it names |
| Paths.EnumerateComplete | crates/adapters-mnestic/src/semantic.rs:493-586 | every simple allowed walk that ends for a reason is enumerated |
| Paths.EnumerationIsEmitted | crates/adapters-mnestic/src/semantic.rs:493-586 | a path is enumerated if and only if it is an allowed walk with its termination, stated without recursion |
| Paths.EnumerateDistinct | crates/adapters-mnestic/src/semantic.rs:493-586 | no path is enumerated twice when the adjacency lists have no duplicates |
| Paths.CutIsReported | crates/adapters-mnestic/src/semantic.rs:557-565 | the hop reason is owed if and only if some allowed walk of exactly `max_hops` edges could be extended |
| Paths.Search | crates/adapters-mnestic/src/semantic.rs:374-388 | the whole search returns a duplicate-free prefix of the enumeration; all of it when no limit is reported; `MaxPaths` means the list is full and at least one more path exists; `WorkLimit` is reported exactly when the cost exceeds the cap, unless `MaxPaths` came first; `MaxHops` exactly when some walk was cut |
| Paths.DestinationSearch | crates/adapters-mnestic/src/semantic.rs:506-509 | with a destination and no targets the search emits exactly the simple paths to it of at most `max_hops` edges |
| Paths.CompletionPoint | crates/adapters-mnestic/src/semantic.rs:429-447 | a completed walk completes at one node: before it a target is missing, at it all are visited, and its owner is the completion repository |
| Paths.TargetSearch | crates/adapters-mnestic/src/semantic.rs:510-516 | with targets and no destination every emitted path has entered every target by some node and stays in that node's repository afterwards, except for at most one last node outside the repositories that ends the path as a boundary |
| Paths.ContractIsLast | crates/adapters-mnestic/src/semantic.rs:510-516 | a node outside the repositories after completion ends the path, as a repository boundary |
| Paths.NoCompletionWithoutTargets | crates/adapters-mnestic/src/semantic.rs:429-447 | without targets no walk ever completes |
| Acquisition.CutKeepsWholeKeys | crates/adapters-mnestic/src/query.rs:2442-2447 | dropping the key a page was cut in leaves no edge with only part of its rows |
| Acquisition.PageIsWhole | crates/adapters-mnestic/src/query.rs:2422-2447 | a hop keeps at most the remaining rows, everything when the page fits, and only whole edges otherwise |
| Acquisition.Discover | crates/adapters-mnestic/src/query.rs:2449-2455 | the loop over a result finds the new entities and marks them visited |
| Acquisition.ExpandRing | crates/adapters-mnestic/src/query.rs:2422-2455 | one hop of acquisition: rows of the frontier only, all of them unless cut, whole edges, and the entities found first at this hop |
| Acquisition.RingExpanded | crates/adapters-mnestic/src/query.rs:2414-2465 | a hop that fits keeps the invariant: every entity within the hops is known with a level and every expanded one has its whole neighbourhood |
| Acquisition.RingCut | crates/adapters-mnestic/src/query.rs:2442-2460 | a hop that was cut marks the frontier and what it still found as incomplete, and everything else stays whole |
| Acquisition.MultipathRows | crates/adapters-mnestic/src/query.rs:2392-2473 | for any relation the acquired rows never exceed the cap, hold only whole edges, and are complete around every node that is not reported incomplete, the destination excepted |
| Edges.MergeEdges | crates/adapters-mnestic/src/semantic.rs:685-721 | rows are merged by source, target and relation: the confidence is the highest and the evidence the set of all of them |
| Edges.BuildAdjacency | crates/adapters-mnestic/src/semantic.rs:362-373 | the adjacency lists hold every step once, in order of neighbour and edge label |
| Edges.StepLessStrictTotal | crates/adapters-mnestic/src/semantic.rs:371-373 | neighbour and edge label order the steps of a node totally |
| Traverse.AcquisitionSound | crates/adapters-mnestic/src/semantic.rs:351-415 | for any cut, every path found over the acquired rows is a path of the whole relation with the termination the unbounded search gives it, and a leaf or a cycle is only reported where the whole neighbourhood was acquired |
| Traverse.AcquisitionExact | crates/adapters-mnestic/src/query.rs:2392-2473 | when nothing is incomplete, the search over the acquired rows emits exactly the paths of the search over the whole relation, in both directions |
| Traverse.WholeEvidenceMerged | crates/adapters-mnestic/src/semantic.rs:685-721 | an edge that is shown carries all the evidence the relation has for it |
| Traverse.AcquireUnfiltered | crates/adapters-mnestic/src/query.rs:2392-2473 | acquisition and graph building together: every edge is one of the relation with all its evidence |
| Traverse.TraverseUnfiltered | crates/adapters-mnestic/src/semantic.rs:351-415 | the traversal end to end: distinct paths of the whole relation, all of them when neither a limit nor acquisition cut the search, and `MaxPaths` only when another path exists |
| Traverse.SearchesAgree | crates/adapters-mnestic/src/semantic.rs:351-415 | the staged and the unbounded search agree: soundness always, equality when nothing is incomplete |
| Reach.ReverseQueries | crates/adapters-mnestic/src/query.rs:1829-1940 | the seed and frontier queries with their flipped gRPC implementations are the rows whose traversal target has the prefix, or lies in the frontier |
| Reach.ReachOneMore | crates/adapters-mnestic/src/query.rs:1997-2018 | one reverse hop extends the set of entities that reach the target within n edges to n + 1 |
| Reach.ReachSettled | crates/adapters-mnestic/src/query.rs:1997-2000 | once a hop finds nothing new the set is right for every larger number of hops |
| Reach.SeedTarget | crates/adapters-mnestic/src/query.rs:1982-1996 | the seed gives the entities that reach the target within one edge, and the frontier from which the next hop goes on |
| Reach.ReverseStep | crates/adapters-mnestic/src/query.rs:2001-2017 | a reverse hop that fits keeps the set exact and reads each row of its frontier once; when it gives up, the rows that lead to the target or to where it can be reached from exceed the budget |
| Reach.ReverseHops | crates/adapters-mnestic/src/query.rs:1997-2018 | the loop over the hops, with the row budget it leaves |
| Reach.ReverseReach | crates/adapters-mnestic/src/query.rs:1957-2021 | the reverse search of one target finds exactly the entities that reach it within `max_hops` edges, at least one; it reads no other rows than those that lead there and none more than twice, so it runs out only when twice their number exceeds the budget |
| Reach.ComputeReachability | crates/adapters-mnestic/src/query.rs:1957-2021 | for every target that does not own the start the table lists exactly the entities that reach it; what is spent of the row budget is at most twice the sum, over the targets, of the rows that lead to each, and running out means that this bound exceeds the budget |
| Reach.ReachTarget | crates/adapters-mnestic/src/query.rs:1957-2021 | one target of the loop: the start alone for its own target, otherwise the reverse search |
| Filtered.FilteredForward | crates/adapters-mnestic/src/query.rs:2028-2163 | the forward query returns all allowed rows of the states when they fit, shows when they do not, and names exactly the completed entities that have an edge to another repository |
| Filtered.AdvanceRow | crates/adapters-mnestic/src/query.rs:2253-2294 | one row moves every state that stands at its source; each state costs one step |
| Filtered.AdvanceState | crates/adapters-mnestic/src/query.rs:2259-2293 | the visited and the next states grow by exactly the move of the state over the row, and completion is noticed |
| Filtered.AdvanceStates | crates/adapters-mnestic/src/query.rs:2242-2295 | all rows of a hop move all states, each pair at one step, and the loop stops exactly when the steps do not suffice |
| Filtered.MoveIsAllowed | crates/adapters-mnestic/src/query.rs:2106-2117 | a row that moves a state is one the forward query allows, so filtering in the query loses no move |
| Filtered.MoveIsSane | crates/adapters-mnestic/src/query.rs:2262-2290 | a move keeps the visited targets among the targets and the completion consistent with them |
| Filtered.StateRingExpanded | crates/adapters-mnestic/src/query.rs:2223-2301 | a hop keeps the invariant of the state search: every state within the hops is known and the allowed rows of every expanded one are acquired |
| Filtered.FilteredRows | crates/adapters-mnestic/src/query.rs:2165-2313 | the filtered acquisition stays within the row cap, keeps whole edges and reports only completed entities with an edge into another repository as boundaries, however it ends; it comes to one of three outcomes, and when nothing is incomplete it has searched all states up to the hop limit, or nothing at all when no completion was found |
| Filtered.ForwardCompleted | crates/adapters-mnestic/src/query.rs:2204-2312 | the forward search with what the reverse search left; everything is dropped when no completion was found |
| Filtered.FrontIsSound | crates/adapters-mnestic/src/query.rs:2097-2125 | after any number of hops the acquired rows hold all evidence of their edges, because what the query lets through depends on the edge alone, and every boundary is a completed entity with an edge into another repository |
| Filtered.ForwardHop | crates/adapters-mnestic/src/query.rs:2227-2296 | one hop: either all allowed rows, in order, and their moves and steps, or the limit that stopped it and was exceeded |
| Filtered.ForwardSearch | crates/adapters-mnestic/src/query.rs:2216-2312 | the hop loop from the initial state, which stops after the first hop that does not fit; then exactly the rows of the hops before it are kept and the entities of its states are incomplete |
| Lossless.FollowIsMove | crates/adapters-mnestic/src/semantic.rs:449-473 | the step test of the depth-first search and the state move of the acquisition agree |
| Lossless.PrunedWalkStates | crates/adapters-mnestic/src/semantic.rs:449-473 | every node a pruned walk reaches was reached by the state search with the same visited targets and completion, at no later hop |
| Lossless.WalkReaches | crates/adapters-mnestic/src/query.rs:1957-2021 | a node of a walk that later enters a target reaches that target within the remaining edges |
| Lossless.MissingIsReachable | crates/adapters-mnestic/src/semantic.rs:467-472 | on a walk that completes, every node reaches every target still missing, so the pruning test never refuses it |
| Lossless.NaiveWalkIsPruned | crates/adapters-mnestic/src/query.rs:2165-2313 | every completing walk of the whole relation is a walk over the acquired rows |
| Lossless.PrunedWalkIsNaive | crates/adapters-mnestic/src/query.rs:2165-2313 | every pruned walk is a walk of the whole relation |
| Lossless.SettledSearch | crates/adapters-mnestic/src/query.rs:2165-2313 | after a settled state search the pruned and the naive search emit the same paths with the same terminations, boundaries included |
| Lossless.FilteredLossless | crates/adapters-mnestic/src/query.rs:2165-2313 | repository filtering is lossless: when nothing is incomplete the emitted paths are exactly those of a search of the whole relation without reachability pruning, also when rows were cleared or never acquired |
| Cut.TraverseFiltered | crates/adapters-mnestic/src/semantic.rs:351-415 | the filtered traversal end to end: edges keep all their evidence; every path is a completing walk of the whole relation; every path is one the naive search emits when nothing was cut or when at most one target is left to enter, and otherwise if and only if nothing that leads on from its end was left out; without a cut or limit the paths are exactly those of the naive search |
| Cut.PrunedPathsAreNaive | crates/adapters-mnestic/src/semantic.rs:351-415 | the statement about all paths of a filtered search, cut or not, that the end-to-end method uses |
| Cut.AcquireFiltered | crates/adapters-mnestic/src/query.rs:2165-2313 | acquisition and graph building together: every edge is one of the relation with all its evidence |
| Cut.CutEnds | crates/adapters-mnestic/src/query.rs:2390-2391 | after a cut, path by path: a repository boundary and a hop limit are always true, and a leaf or a cycle is true if and only if its end has no unacquired edge that leads on and no unseen edge into another repository |
| Cut.FrontExpands | crates/adapters-mnestic/src/query.rs:2165-2313 | for every hop of the state search: a state that was found and is no longer waiting has had all its allowed rows acquired, all its moves made and its boundary seen, and every acquired row was acquired for such a state |
| Cut.ExpandedBeforeCut | crates/adapters-mnestic/src/query.rs:2165-2313 | the guard, for any number of targets: when the state in which a path ends was expanded before the cut, its leaf or cycle is one of the naive search |
| Cut.OneTargetIsTrue | crates/adapters-mnestic/src/query.rs:2390-2391 | with at most one target left to enter, every path of every cut or uncut search, for every relation, is one of the naive search |
| FalseLeaf.LeafIsFalse | crates/adapters-mnestic/src/query.rs:2390-2391 | the promise fails: for every graph of the given shape with more than 10,000 contract edges at one entity, every filtered search reports a leaf at an entity that has an edge which was not acquired; the naive search reports no leaf there but a repository boundary, and goes on over that edge |
| FalseLeaf.CutHappens | crates/adapters-mnestic/src/query.rs:2165-2313 | and the graph has such a search |
| FalseLeaf.TrueUpToOneTarget | crates/adapters-mnestic/src/query.rs:2390-2391 | so the promise holds for all queries with at most n targets left to enter, and every relation, if and only if n is at most one |
| FalseLeaf.IsCut | crates/adapters-mnestic/src/query.rs:2223-2241 | the forward search of that graph stops in front of its fourth hop, whatever the reverse search left of the budget |
| FalseLeaf.ReadsLittle | crates/adapters-mnestic/src/query.rs:1957-2021 | the reverse searches of both targets read at most 28 rows of it, so they do not run out |
| FalseLeaf.GraphExists | crates/adapters-mnestic/src/query.rs:2097-2125 | such identifiers and rows exist |
| Closure.RelaxedIsExact | crates/adapters-mnestic/src/semantic.rs:280-311 | distances that start at the root, are attained by trails and grow by at most one over every edge are the true hop distances |
| Closure.BeyondIsAnEdge | crates/adapters-mnestic/src/semantic.rs:293-304 | an entity lies just beyond the limit if and only if an edge leads from the last hop to an unknown entity |
| Closure.Relax | crates/adapters-mnestic/src/semantic.rs:298-304 | relaxing the neighbours of the head keeps the queue in order of distance |
| Closure.Distances | crates/adapters-mnestic/src/semantic.rs:280-311 | the breadth-first search knows exactly the entities within the limit, each with its true distance, and reports truncation exactly when one lies at the next distance |
| Closure.VisitNode | crates/adapters-mnestic/src/semantic.rs:290-308 | one turn of the search keeps the invariant and makes progress |
| Closure.Witness | crates/adapters-mnestic/src/query.rs:1750-1758 | the last hop keeps one row to an unknown entity, if there is one |
| Closure.ClosureRows | crates/adapters-mnestic/src/query.rs:1721-1789 | the acquired rows hold the whole neighbourhood of every entity before the last hop and a witness of truncation |
| Closure.ClosureIsExact | crates/adapters-mnestic/src/query.rs:1721-1789 | distances up to the limit and truncation are the same over the acquired rows as over the whole relation |
| Closure.StagedClosure | crates/adapters-mnestic/src/semantic.rs:219-311 | acquisition followed by distances gives the true distances of the whole relation, and `truncated` holds if and only if some entity lies at distance limit + 1 |
| ShortestPath.HeadIsLeast | crates/adapters-mnestic/src/semantic.rs:612-648 | the trail recorded for the head of the queue is the least of all trails to entities not yet passed, shorter first, then by nodes |
| ShortestPath.NewIsBest | crates/adapters-mnestic/src/semantic.rs:620-627 | an entity found from the head is recorded with its least shortest trail |
| ShortestPath.NewInOrder | crates/adapters-mnestic/src/semantic.rs:620-646 | appending it keeps the queue in the order of the trails |
| ShortestPath.Discovered | crates/adapters-mnestic/src/semantic.rs:620-646 | finding an entity keeps the invariant of the search |
| ShortestPath.OutEdgesSorted | crates/adapters-mnestic/src/semantic.rs:604-607 | edges grouped by their source stay sorted |
| ShortestPath.FollowNew | crates/adapters-mnestic/src/semantic.rs:620-646 | following a new edge keeps the invariant of the loop over a node's edges |
| ShortestPath.FollowedAll | crates/adapters-mnestic/src/semantic.rs:620-648 | after the loop the head counts as expanded |
| ShortestPath.WalkBack | crates/adapters-mnestic/src/semantic.rs:627-644 | the walk back over the parents terminates at the start and rebuilds the recorded trail with its edges |
| ShortestPath.FollowEdges | crates/adapters-mnestic/src/semantic.rs:620-647 | the loop either arrives at the target or leaves the search invariant for the next head |
| ShortestPath.TraceNode | crates/adapters-mnestic/src/semantic.rs:612-648 | one turn of the search, with the measure that makes it terminate |
| ShortestPath.Trace | crates/adapters-mnestic/src/semantic.rs:589-650 | the search returns a path exactly when the target is within the limit; the path is the lexicographically least of the shortest ones, each edge the first between its ends; without a path, truncation means an entity lies just beyond the limit |
| ShortestPath.TraceIsShortest | crates/adapters-mnestic/src/semantic.rs:589-650 | the length of a returned path is the hop distance |
| ShortestPath.NeverArrived | crates/adapters-mnestic/src/semantic.rs:612-649 | an exhausted queue means the target is farther than the limit |
| ShortestPath.TrailKept | crates/adapters-mnestic/src/query.rs:1721-1789 | every trail within the limit survives acquisition |
| ShortestPath.TraceIsExact | crates/adapters-mnestic/src/query.rs:1542-1550 | a path found over the acquired rows is the least shortest path of the whole relation |
| ShortestPath.TraceEdgeIsFirst | crates/adapters-mnestic/src/semantic.rs:604-631 | each of its edges is the first edge of the whole relation between its ends |
| ShortestPath.StagedTrace | crates/adapters-mnestic/src/semantic.rs:313-349 | trace end to end: the least shortest path of the whole relation, none exactly when the target is farther than the limit, and exact truncation |
| EntityNames.LastSegment | crates/adapters-mnestic/src/semantic.rs:1078-1082 | the last non-empty segment between slashes and colons is a part of the id |
| EntityNames.PlainNamesAgree | crates/adapters-mnestic/src/query.rs:1018-1019 | for ids without a special form the script and the service derive the same name if and only if the id, without at most one closing slash, ends in a non-empty segment that is not all of it when the slash was there, or the id is slashes and colons alone |
| EntityNames.NestedMethodsDiffer | crates/adapters-mnestic/src/query.rs:1016-1016 | for a gRPC id with more than one path segment neither the id nor any name derived in the script starts with the name the service gives it |
| EntityNames.PieceIsSolid | crates/adapters-mnestic/src/query.rs:1103-1106 | the pieces of a query contain no dot, slash or colon and occur in the query |
| EntityNames.NameIsCut | crates/adapters-mnestic/src/semantic.rs:1044-1083 | a text without separators that occurs in the name of an entity occurs in its id, for all five forms of names |
| EntityNames.PrefilterIsLossless | crates/adapters-mnestic/src/query.rs:1103-1106 | whatever prefix of an id or its name is searched, its longest piece occurs in the id, so the substring prefilter loses no match |
| Ranking.TopIsKept | crates/adapters-mnestic/src/semantic.rs:74-84 | a candidate set that contains the globally best elements has the same best elements in the same order |
| Ranking.InTop | crates/adapters-mnestic/src/query.rs:1026-1028 | an element is among the first `n` of a sorted result if and only if it is in it and fewer than `n` sort before it |
| EntitySearch.SearchEntityFacts | crates/adapters-mnestic/src/query.rs:1097-1137 | the four results are concatenated, the shard and enrichment rows without the ids returned before them |
| EntitySearch.SearchEntities | crates/adapters-mnestic/src/semantic.rs:68-94 | the rows become one entity per id, the last row deciding, and the matches are sorted and cut |
| EntitySearch.RankedIsStored | crates/adapters-mnestic/src/semantic.rs:74-78 | nothing is invented: whatever the scripts return, every result is a stored entity that matches |
| EntitySearch.ShowsIsReturned | crates/adapters-mnestic/src/query.rs:1019-1028 | the guard by which a layer shows an id says exactly which ids its limited result holds |
| EntitySearch.RegularIsShown | crates/adapters-mnestic/src/query.rs:1097-1137 | where an id has one description and the scripts derive the service's names, every globally best id is shown; shards store the service's name and need no condition |
| EntitySearch.SearchIsGlobal | crates/adapters-mnestic/src/query.rs:1097-1137 | without any hypothesis: the layered search returns the first `limit` of all matching ids, in order of rank and id, if and only if each of them is shown by some layer, that is the layer's script finds the id and fewer than `limit` of its rows sort before it |
| EntitySearch.Search | crates/adapters-mnestic/src/semantic.rs:68-94 | the search end to end: only stored entities that match; the global answer if and only if its ids are shown, and always where an id has one description and the scripts of states, revision and enrichment derive the service's names |
| ViewSearch.LosersAgree | crates/adapters-mnestic/src/storage.rs:2738-2822 | where descriptions agree, the winning enrichment contributions describe every entity that any selected owner describes |
| ViewSearch.LayersAreSelected | crates/adapters-mnestic/src/storage.rs:2517-2553 | in a view the four layers together hold exactly what validation saw, and an entity has one description within and across them |
| ViewSearch.SearchView | crates/adapters-mnestic/src/semantic.rs:68-94 | the search of a view: each result is the one description of a selected entity; the answer is the global one if and only if its ids are shown, and always where the scripts derive the service's names |
| EntitySearch.NestedMethodIsMissed | crates/adapters-mnestic/src/query.rs:1016-1016 | the second condition is needed: a stored gRPC method with a nested path is not found by its own name |
| Facts.StoredIsContent | crates/adapters-mnestic/src/storage.rs:1501-1569 | reading a state whose rows are all there gives exactly its facts |
| GarbageCollection.ResolveIsWhole | crates/adapters-mnestic/src/storage.rs:2129-2141 | the state chosen for a repository has its facts, is stored already or is the fresh one, and only a fresh one adds rows |
| GarbageCollection.StepIsSafe | crates/adapters-mnestic/src/storage.rs:3871-4127 | every transaction keeps the invariant: live states have their state row, states with a row have all their facts, nothing is selected ahead of the current revision |
| GarbageCollection.RunIsSafe | crates/adapters-mnestic/src/storage.rs:3871-4127 | the invariant holds after every step of every interleaving of publication, deletion, claim and single sweep batches |
| GarbageCollection.LiveIsReadable | crates/adapters-mnestic/src/storage.rs:1466-1574 | in every reachable database a live state, and every state with a row, reads back as exactly its facts, also when it was published again while half swept |
| GarbageCollection.PublishSafe | crates/adapters-mnestic/src/storage.rs:1920-2305 | a publication keeps the invariant |
| GarbageCollection.PublishSelects | crates/adapters-mnestic/src/storage.rs:2127-2142 | a publication selects for each repository a state with the published facts, readable in full, and leaves every other view alone |
| GarbageCollection.CopySafe | crates/adapters-mnestic/src/storage.rs:3485-3500 | copying a revision keeps the invariant and the selection |
| GarbageCollection.DeleteRepositorySafe | crates/adapters-mnestic/src/storage.rs:1274-1340 | deleting a repository revision keeps the invariant, though it looks only at the views |
| GarbageCollection.ClaimTakesStale | crates/adapters-mnestic/src/storage.rs:3871-3914 | a claim leaves exactly the live states and queues no live one |
| GarbageCollection.CollectionKeepsCurrent | crates/adapters-mnestic/src/storage.rs:3871-4127 | claiming and sweeping states never changes what a current revision selects |
| GarbageCollection.SweepKeepsCurrent | crates/adapters-mnestic/src/storage.rs:4470-4508 | sweeping revisions below a number leaves the current selection alone, for every batch, if and only if the view is not behind that number or selects nothing |
| GarbageCollection.RecreatedViewIsSwept | crates/adapters-mnestic/src/storage.rs:4461-4508 | the condition can fail: a view deleted and published again between reading the revisions and a batch loses its new selection |
| GarbageCollection.ReadingStaysBehind | crates/adapters-mnestic/src/storage.rs:4461-4476 | while a view is not created anew, a revision read earlier never exceeds the current one |
| GarbageCollection.SweepIsHarmless | crates/adapters-mnestic/src/storage.rs:4461-4508 | so a sweep of superseded revisions changes no current selection on any run on which the view was not created anew since the reading |
| StateStore.MatchedOnly | crates/adapters-mnestic/src/storage.rs:1931-1944 | a publication that passes the check names every repository of the view once and no other |
| StateStore.Store.constructor | crates/adapters-mnestic/src/storage.rs:3871-3914 | an empty store is safe |
| StateStore.Store.PublishRepository | crates/adapters-mnestic/src/storage.rs:1191-1272 | refused without an analysis identity and then nothing changes; otherwise the new contents, whether the revision row changed, and the invariant |
| StateStore.Store.StoreState | crates/adapters-mnestic/src/storage.rs:2129-2141 | the state chosen for the facts and exactly the rows that were missing |
| StateStore.Store.StoreStates | crates/adapters-mnestic/src/storage.rs:2127-2142 | the loop over the repositories chooses as if each were stored into the original database |
| StateStore.Store.RecordStates | crates/adapters-mnestic/src/storage.rs:3780-3808 | the loop writes the state rows and the selection of the new revision |
| StateStore.LoopIsResolution | crates/adapters-mnestic/src/storage.rs:3786-3806 | the selection the loop writes is the one the transaction is specified by |
| StateStore.Store.PublishStates | crates/adapters-mnestic/src/storage.rs:2127-2219 | storing, numbering and selecting together are the publication transaction |
| StateStore.Store.PublishObservations | crates/adapters-mnestic/src/storage.rs:1920-2305 | accepted exactly when the facts match the view; the new contents, or no change |
| StateStore.Store.CopyRevision | crates/adapters-mnestic/src/storage.rs:3485-3500 | the revision is copied under the next number |
| StateStore.Store.DeleteView | crates/adapters-mnestic/src/storage.rs:1342-1464 | every selection of the view is gone and no other |
| StateStore.Store.DeleteRepository | crates/adapters-mnestic/src/storage.rs:1283-1339 | the repository revision is gone, its state queued if no view selects it, and the count says so |
| StateStore.Store.DeleteRepositoryRevision | crates/adapters-mnestic/src/storage.rs:1274-1340 | with a standalone view that view is deleted first |
| StateStore.Store.Claim | crates/adapters-mnestic/src/storage.rs:3871-3914 | exactly the stale states lose their row and are queued, and their number is returned |
| StateStore.Store.RemoveBatch | crates/adapters-mnestic/src/storage.rs:4070-4127 | a batch is removed only while the state has no row again; otherwise nothing changes |
| StateStore.Store.Select | crates/adapters-mnestic/src/storage.rs:4011-4024 | a batch is at most 10,000 rows and empty only when nothing is left |
| StateStore.Store.SweepTable | crates/adapters-mnestic/src/storage.rs:3992-4044 | an undisturbed sweep of one relation removes all its rows of the state, or none when the state is back |
| StateStore.Store.SweepState | crates/adapters-mnestic/src/storage.rs:4426-4448 | after the five relations a queued state has no rows left unless it has its row again |
| StateStore.Store.Sweep | crates/adapters-mnestic/src/storage.rs:4260-4460 | an undisturbed sweep leaves nothing queued and removes exactly the rows of queued states without a state row |
| Winners.CandidateLessStrictTotal | crates/adapters-mnestic/src/storage.rs:2633-2639 | cost and owner order the bids totally |
| Winners.WinnerOutbidsAll | crates/adapters-mnestic/src/storage.rs:2738-2822 | the winner of a fact is the owner of a stored bid that no other bid undercuts |
| Winners.RefreshIsRebuild | crates/adapters-mnestic/src/storage.rs:2599-2736 | refreshing the facts of the changed owners turns the bulk result for the old owners into the bulk result for the new ones, if every owner whose bids changed is among them |
| Winners.UnselectedRowsDoNotBid | crates/adapters-mnestic/src/storage.rs:2738-2822 | rows of owners that are not selected change no winner |
| Winners.RefreshTable | crates/adapters-mnestic/src/storage.rs:2624-2641 | the two statements per relation take out the affected facts and put their new winners |
| Winners.RefreshTables | crates/adapters-mnestic/src/storage.rs:2624-2735 | the four relations together are the refresh |
| Winners.RefreshSelections | crates/adapters-mnestic/src/storage.rs:2599-2610 | the result is the bulk rebuild below, at and above the threshold of 256 changed owners, so the crossover never changes a result |
| Dependencies.RulesAgree | rules/core/outgoing_dependencies.datalog:1-156 | the frontier rules, with the fact-shard rules and the override filter applied in code, derive exactly the edges of the whole-view rules whose source is in the frontier |
| Dependencies.DirectIsLocal | rules/core/direct.datalog:1-337 | the edges of a source depend only on the rows of that source |
| Dependencies.RefreshIsRebuild | crates/adapters-mnestic/src/storage.rs:3354-3483 | if the sources include every one whose inputs changed, refreshing them turns the rebuilt table of the old inputs into the rebuilt table of the new inputs |
| Dependencies.GroupingIsHarmless | crates/adapters-mnestic/src/storage.rs:3383-3429 | taking the highest confidence in each query before the override filter gives the same table |
| Dependencies.Collect | crates/adapters-mnestic/src/storage.rs:3430-3448 | the loop keeps for every edge its highest confidence |
| Dependencies.KeepShardEdges | crates/adapters-mnestic/src/storage.rs:3420-3429 | the loop adds exactly the shard edges that no override replaces |
| Dependencies.RefreshResolved | crates/adapters-mnestic/src/storage.rs:3354-3483 | the refresh replaces exactly the rows of the affected sources |
| Publication.StatesCovered | crates/adapters-mnestic/src/storage.rs:1827-1883 | a source outside the collected ones has the same state rows before and after |
| Publication.ShardsCovered | crates/adapters-mnestic/src/storage.rs:76-154 | a source outside the collected ones has the same shard rows before and after |
| Publication.WinsAsBefore | crates/adapters-mnestic/src/storage.rs:1885-1917 | a row of a source outside the collected ones wins before exactly when it wins after |
| Publication.EnrichmentsCovered | crates/adapters-mnestic/src/storage.rs:1885-1917 | a source outside the collected ones has the same winning enrichment rows and overrides before and after |
| Publication.PublishSettled | crates/adapters-mnestic/src/storage.rs:1920-2305 | a publication keeps the invariant of the view: stored rows of selected owners are there, selections name outputs that exist |
| Publication.EnrichSettled | crates/adapters-mnestic/src/storage.rs:3051-3310 | so does an enrichment publication, whatever its outcome |
| Publication.SweepSettled | crates/adapters-mnestic/src/storage.rs:4129-4225 | so do a sweep batch of an unselected owner and the removal of its output row |
| Publication.SweepRevisionsSettled | crates/adapters-mnestic/src/storage.rs:4461-4508 | so does every batch of rows of superseded revisions, relation by relation, which keeps the current manifest and selects no new owner |
| Publication.PublishCovered | crates/adapters-mnestic/src/storage.rs:2107-2166 | the sources collected by a publication cover every source whose inputs it changes |
| Publication.ReplaceCovered | crates/adapters-mnestic/src/storage.rs:2385-2421 | so do the sources of the owners that new inputs make obsolete |
| Publication.ChangedOwnersBid | crates/adapters-mnestic/src/storage.rs:3224-3228 | the symmetric difference of old and new owners covers every owner whose bids change |
| Publication.EnrichCovered | crates/adapters-mnestic/src/storage.rs:3282-3289 | the sources of the changed owners cover an enrichment publication |
| Publication.MissingUnselected | crates/adapters-mnestic/src/storage.rs:3186-3216 | rows stored for missing outputs belong to no selected owner |
| EntityContract.SelectAll | crates/domain/src/semantic.rs:686-700 | the loop over the entity facts either finds an id with two descriptions or keeps one description for each id |
| EntityContract.Validate | crates/domain/src/semantic.rs:681-716 | accepted exactly when facts of one entity agree and every end of an observation or override in force is described; otherwise a conflicting id, or the least end without a description |
| EntityContract.EdgesAreDescribed | crates/domain/src/semantic.rs:674-680 | what validation accepts describes both ends of every resolved dependency |
| Publication.AcceptedIsConsistent | crates/adapters-mnestic/src/storage.rs:2517-2553 | what is committed after validation describes every entity once and both ends of every resolved dependency |
| Publication.ReplaceConsistent | crates/adapters-mnestic/src/storage.rs:2385-2421 | replacing inputs, which is not validated everywhere, cannot make an entity described twice |
| Publication.SweepConsistent | crates/adapters-mnestic/src/storage.rs:4129-4225 | nor can a sweep |
| ViewStore.View.constructor | crates/adapters-mnestic/src/storage.rs:3312-3352 | a view without a revision has empty derived tables, equal to a rebuild |
| ViewStore.InstallShards | crates/adapters-mnestic/src/storage.rs:185-264 | the loop over incoming shards ends with the incoming selection and the sources of every shard it installed |
| ViewStore.View.ReplaceFactShards | crates/adapters-mnestic/src/storage.rs:76-312 | the shards become the incoming ones and the sources are those of every shard that came or went |
| ViewStore.View.RemoveObsolete | crates/adapters-mnestic/src/storage.rs:2555-2597 | exactly the owners without an input are dropped and the winners follow |
| ViewStore.View.UpdateWinners | crates/adapters-mnestic/src/storage.rs:2599-2610 | the winners become those of the new owners |
| ViewStore.View.RefreshDependencies | crates/adapters-mnestic/src/storage.rs:3354-3483 | with covering sources the refreshed table equals the rebuilt one |
| ViewStore.View.RebuildDependencies | crates/adapters-mnestic/src/storage.rs:3312-3352 | the rebuilt table |
| ViewStore.View.OpenRevision | crates/adapters-mnestic/src/storage.rs:2174-2269 | the next revision carries the selections forward without the obsolete ones |
| ViewStore.View.WriteContent | crates/adapters-mnestic/src/storage.rs:2107-2283 | the whole new contents of a publication, and the sources collected on the way |
| ViewStore.View.WriteRevision | crates/adapters-mnestic/src/storage.rs:2107-2283 | the same with sources that cover every change when the refresh is incremental |
| ViewStore.View.ValidateSelected | crates/adapters-mnestic/src/storage.rs:2517-2553 | passes exactly when what the view now selects is sound, read through the winners |
| ViewStore.View.Commit | crates/adapters-mnestic/src/storage.rs:2284-2291 | a transaction commits exactly when validation passes, with its dependencies refreshed or rebuilt; otherwise everything it wrote is taken back |
| ViewStore.View.PublishContent | crates/adapters-mnestic/src/storage.rs:2191-2305 | commits exactly when the new contents are sound; then winners and dependency table equal a rebuild, refreshed or rebuilt, and no entity has two descriptions; otherwise nothing changes |
| ViewStore.View.PublishObservations | crates/adapters-mnestic/src/storage.rs:1966-1990 | a publication known to say what is stored only replaces the inputs; accepted or refused, the derived tables equal a rebuild and no entity has two descriptions |
| ViewStore.View.RefreshSemanticNoop | crates/adapters-mnestic/src/storage.rs:1094-1176 | taken exactly when the semantic fingerprint is the stored one; fails when a repository has no selected state or what is left is not sound, and then nothing changes |
| ViewStore.View.CommitInputs | crates/adapters-mnestic/src/storage.rs:1152-1174 | the inputs are replaced exactly when what is left is sound |
| ViewStore.View.WriteInputs | crates/adapters-mnestic/src/storage.rs:2824-2860 | new inputs stay in the revision or, when they make owners obsolete, go to a copy of it |
| ViewStore.View.CopyRevision | crates/adapters-mnestic/src/storage.rs:2824-2860 | the copy goes under the next number, without the owners its inputs drop |
| ViewStore.View.ReplaceRevisionInputs | crates/adapters-mnestic/src/storage.rs:2385-2421 | the derived tables equal a rebuild after the inputs were replaced |
| ViewStore.View.EnsureRevisionInputs | crates/adapters-mnestic/src/storage.rs:2385-2421 | inputs are replaced exactly when the analysis fingerprint is the stored one |
| ViewStore.View.WriteOutput | crates/adapters-mnestic/src/storage.rs:3186-3287 | the new contents of an enrichment publication and its sources |
| ViewStore.View.SelectOutput | crates/adapters-mnestic/src/storage.rs:3186-3310 | selected in a new revision exactly when the result is sound; the derived tables equal a rebuild either way |
| ViewStore.View.PublishEnrichment | crates/adapters-mnestic/src/storage.rs:3051-3310 | the outcome is the specified one, refusal of foreign or unversioned fact shards and refusal by validation included, and the contents change only when published, with both derived tables equal to a rebuild and one description for each entity |
| ViewStore.View.SweepOwnerBatch | crates/adapters-mnestic/src/storage.rs:4070-4127 | a batch is removed only while no revision selects the owner, and the derived tables stay equal to a rebuild |
| ViewStore.View.RemoveOwnerOutput | crates/adapters-mnestic/src/storage.rs:4129-4225 | the output row goes only while no revision selects the owner |
| ViewStore.View.SweepSuperseded | crates/adapters-mnestic/src/storage.rs:4461-4508 | removing any batch of rows of superseded revisions keeps the derived tables |
| ViewStore.View.Delete | crates/adapters-mnestic/src/storage.rs:1342-1464 | a deleted view has no rows left |
| SharedStore.TransactionCouples | crates/adapters-mnestic/src/storage.rs:1920-2305 | one transaction, seen by a view and by the relations all views share: both still select the same states for every revision of the view, and the shared relations stay safe |
| SharedStore.RunCouples | crates/adapters-mnestic/src/storage.rs:3871-4127 | so they do after every step of every run of transactions of the view among those of other views, claims and single sweep batches |
| SharedStore.SweepBelongs | crates/adapters-mnestic/src/storage.rs:4461-4508 | any batch of a sweep of superseded revisions belongs to such a run as long as the view was not created again after its revision was read |
| SharedStore.DependenciesAreSeen | rules/core/direct.datalog:223-227 | the relation that holds only dependencies gives exactly the dependencies among the observations joined with their metadata |
| SharedStore.DerivedFromRows | crates/adapters-mnestic/src/storage.rs:3312-3352 | on every such run the winners and the resolved dependencies of a view are what a rebuild gives that reads the states through their stored rows, and validation reads every entity of those states |
| Enrichments.PublishedChangesOnlyItsKey | crates/adapters-mnestic/src/storage.rs:3218-3265 | a published enrichment raises the revision by one, keeps every earlier manifest, and changes only the selections of its repository and analyzer |
| Enrichments.PublishedMatches | crates/adapters-mnestic/src/storage.rs:2862-2893 | after a published or unchanged outcome `enrichment_matches` holds for its version |
| Enrichments.PublishingAgainIsUnchanged | crates/adapters-mnestic/src/storage.rs:3149-3158 | publishing the same again is unchanged and changes nothing |
| Enrichments.NewerInputOnly | crates/adapters-mnestic/src/storage.rs:3149-3265 | the same payload under a newer input stores no contribution, changes no winner and no input of the dependency rules |
| Enrichments.EventTracks | crates/adapters-mnestic/src/storage.rs:4129-4225 | every step keeps the record of the owners whose rows were swept while their output row remained |
| Enrichments.HistoryTracks | crates/adapters-mnestic/src/storage.rs:4129-4225 | the record is right on every run |
| Enrichments.SupersededIsInvisible | crates/adapters-mnestic/src/storage.rs:3116-3119 | a publication computed from an input the revision no longer expects can be left out of any run: all later states are the same |
| Enrichments.SelectedIsWhole | crates/adapters-mnestic/src/storage.rs:3159-3189 | on every run a selected owner has all its contributions if and only if it was not caught half swept |
| Enrichments.PublishedIsWhole | crates/adapters-mnestic/src/storage.rs:3159-3189 | a published owner has all its facts if and only if it had no output before or had them all already |
| Enrichments.SweepSpares | crates/adapters-mnestic/src/storage.rs:4070-4127 | an existing output keeps all its facts under every batch if and only if a revision selects it or it has none |
| Enrichments.SafelySelectedIsWhole | crates/adapters-mnestic/src/storage.rs:3159-3189 | on a run whose publications select only owners that are new or still selected by some revision, every selected owner has all its facts |
| Enrichments.ReselectedLacksFact | crates/adapters-mnestic/src/storage.rs:3159-3189 | a run from an empty view to one that selects an owner without a fact it contributed: published, replaced, its revision swept, half of its rows swept, published again |
| Framing.ValueOfLittleEndian | crates/adapters-mnestic/src/storage.rs:857-860 | the length prefix determines the length |
| Framing.UnframeFrame | crates/adapters-git/src/lib.rs:218-221 | a framed text is read back from the front of any bytes |
| Framing.UnframeAllFrames | crates/adapters-mnestic/src/storage.rs:857-860 | a list of framed texts is read back whole |
| Framing.Digest.Framed | crates/adapters-git/src/lib.rs:218-221 | a framed update appends the length and the bytes to what is hashed |
| RepositoryDigest.ReadPreimage | crates/adapters-git/src/lib.rs:194-216 | a decoder inverts the digest input for every identity, head and list of inputs |
| RepositoryDigest.PreimageIsInjective | crates/adapters-git/src/lib.rs:194-216 | equal digest inputs come from equal repositories |
| RepositoryDigest.FeedInputs | crates/adapters-git/src/lib.rs:206-210 | the loop over the inputs appends path, kind and content of each |
| RepositoryDigest.Fingerprint | crates/adapters-git/src/lib.rs:194-216 | the updates in order hash exactly the specified bytes |
| OwnerIdentity.SplitOwnerKey | crates/adapters-mnestic/src/storage.rs:314-316 | the length-prefixed owner key gives back analyzer and repository, colons and digits included |
| OwnerIdentity.NumberOfDigits | crates/adapters-mnestic/src/storage.rs:314-316 | the decimal length reads back |
| OwnerIdentity.TheTagsAreDistinct | crates/adapters-mnestic/src/storage.rs:2946-3008 | the row tags and the unit marker differ from each other |
| OwnerIdentity.ReadFlatten | crates/adapters-mnestic/src/storage.rs:3010-3014 | tagged rows of fixed arity are read back from the flat list of texts |
| OwnerIdentity.RowBeforeStrictTotal | crates/adapters-mnestic/src/storage.rs:2946-3000 | rows are ordered by their texts, so a set of rows is hashed in one order |
| OwnerIdentity.ReadPreimage | crates/adapters-mnestic/src/storage.rs:2940-3016 | a decoder inverts what is hashed: analyzer, repository, version, unit and the set of rows |
| OwnerIdentity.PreimageIsInjective | crates/adapters-mnestic/src/storage.rs:2940-3016 | equal bytes under the snapshot hash come from equal owners and payloads |
| OwnerIdentity.SnapshotId | crates/adapters-mnestic/src/storage.rs:3001-3015 | the updates in order hash exactly the specified bytes |
| GraphqlSelection.SelectionFacts.Select | crates/adapters-graphql/src/operations.rs:146-206 | the recursive walk over visited fragments, fields and observations computes the specified expansion and terminates on cyclic spreads |
| GraphqlSelection.SelectionFacts.SelectOne | crates/adapters-graphql/src/operations.rs:146-206 | one selection: a field, a spread of an unvisited fragment, or an inline fragment |
| GraphqlUnfolding.ExpandAdds | crates/adapters-graphql/src/operations.rs:146-206 | everything the expansion adds lies in the infinite unfolding of the selections |
| GraphqlUnfolding.ExpandCovers | crates/adapters-graphql/src/operations.rs:146-206 | everything below the selections and below every newly visited fragment is covered when the expansion ends |
| GraphqlUnfolding.UnfoldingIsFound | crates/adapters-graphql/src/operations.rs:146-206 | whatever a covered selection unfolds to at any depth was found |
| GraphqlUnfolding.FieldsAreExact | crates/adapters-graphql/src/operations.rs:146-206 | when every fragment has a type condition, the fields created are exactly those reachable in the infinite unfolding |
| GraphqlUnfolding.ObservationsAreExact | crates/adapters-graphql/src/operations.rs:146-206 | for every document whose fragments have type conditions: a selection is observed if and only if it lies in the unfolding that follows a spread only under the selector that spread the fragment first |
| GraphqlUnfolding.NothingIsLost | crates/adapters-graphql/src/operations.rs:178-196 | a condition on the document alone: every selection of the unfolding is observed if and only if, wherever the unfolding spreads a fragment, the fields that stand directly in it lie under that selector in the unfolding that follows a spread under its first selector only |
| GraphqlUnfolding.SelectionsAreExact | crates/adapters-graphql/src/operations.rs:146-206 | so when no fragment is spread under two selectors, the observations are exactly those of the unfolding |
| GraphqlUnfolding.SecondSpreadIsLost | crates/adapters-graphql/src/operations.rs:178-196 | without that condition the second spread of a fragment loses its observations |
| Utf16.DecodeEncode | workers/typescript/analyzer.go:692-707 | every scalar value is decoded from its own encoding, with its width |
| Utf16.RunesOfEncoded | workers/typescript/analyzer.go:692-707 | ranging over valid text yields its scalar values |
| Utf16.Utf16ByteOffset | workers/typescript/analyzer.go:692-707 | for any bytes the loop returns the byte offset at which the position falls between two runes, or fails because the position splits a surrogate pair or lies outside the line |
| Utf16.OffsetIsUnique | workers/typescript/analyzer.go:692-707 | a position has one outcome, so success and the two failures exclude each other |
| Utf16.PositionLeadsBack | crates/adapters-treesitter-csharp/src/analysis.rs:15-28 | the line and column computed for a scalar boundary lead back to that byte |
| Utf16.LineHolds | crates/adapters-treesitter-csharp/src/analysis.rs:15-28 | the line number names the line of the split text that holds the position |
| Utf16.SelectedText | workers/typescript/analyzer.go:673-690 | the selected text is the bytes between the two offsets of one line, and none otherwise |
| Utf16.SelectionLeadsBack | workers/typescript/analyzer.go:673-690 | positions computed for two boundaries of one line select exactly the bytes between them |
| Utf16.UnitsBounded | crates/adapters-treesitter-csharp/src/analysis.rs:15-28 | a column never exceeds the bytes of its line, so the 32-bit conversion saturates only beyond that |

## Left out

- Traverse.TraverseUnfiltered: without targets the hop, path, row and step limits are modelled, the acquisition deadline is not; running out of time aborts the query and returns nothing.
- Lossless.FilteredLossless: the reasons are not compared; rows are cleared when nothing completes, so `MaxHops` may be reported by one search only. A destination together with targets is refused before the search (`crates/dto/src/lib.rs:599`).
- Reach.ComputeReachability: for a target that owns the start only the start itself is recorded, as in the code.
- EntitySearch.SearchEntityFacts: rows of one rank and id are ordered by kind and metadata here; the scripts leave that order open, and with one description for each entity there is nothing to order.
- EntityNames.PlainNamesAgree: exact for ids without a special form; for the special forms only nested gRPC methods are treated. Ids are taken to contain no line break, which the scripts' patterns would not match.
- EntitySearch.Search: lengths in the choice of the longest piece are counted in characters; the lossless prefilter is proved for every piece, so the choice does not matter.
- StateStore.Store.Sweep: the undisturbed sweep is exact; under concurrent publications only safety is claimed, and a state queued anew may be left to the next sweep.
- StateStore.Store.DeleteView: of the rows of a view this class has its revision and its selections; the other relations of a view are in `ViewStore.View.Delete`.
- GraphqlUnfolding.ObservationsAreExact: for fragments with type conditions, which every valid fragment has; the fallback to the parent type at the first spread is in `GraphqlSelection` only.
- ViewStore.View.OpenRevision: the rows of a revision are one manifest per view; heads, contexts, metadata, gRPC diagnostics and semantic candidates are carried but never read here, so they have no place in it.
- ViewStore.View.WriteOutput: a payload is the set of its rows by key; two rows of one payload under one key, of which the store keeps the last, are not modelled.
- SharedStore.DerivedFromRows: the run is that of one view, any view; the others take part by what they do to the shared relations. Batches of a sweep whose view was created again since its revision was read are excluded, as `GarbageCollection.RecreatedViewIsSwept` shows they must be.
- Winners.CandidateLessStrictTotal: two owners of one analyzer and repository bid alike; the tie goes to the smaller owner, the order in which the candidates are listed.
- OwnerIdentity.PreimageIsInjective: lengths are bounded by 64 bits; the hash itself and text that is not valid in a path are outside.
- RepositoryDigest.PreimageIsInjective: the path enters as the bytes that are hashed, so how a path becomes bytes is not modelled, nor is the fingerprint of a working tree.
- Utf16.PositionLeadsBack: sources of at most 4 GiB, beyond which line and column saturate; positions inside a scalar value cannot be computed.
- The engine and its storage, migrations, query timing, tracing, retries and progress callbacks: library behaviour; an early stop of a sweep is the end of a run.
- FalseLeaf.LeafIsFalse: shown for a cut by the row limit; `Cut.OneTargetIsTrue` and `Cut.CutEnds` cover cuts by the step limit as well.
- Analyzer parsing and the presentation of entities, kinds, metadata and diagnostics: tables and shapes of other libraries.
- gRPC binding resolution: its observations are part of the content of a publication.
- Counts of inserted, updated and removed facts: reporting only.
- The sweep of legacy baseline rows and of the names of unselected fact shards: relations nothing in this model reads.
- The fingerprint that recognises an unchanged publication: its sections carry no counts, so no injectivity is claimed; that equal fingerprints mean equal content is not used, the inputs are replaced either way.
- Ownership of Buf modules: it would add one easy lemma.
- Confidence values are reals; rounding plays no part in comparing them.
