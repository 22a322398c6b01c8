/** The materialized dependency table: the rules that define it over a whole view, the frontier
    rules that recompute it for some sources, and the refresh that uses them. */
module Dependencies {
  import opened Order
  import opened Graph
  import opened Facts
  import opened Winners

  /** Everything the rules read of one view: the rows its states, fact shards and revision
      select, its overrides, and what its enrichment winners contribute. */
  datatype Inputs = Inputs(
    stateRows: set<Row>,
    shardRows: set<Row>,
    revisionRows: set<Row>,
    baseOverrides: set<Override>,
    enrichmentOverrides: set<Override>,
    enrichmentRows: set<Row>)

  /** Observations of a revision are typed as dependencies. */
  ghost predicate Typed(i: Inputs) {
    forall r :: r in i.revisionRows ==> IsDependency(r.relation)
  }

  datatype Observation = Observation(from: Entity, relation: Relation, to: Entity,
                                     evidence: string)

  function Observe(r: Row): Observation {
    Observation(r.from, r.relation, r.to, r.evidence)
  }

  /** What an override redirects. */
  datatype Target = Target(from: Entity, relation: Relation, unresolved: Entity)

  function TargetOf(o: Override): Target {
    Target(o.from, o.relation, o.unresolved)
  }

  function Dependent(rows: set<Row>): set<Row> {
    set r | r in rows && IsDependency(r.relation)
  }

  const NO_INPUTS := Inputs({}, {}, {}, {}, {}, {})

  // ---- the rules over the whole view --------------------------------------------------------------

  function Baseline(i: Inputs): set<Observation> {
    set r | r in i.stateRows + i.shardRows + i.revisionRows :: Observe(r)
  }

  function BaseTargets(i: Inputs): set<Target> {
    set o | o in i.baseOverrides :: TargetOf(o)
  }

  /** Overrides in force: those of the revision, and enrichments of what it does not override. */
  function Effective(i: Inputs): set<Override> {
    i.baseOverrides + set o | o in i.enrichmentOverrides && TargetOf(o) !in BaseTargets(i)
  }

  predicate Overridden(baseline: set<Observation>, overrides: set<Override>, r: Row) {
    Observe(r) in baseline
    && exists o :: o in overrides && TargetOf(o) == Target(r.from, r.relation, r.to)
  }

  predicate Observed(baseline: set<Observation>, target: Target) {
    exists b :: b in baseline && Target(b.from, b.relation, b.to) == target
  }

  /** Dependency rows that no override redirects. */
  function Kept(rows: set<Row>, baseline: set<Observation>, overrides: set<Override>): set<Row> {
    set r | r in Dependent(rows) && !Overridden(baseline, overrides, r)
  }

  function OverrideRows(overrides: set<Override>): set<Row> {
    set o | o in overrides :: o.Row()
  }

  /** Enrichment overrides of something observed that the revision does not override. */
  function Redirecting(overrides: set<Override>, baseline: set<Observation>, base: set<Target>)
    : set<Override>
  {
    set o | o in overrides && Observed(baseline, TargetOf(o)) && TargetOf(o) !in base
  }

  /** Enrichment rows that add to what was observed. */
  function Adding(rows: set<Row>, baseline: set<Observation>, overrides: set<Override>)
    : set<Row>
  {
    set r | r in rows && Observe(r) !in baseline && !Overridden(baseline, overrides, r)
  }

  function Direct(i: Inputs): set<Row> {
    Kept(i.stateRows, Baseline(i), Effective(i))
    + OverrideRows(i.baseOverrides)
    + Kept(i.shardRows, Baseline(i), Effective(i))
    + i.revisionRows
    + OverrideRows(Redirecting(i.enrichmentOverrides, Baseline(i), BaseTargets(i)))
    + Adding(i.enrichmentRows, Baseline(i), Effective(i))
  }

  function Unredirected(rows: set<Row>, baseline: set<Observation>, overrides: set<Override>)
    : set<Row>
  {
    set r | r in rows && !Overridden(baseline, overrides, r)
  }

  /** Every observation in force, of whatever relation. */
  function EffectiveRows(i: Inputs): set<Row> {
    Unredirected(i.stateRows, Baseline(i), Effective(i))
    + OverrideRows(set o | o in Effective(i) && Observed(Baseline(i), TargetOf(o)))
    + Unredirected(i.shardRows, Baseline(i), Effective(i))
    + i.revisionRows
    + Adding(i.enrichmentRows, Baseline(i), Effective(i))
  }

  // ---- the rules over a frontier --------------------------------------------------------------------

  function From(rows: set<Row>, frontier: set<Entity>): set<Row> {
    set r | r in rows && r.from in frontier
  }

  function OverridesFrom(overrides: set<Override>, frontier: set<Entity>): set<Override> {
    set o | o in overrides && o.from in frontier
  }

  /** Fact shards are only looked up in their dependency relation. */
  function FrontierBaseline(i: Inputs, frontier: set<Entity>): set<Observation> {
    set r | r in From(i.stateRows, frontier) + From(i.revisionRows, frontier)
               + From(Dependent(i.shardRows), frontier) :: Observe(r)
  }

  function FrontierTargets(i: Inputs, frontier: set<Entity>): set<Target> {
    set o | o in OverridesFrom(i.baseOverrides, frontier) :: TargetOf(o)
  }

  function FrontierOverrides(i: Inputs, frontier: set<Entity>): set<Override> {
    OverridesFrom(i.baseOverrides, frontier)
    + set o | o in OverridesFrom(i.enrichmentOverrides, frontier)
              && TargetOf(o) !in FrontierTargets(i, frontier)
  }

  function SelectedEdges(i: Inputs, frontier: set<Entity>): set<Row> {
    var baseline, overrides := FrontierBaseline(i, frontier), FrontierOverrides(i, frontier);
    Kept(From(i.stateRows, frontier), baseline, overrides)
    + OverrideRows(OverridesFrom(i.baseOverrides, frontier))
    + From(i.revisionRows, frontier)
    + OverrideRows(Redirecting(OverridesFrom(i.enrichmentOverrides, frontier), baseline,
                               FrontierTargets(i, frontier)))
    + Adding(From(Dependent(i.enrichmentRows), frontier), baseline, overrides)
  }

  function ShardEdges(i: Inputs, frontier: set<Entity>): set<Row> {
    From(Dependent(i.shardRows), frontier)
  }

  /** The override query lists the revision's overrides and the enrichments it lets through. */
  function OverriddenTargets(i: Inputs, frontier: set<Entity>): set<Target> {
    set o | o in FrontierOverrides(i, frontier) :: TargetOf(o)
  }

  function NotOverridden(rows: set<Row>, targets: set<Target>): set<Row> {
    set r | r in rows && Target(r.from, r.relation, r.to) !in targets
  }

  function KeptShardEdges(i: Inputs, frontier: set<Entity>): set<Row> {
    NotOverridden(ShardEdges(i, frontier), OverriddenTargets(i, frontier))
  }

  function FrontierEdges(i: Inputs, frontier: set<Entity>): set<Row> {
    SelectedEdges(i, frontier) + KeptShardEdges(i, frontier)
  }

  /** The dependency edges of the whole-view rules that leave the frontier. */
  function DirectFrom(i: Inputs, frontier: set<Entity>): set<Row> {
    From(Dependent(Direct(i)), frontier)
  }

  // ---- the two sets of rules agree ------------------------------------------------------------------

  lemma KeptAgree(i: Inputs, frontier: set<Entity>, rows: set<Row>)
    ensures From(Dependent(Kept(rows, Baseline(i), Effective(i))), frontier)
         == Kept(From(rows, frontier), FrontierBaseline(i, frontier),
                 FrontierOverrides(i, frontier))
  {
  }

  lemma ShardsAgree(i: Inputs, frontier: set<Entity>)
    ensures From(Dependent(Kept(i.shardRows, Baseline(i), Effective(i))), frontier)
         == KeptShardEdges(i, frontier)
  {
  }

  lemma RedirectingAgree(i: Inputs, frontier: set<Entity>)
    ensures OverridesFrom(Redirecting(i.enrichmentOverrides, Baseline(i), BaseTargets(i)), frontier)
         == Redirecting(OverridesFrom(i.enrichmentOverrides, frontier),
                        FrontierBaseline(i, frontier), FrontierTargets(i, frontier))
  {
  }

  lemma AddingAgree(i: Inputs, frontier: set<Entity>)
    ensures From(Dependent(Adding(i.enrichmentRows, Baseline(i), Effective(i))), frontier)
         == Adding(From(Dependent(i.enrichmentRows), frontier), FrontierBaseline(i, frontier),
                   FrontierOverrides(i, frontier))
  {
  }

  lemma OverrideRowsFrom(overrides: set<Override>, frontier: set<Entity>)
    ensures From(Dependent(OverrideRows(overrides)), frontier)
         == OverrideRows(OverridesFrom(overrides, frontier))
  {
  }

  lemma FromJoins(a: set<Row>, b: set<Row>, frontier: set<Entity>)
    ensures From(Dependent(a + b), frontier)
         == From(Dependent(a), frontier) + From(Dependent(b), frontier)
  {
  }

  lemma DirectParts(i: Inputs, frontier: set<Entity>)
    ensures DirectFrom(i, frontier) ==
              From(Dependent(Kept(i.stateRows, Baseline(i), Effective(i))), frontier)
              + OverrideRows(OverridesFrom(i.baseOverrides, frontier))
              + From(Dependent(Kept(i.shardRows, Baseline(i), Effective(i))), frontier)
              + From(Dependent(i.revisionRows), frontier)
              + OverrideRows(OverridesFrom(Redirecting(i.enrichmentOverrides, Baseline(i),
                                                       BaseTargets(i)), frontier))
              + From(Dependent(Adding(i.enrichmentRows, Baseline(i), Effective(i))), frontier)
  {
    var state := Kept(i.stateRows, Baseline(i), Effective(i));
    var base := OverrideRows(i.baseOverrides);
    var shards := Kept(i.shardRows, Baseline(i), Effective(i));
    var redirecting := Redirecting(i.enrichmentOverrides, Baseline(i), BaseTargets(i));
    var added := Adding(i.enrichmentRows, Baseline(i), Effective(i));
    OverrideRowsFrom(i.baseOverrides, frontier);
    OverrideRowsFrom(redirecting, frontier);
    FromJoins(state, base, frontier);
    FromJoins(state + base, shards, frontier);
    FromJoins(state + base + shards, i.revisionRows, frontier);
    FromJoins(state + base + shards + i.revisionRows, OverrideRows(redirecting), frontier);
    FromJoins(state + base + shards + i.revisionRows + OverrideRows(redirecting), added,
              frontier);
  }

  /** The frontier rules compute exactly the dependency edges the whole-view rules have from
      the frontier. */
  lemma RulesAgree(i: Inputs, frontier: set<Entity>)
    requires Typed(i)
    ensures FrontierEdges(i, frontier) == DirectFrom(i, frontier)
  {
    DirectParts(i, frontier);
    KeptAgree(i, frontier, i.stateRows);
    ShardsAgree(i, frontier);
    RedirectingAgree(i, frontier);
    AddingAgree(i, frontier);
    assert From(Dependent(i.revisionRows), frontier) == From(i.revisionRows, frontier);
  }

  // ---- the materialized table -----------------------------------------------------------------------

  /** The key of the table; parallel rows keep the highest confidence. */
  datatype EdgeId = EdgeId(from: Entity, relation: Relation, to: Entity, evidence: string,
                           provenance: string)

  type Resolved = map<EdgeId, real>

  function IdOf(r: Row): EdgeId {
    EdgeId(r.from, r.relation, r.to, r.evidence, r.provenance)
  }

  function IdsOf(rows: set<Row>): set<EdgeId> {
    set r | r in rows :: IdOf(r)
  }

  ghost predicate IsHighest(rows: set<Row>, id: EdgeId, confidence: real) {
    && (exists r :: r in rows && IdOf(r) == id && r.confidence == confidence)
    && forall r :: r in rows && IdOf(r) == id ==> r.confidence <= confidence
  }

  function Confidences(rows: set<Row>, id: EdgeId): set<real> {
    set r | r in rows && IdOf(r) == id :: r.confidence
  }

  predicate Above(a: real, b: real) {
    a > b
  }

  function Highest(rows: set<Row>, id: EdgeId): (confidence: real)
    requires id in IdsOf(rows)
    ensures IsHighest(rows, id, confidence)
  {
    var r :| r in rows && IdOf(r) == id;
    assert r.confidence in Confidences(rows, id);
    assert StrictTotal(Above);
    var highest := Least(Confidences(rows, id), Above);
    assert forall other :: other in rows && IdOf(other) == id ==>
             other.confidence in Confidences(rows, id);
    highest
  }

  function Materialize(rows: set<Row>): Resolved {
    map id | id in IdsOf(rows) :: Highest(rows, id)
  }

  lemma SameHighest(a: set<Row>, b: set<Row>, id: EdgeId)
    requires id in IdsOf(a) && IsHighest(b, id, Highest(a, id))
    ensures id in IdsOf(b) && Highest(b, id) == Highest(a, id)
  {
  }

  /** The table a rebuild leaves. */
  function Rebuild(i: Inputs): Resolved {
    Materialize(Dependent(Direct(i)))
  }

  /** The table a refresh of some sources leaves. */
  function Refresh(table: Resolved, i: Inputs, sources: set<Entity>): Resolved {
    (map id | id in table && id.from !in sources :: table[id])
    + Materialize(FrontierEdges(i, sources))
  }

  lemma MaterializeFrom(rows: set<Row>, sources: set<Entity>, id: EdgeId)
    requires id.from in sources
    ensures id in Materialize(From(rows, sources)) <==> id in Materialize(rows)
    ensures id in Materialize(rows) ==>
              Materialize(From(rows, sources))[id] == Materialize(rows)[id]
  {
  }

  // ---- locality ---------------------------------------------------------------------------------------

  /** What the rules can use of the inputs for one source. */
  function At(i: Inputs, source: Entity): Inputs {
    var frontier := {source};
    Inputs(From(Dependent(i.stateRows), frontier), From(Dependent(i.shardRows), frontier),
           From(i.revisionRows, frontier), OverridesFrom(i.baseOverrides, frontier),
           OverridesFrom(i.enrichmentOverrides, frontier),
           From(Dependent(i.enrichmentRows), frontier))
  }

  lemma LocalKept(i: Inputs, source: Entity, rows: set<Row>)
    ensures From(Dependent(Kept(rows, Baseline(i), Effective(i))), {source})
         == From(Dependent(Kept(From(Dependent(rows), {source}), Baseline(At(i, source)),
                                Effective(At(i, source)))), {source})
  {
  }

  lemma LocalRedirecting(i: Inputs, source: Entity)
    ensures OverridesFrom(Redirecting(i.enrichmentOverrides, Baseline(i), BaseTargets(i)), {source})
         == OverridesFrom(Redirecting(At(i, source).enrichmentOverrides, Baseline(At(i, source)),
                                      BaseTargets(At(i, source))), {source})
  {
  }

  lemma LocalAdding(i: Inputs, source: Entity)
    ensures From(Dependent(Adding(i.enrichmentRows, Baseline(i), Effective(i))), {source})
         == From(Dependent(Adding(At(i, source).enrichmentRows, Baseline(At(i, source)),
                                  Effective(At(i, source)))), {source})
  {
  }

  /** The dependencies of a source depend on nothing but the inputs at that source. */
  lemma DirectIsLocal(i: Inputs, source: Entity)
    ensures DirectFrom(At(i, source), {source}) == DirectFrom(i, {source})
  {
    var local := At(i, source);
    DirectParts(i, {source});
    DirectParts(local, {source});
    LocalKept(i, source, i.stateRows);
    LocalKept(i, source, i.shardRows);
    LocalRedirecting(i, source);
    LocalAdding(i, source);
    assert OverridesFrom(local.baseOverrides, {source})
        == OverridesFrom(i.baseOverrides, {source});
    assert From(Dependent(local.revisionRows), {source})
        == From(Dependent(i.revisionRows), {source});
  }

  predicate AgreesAt(a: Resolved, b: Resolved, id: EdgeId) {
    (id in a <==> id in b) && (id in b ==> a[id] == b[id])
  }

  lemma AgreesAll(a: Resolved, b: Resolved)
    requires forall id :: AgreesAt(a, b, id)
    ensures a == b
  {
    assert forall id :: id in a ==> AgreesAt(a, b, id);
    assert forall id :: id in b ==> AgreesAt(a, b, id);
  }

  lemma MaterializeAlike(a: set<Row>, b: set<Row>, id: EdgeId)
    requires From(a, {id.from}) == From(b, {id.from})
    ensures id in Materialize(a) <==> id in Materialize(b)
    ensures id in Materialize(a) ==> Materialize(a)[id] == Materialize(b)[id]
  {
    MaterializeFrom(a, {id.from}, id);
    MaterializeFrom(b, {id.from}, id);
  }

  lemma RefreshedInside(table: Resolved, after: Inputs, sources: set<Entity>, id: EdgeId)
    requires id.from in sources && FrontierEdges(after, sources) == DirectFrom(after, sources)
    ensures AgreesAt(Refresh(table, after, sources), Rebuild(after), id)
  {
    MaterializeFrom(Dependent(Direct(after)), sources, id);
  }

  lemma RefreshedOutside(before: Inputs, after: Inputs, sources: set<Entity>, id: EdgeId)
    requires id.from !in sources && FrontierEdges(after, sources) == DirectFrom(after, sources)
    requires At(before, id.from) == At(after, id.from)
    ensures AgreesAt(Refresh(Rebuild(before), after, sources), Rebuild(after), id)
  {
    DirectIsLocal(before, id.from);
    DirectIsLocal(after, id.from);
    MaterializeAlike(Dependent(Direct(before)), Dependent(Direct(after)), id);
    NothingElsewhere(after, sources, id);
  }

  /** Whatever changed, a refresh of every source whose inputs changed is a rebuild. */
  lemma RefreshIsRebuild(before: Inputs, after: Inputs, sources: set<Entity>)
    requires Typed(after)
    requires forall s :: s !in sources ==> At(before, s) == At(after, s)
    ensures Refresh(Rebuild(before), after, sources) == Rebuild(after)
  {
    RulesAgree(after, sources);
    var refreshed, rebuilt := Refresh(Rebuild(before), after, sources), Rebuild(after);
    forall id
      ensures AgreesAt(refreshed, rebuilt, id)
    {
      if id.from in sources {
        RefreshedInside(Rebuild(before), after, sources, id);
      } else {
        RefreshedOutside(before, after, sources, id);
      }
    }
    AgreesAll(refreshed, rebuilt);
  }

  lemma NothingElsewhere(i: Inputs, sources: set<Entity>, id: EdgeId)
    requires id.from !in sources && FrontierEdges(i, sources) == DirectFrom(i, sources)
    ensures id !in Materialize(FrontierEdges(i, sources))
  {
  }

  // ---- the refresh as it is done -----------------------------------------------------------------------

  function RowOf(id: EdgeId, confidence: real): Row {
    Row(id.from, id.to, id.relation, id.evidence, confidence, id.provenance)
  }

  /** A query result: one row for each group, with the highest confidence of the group. */
  function Grouped(rows: set<Row>): set<Row> {
    set id | id in IdsOf(rows) :: RowOf(id, Highest(rows, id))
  }

  lemma GroupedIn(rows: set<Row>, r: Row)
    requires r in Grouped(rows)
    ensures r in rows && r.confidence == Highest(rows, IdOf(r))
  {
  }

  lemma GroupedAbove(rows: set<Row>, r: Row)
    requires r in rows
    ensures var top := RowOf(IdOf(r), Highest(rows, IdOf(r)));
            top in Grouped(rows) && IdOf(top) == IdOf(r) && r.confidence <= top.confidence
  {
  }

  /** Some row of the same key is at least as confident. */
  ghost predicate Topped(some: set<Row>, r: Row) {
    exists top :: top in some && IdOf(top) == IdOf(r) && r.confidence <= top.confidence
  }

  lemma GroupedTops(rows: set<Row>, r: Row, some: set<Row>)
    requires r in rows && RowOf(IdOf(r), Highest(rows, IdOf(r))) in some
    ensures Topped(some, r)
  {
  }

  /** Grouping before filtering and joining loses nothing. */
  lemma GroupingIsHarmless(a: set<Row>, b: set<Row>, targets: set<Target>)
    ensures Materialize(Grouped(a) + NotOverridden(Grouped(b), targets))
         == Materialize(a + NotOverridden(b, targets))
  {
    var grouped, all := Grouped(a) + NotOverridden(Grouped(b), targets),
                        a + NotOverridden(b, targets);
    forall r | r in grouped
      ensures r in all
    {
      if r in Grouped(a) { GroupedIn(a, r); } else { GroupedIn(b, r); }
    }
    forall r | r in all
      ensures Topped(grouped, r)
    {
      if r in a {
        GroupedAbove(a, r);
        GroupedTops(a, r, grouped);
      } else {
        GroupedAbove(b, r);
        GroupedTops(b, r, grouped);
      }
    }
    CofinalIsEqual(grouped, all);
  }

  /** Rows that have, for every row, one at least as confident of the same key materialize to
      the same table. */
  lemma CofinalIsEqual(some: set<Row>, all: set<Row>)
    requires some <= all
    requires forall r {:trigger Topped(some, r)} :: r in all ==> Topped(some, r)
    ensures Materialize(some) == Materialize(all)
  {
    forall id
      ensures id in IdsOf(some) <==> id in IdsOf(all)
      ensures id in IdsOf(some) ==> Highest(some, id) == Highest(all, id)
    {
      if id in IdsOf(all) {
        CofinalAt(some, all, id);
      }
    }
  }

  lemma CofinalAt(some: set<Row>, all: set<Row>, id: EdgeId)
    requires some <= all && id in IdsOf(all)
    requires forall r {:trigger Topped(some, r)} :: r in all ==> Topped(some, r)
    ensures id in IdsOf(some) && Highest(some, id) == Highest(all, id)
  {
    assert IsHighest(all, id, Highest(all, id));
    var r :| r in all && IdOf(r) == id && r.confidence == Highest(all, id);
    assert Topped(some, r);
    var top :| top in some && IdOf(top) == IdOf(r) && r.confidence <= top.confidence;
    assert IsHighest(some, id, Highest(all, id));
    SameHighest(all, some, id);
  }

  function Raise(table: Resolved, r: Row): Resolved {
    if IdOf(r) in table && table[IdOf(r)] >= r.confidence then table
    else table[IdOf(r) := r.confidence]
  }

  lemma RaiseOne(rows: set<Row>, r: Row)
    ensures Raise(Materialize(rows), r) == Materialize(rows + {r})
  {
    var raised, more := Raise(Materialize(rows), r), rows + {r};
    forall id
      ensures id in raised <==> id in IdsOf(more)
      ensures id in raised ==> raised[id] == Highest(more, id)
    {
      if id in IdsOf(rows) {
        assert IsHighest(rows, id, Highest(rows, id));
      }
      if id in IdsOf(more) {
        assert IsHighest(more, id, Highest(more, id));
      }
    }
  }

  /** Collects edges into the table, keeping the highest confidence of each key. */
  method Collect(edges: set<Row>) returns (table: Resolved)
    ensures table == Materialize(edges)
  {
    table := map[];
    var pending := edges;
    ghost var done: set<Row> := {};
    assert IdsOf(done) == {};
    while pending != {}
      invariant done + pending == edges && table == Materialize(done)
      decreases |pending|
    {
      var r :| r in pending;
      RaiseOne(done, r);
      done, pending := done + {r}, pending - {r};
      table := Raise(table, r);
    }
    assert done == edges;
  }

  /** Shard edges that no override redirects join the selected edges. */
  method KeepShardEdges(edges: set<Row>, shards: set<Row>, overridden: set<Target>)
    returns (all: set<Row>)
    ensures all == edges + NotOverridden(shards, overridden)
  {
    all := edges;
    var pending := shards;
    while pending != {}
      invariant pending <= shards
      invariant all == edges + NotOverridden(shards - pending, overridden)
      decreases |pending|
    {
      var r :| r in pending;
      pending := pending - {r};
      if Target(r.from, r.relation, r.to) !in overridden {
        all := all + {r};
      }
    }
  }

  /** Replaces the table's rows from the given sources by what the frontier rules compute. */
  method RefreshResolved(table: Resolved, i: Inputs, sources: set<Entity>)
    returns (refreshed: Resolved)
    ensures refreshed == Refresh(table, i, sources)
  {
    if sources == {} {
      NothingToRefresh(table, i);
      return table;
    }
    var edges := KeepShardEdges(Grouped(SelectedEdges(i, sources)),
                                Grouped(ShardEdges(i, sources)), OverriddenTargets(i, sources));
    GroupingIsHarmless(SelectedEdges(i, sources), ShardEdges(i, sources),
                       OverriddenTargets(i, sources));
    var materialized := Collect(edges);
    refreshed := map id | id in table && id.from !in sources :: table[id];
    refreshed := refreshed + materialized;
  }

  lemma NothingToRefresh(table: Resolved, i: Inputs)
    ensures Refresh(table, i, {}) == table
  {
    assert FrontierEdges(i, {}) == {};
    assert IdsOf({}) == {};
  }
}
