/** Publication of repository states and the collection of those nothing selects any more: each
    transaction is one atomic step, and a sweep is interleaved with them batch by batch. */
module GarbageCollection {
  import opened Graph
  import opened Facts

  datatype Revision = Revision(view: View, number: nat)

  /** The key of a row that says which state a revision of a view has for a repository. */
  datatype Slot = Slot(revision: Revision, repository: Repository)

  function At(selections: map<Revision, Selection>, revision: Revision): Selection {
    if revision in selections then selections[revision] else map[]
  }

  /** Rows of a revision written over those it already has. */
  function Put(selections: map<Revision, Selection>, revision: Revision, added: Selection)
    : map<Revision, Selection>
  {
    if added == map[] then selections
    else selections[revision := At(selections, revision) + added]
  }

  type FactsByRepository = map<Repository, RepositoryFacts>

  predicate WellKeyed(facts: FactsByRepository) {
    forall repository :: repository in facts ==> facts[repository].state.repository == repository
  }

  datatype RepositoryRevision = RepositoryRevision(source: string, state: StateId,
                                                   identity: string, head: string,
                                                   incomplete: bool)

  function RevisionOf(facts: RepositoryFacts): RepositoryRevision {
    RepositoryRevision(facts.state.fingerprint, AnalyzedState(facts), facts.analysisIdentity,
                       if facts.state.head.Some? then facts.state.head.value else "",
                       facts.incomplete)
  }

  /** The relations that hold repository states or refer to them. */
  datatype Db = Db(
    states: set<StateId>,
    rows: set<StateRow>,
    queued: set<StateId>,
    revisions: map<View, nat>,
    selections: map<Revision, Selection>,
    repositories: map<Repository, RepositoryRevision>)
  {
    /** The states of a view's current revision, by repository. */
    function Current(view: View): Selection {
      if view in revisions then At(selections, Revision(view, revisions[view])) else map[]
    }

    /** States that a current revision of some view selects. */
    function Selected(): set<StateId> {
      set view, state | view in revisions && state in Current(view).Values :: state
    }

    function Live(): set<StateId> {
      Selected() + set repository | repository in repositories :: repositories[repository].state
    }

    // ---- transactions ------------------------------------------------------------------------

    function PublishRepository(facts: RepositoryFacts): Db {
      var state := AnalyzedState(facts);
      this.(states := states + {state},
            rows := if state in states then rows else rows + RowsOf(state),
            repositories := repositories[facts.state.repository := RevisionOf(facts)])
    }

    /** The state an older store recorded for these very facts, if the view still selects it. */
    function Reusable(view: View, facts: RepositoryFacts): Option<StateId> {
      if facts.state.repository !in Current(view) then None else
        var state := Current(view)[facts.state.repository];
        if state.Legacy? && !(facts.state.fingerprint + ":" <= state.text)
           && EndsWith(state.text, facts.state.fingerprint)
           && StoredFacts(rows, state) == facts.facts
        then Some(state) else None
    }

    function Resolve(view: View, facts: RepositoryFacts): StateId {
      var desired := AnalyzedState(facts);
      if desired in states then desired
      else
        var current := Reusable(view, facts);
        if current.Some? then current.value else desired
    }

    function Resolution(view: View, facts: FactsByRepository): Selection {
      map repository | repository in facts :: Resolve(view, facts[repository])
    }

    /** The rows a publication adds: those of every desired state it could not find or reuse. */
    function Added(view: View, facts: RepositoryFacts): set<StateRow> {
      var state := Resolve(view, facts);
      if state in states || state != AnalyzedState(facts) then {} else RowsOf(state)
    }

    function AllAdded(view: View, facts: FactsByRepository): set<StateRow> {
      set repository, row | repository in facts && row in Added(view, facts[repository]) :: row
    }

    function NextRevision(view: View): nat {
      if view in revisions then revisions[view] + 1 else 1
    }

    function Publish(view: View, facts: FactsByRepository): Db
      requires WellKeyed(facts)
    {
      var resolution := Resolution(view, facts);
      this.(states := states + resolution.Values,
            rows := rows + AllAdded(view, facts),
            revisions := revisions[view := NextRevision(view)],
            selections := Put(selections, Revision(view, NextRevision(view)), resolution))
    }

    /** A new revision of a view with the states of its current one. */
    function CopyRevision(view: View): Db
      requires view in revisions
    {
      this.(revisions := revisions[view := revisions[view] + 1],
            selections := Put(selections, Revision(view, revisions[view] + 1), Current(view)))
    }

    function ViewRevisions(view: View): set<Revision> {
      set revision | revision in selections && revision.view == view
    }

    function DeleteView(view: View): Db {
      this.(revisions := revisions - {view}, selections := selections - ViewRevisions(view))
    }

    function DeleteRepository(repository: Repository): Db {
      if repository !in repositories then this else
        var state := repositories[repository].state;
        var stale := if state in states && state !in Selected() then {state} else {};
        this.(repositories := repositories - {repository},
              states := states - stale, queued := queued + stale)
    }

    function Delete(repository: Repository, standalone: Option<View>): Db {
      (if standalone.Some? then DeleteView(standalone.value) else this).DeleteRepository(repository)
    }

    function Stale(): set<StateId> {
      states - Live()
    }

    function Claim(): Db {
      this.(states := states - Stale(), queued := queued + Stale())
    }

    /** One batch of one relation of a queued state; it is dropped when the state is back. */
    function SweepRows(state: StateId, batch: set<StateRow>): Db {
      if state in states then this
      else this.(rows := rows - set row | row in batch && row.state == state)
    }

    function Unqueue(state: StateId): Db {
      this.(queued := queued - {state})
    }

    /** One batch of the rows of a view below a revision that was read earlier. */
    function SweepSlots(view: View, before: nat, batch: set<Slot>): Db {
      this.(selections := map revision | revision in selections ::
              if revision.view == view && revision.number < before
              then selections[revision] - Taken(revision, batch) else selections[revision])
    }

    function Taken(revision: Revision, batch: set<Slot>): set<Repository>
      requires revision in selections
    {
      set repository | repository in selections[revision] && Slot(revision, repository) in batch
    }
  }

  const EMPTY := Db({}, {}, {}, map[], map[], map[])

  // ---- runs --------------------------------------------------------------------------------------

  datatype Step =
    | PublishedRepository(facts: RepositoryFacts)
    | Published(view: View, repositories: FactsByRepository)
    | Copied(view: View)
    | Deleted(repository: Repository, standalone: Option<View>)
    | Claimed
    | SweptRows(state: StateId, batch: set<StateRow>)
    | Unqueued(state: StateId)
    | SweptSlots(view: View, before: nat, slots: set<Slot>)

  predicate Enabled(db: Db, step: Step) {
    match step
    case Published(_, facts) => WellKeyed(facts)
    case Copied(view) => view in db.revisions
    case _ => true
  }

  /** What one transaction leaves behind. */
  function Apply(db: Db, step: Step): Db
    requires Enabled(db, step)
  {
    match step
    case PublishedRepository(facts) => db.PublishRepository(facts)
    case Published(view, facts) => db.Publish(view, facts)
    case Copied(view) => db.CopyRevision(view)
    case Deleted(repository, standalone) => db.Delete(repository, standalone)
    case Claimed => db.Claim()
    case SweptRows(state, batch) => db.SweepRows(state, batch)
    case Unqueued(state) => db.Unqueue(state)
    case SweptSlots(view, before, batch) => db.SweepSlots(view, before, batch)
  }

  predicate Follows(db: Db, step: Step, next: Db) {
    Enabled(db, step) && next == Apply(db, step)
  }

  /** The states a run passes through. */
  ghost predicate IsRun(trace: seq<Db>, steps: seq<Step>) {
    && |trace| == |steps| + 1
    && forall i {:trigger steps[i]} :: 0 <= i < |steps| ==>
         Follows(trace[i], steps[i], trace[i + 1])
  }

  // ---- the invariant -------------------------------------------------------------------------------

  /** A state with a repository row is stored whole: all of its rows and no others. */
  ghost predicate Whole(db: Db) {
    forall state | state in db.states ::
      forall row :: row in db.rows && row.state == state <==> row in RowsOf(state)
  }

  /** No stored row is foreign to its state, even of one half swept. */
  ghost predicate Genuine(db: Db) {
    forall row :: row in db.rows ==> row in RowsOf(row.state)
  }

  ghost predicate NothingAhead(db: Db) {
    forall revision :: revision in db.selections ==>
      revision.view in db.revisions && revision.number <= db.revisions[revision.view]
  }

  /** A repository's own revision names a state of that repository: only one can name it. */
  ghost predicate OwnStates(db: Db) {
    forall r :: r in db.repositories ==>
      var state := db.repositories[r].state;
      state.Analyzed? && state.repository == r
  }

  ghost predicate Safe(db: Db) {
    && db.Live() <= db.states && Whole(db) && Genuine(db)
    && NothingAhead(db) && OwnStates(db)
  }

  lemma EmptyIsSafe()
    ensures Safe(EMPTY)
  {
  }

  lemma StepIsSafe(db: Db, step: Step)
    requires Safe(db) && Enabled(db, step)
    ensures Safe(Apply(db, step))
  {
    match step
    case PublishedRepository(facts) => PublishRepositorySafe(db, facts);
    case Published(view, facts) => PublishSafe(db, view, facts);
    case Copied(view) => CopySafe(db, view);
    case Deleted(repository, standalone) =>
      if standalone.Some? {
        DeleteViewSafe(db, standalone.value);
        DeleteRepositorySafe(db.DeleteView(standalone.value), repository);
      } else {
        DeleteRepositorySafe(db, repository);
      }
    case Claimed => ClaimTakesStale(db);
    case SweptRows(state, batch) => SameSelections(db, db.SweepRows(state, batch));
    case Unqueued(state) => SameSelections(db, db.Unqueue(state));
    case SweptSlots(view, before, batch) => SweepSlotsSafe(db, view, before, batch);
  }

  lemma SameSelections(db: Db, after: Db)
    requires after.revisions == db.revisions && after.selections == db.selections
    ensures after.Selected() == db.Selected()
    ensures forall view :: after.Current(view) == db.Current(view)
  {
    forall view
      ensures after.Current(view) == db.Current(view)
    {
    }
    assert forall state :: state in after.Selected() <==> state in db.Selected();
  }

  lemma PublishRepositorySafe(db: Db, facts: RepositoryFacts)
    requires Safe(db)
    ensures Safe(db.PublishRepository(facts))
  {
    SameSelections(db, db.PublishRepository(facts));
  }

  /** A publication selects a stored state, the desired one, or a live one with its facts. */
  lemma ResolveIsWhole(db: Db, view: View, facts: RepositoryFacts)
    requires Safe(db)
    ensures var state := db.Resolve(view, facts);
            && state.facts == facts.facts
            && (state in db.states || state == AnalyzedState(facts))
            && db.Added(view, facts) == (if state in db.states then {} else RowsOf(state))
  {
    var state := db.Resolve(view, facts);
    if AnalyzedState(facts) !in db.states && db.Reusable(view, facts).Some? {
      assert state == db.Current(view)[facts.state.repository];
      assert state in db.Current(view).Values && state in db.Selected();
      StoredIsContent(db.rows, state);
    }
  }

  lemma PublishedWhole(db: Db, view: View, facts: FactsByRepository)
    requires Safe(db) && WellKeyed(facts)
    ensures Whole(db.Publish(view, facts)) && Genuine(db.Publish(view, facts))
  {
    var after := db.Publish(view, facts);
    forall repository | repository in facts
      ensures var state := db.Resolve(view, facts[repository]);
              db.Added(view, facts[repository]) ==
                (if state in db.states then {} else RowsOf(state))
    {
      ResolveIsWhole(db, view, facts[repository]);
    }
    forall row | row in db.AllAdded(view, facts)
      ensures row in RowsOf(row.state)
    {
    }
    forall state, row | state in after.states && row in RowsOf(state)
      ensures row in after.rows
    {
      if state !in db.states {
        var repository :| repository in facts && db.Resolution(view, facts)[repository] == state;
        assert row in db.Added(view, facts[repository]);
      }
    }
  }

  lemma PublishedLive(db: Db, view: View, facts: FactsByRepository)
    requires Safe(db) && WellKeyed(facts)
    ensures db.Publish(view, facts).Live() <= db.Publish(view, facts).states
  {
    var after := db.Publish(view, facts);
    NewRevisionIsBare(db, view);
    forall other, state | other in after.revisions && state in after.Current(other).Values
      ensures state in after.states
    {
      if other != view {
        assert after.Current(other) == db.Current(other);
        assert state in db.Selected();
      }
    }
  }

  lemma NewRevisionIsBare(db: Db, view: View)
    requires NothingAhead(db)
    ensures At(db.selections, Revision(view, db.NextRevision(view))) == map[]
  {
  }

  lemma PublishSafe(db: Db, view: View, facts: FactsByRepository)
    requires Safe(db) && WellKeyed(facts)
    ensures Safe(db.Publish(view, facts))
  {
    PublishedWhole(db, view, facts);
    PublishedLive(db, view, facts);
  }

  lemma CopySafe(db: Db, view: View)
    requires Safe(db) && view in db.revisions
    ensures Safe(db.CopyRevision(view)) && db.CopyRevision(view).Current(view) == db.Current(view)
  {
    var after := db.CopyRevision(view);
    NewRevisionIsBare(db, view);
    assert forall other :: after.Current(other) == db.Current(other);
  }

  lemma DeleteViewSafe(db: Db, view: View)
    requires Safe(db)
    ensures Safe(db.DeleteView(view))
  {
    assert forall other :: other != view ==>
             db.DeleteView(view).Current(other) == db.Current(other);
  }

  lemma DeleteRepositorySafe(db: Db, repository: Repository)
    requires Safe(db)
    ensures Safe(db.DeleteRepository(repository))
  {
    SameSelections(db, db.DeleteRepository(repository));
  }

  lemma SweepSlotsSafe(db: Db, view: View, before: nat, batch: set<Slot>)
    requires Safe(db)
    ensures Safe(db.SweepSlots(view, before, batch))
  {
    var after := db.SweepSlots(view, before, batch);
    forall other, state | other in after.revisions && state in after.Current(other).Values
      ensures state in db.Selected()
    {
      assert state in db.Current(other).Values;
    }
  }

  // ---- what every run keeps ------------------------------------------------------------------------

  lemma {:induction false} RunIsSafe(trace: seq<Db>, steps: seq<Step>, i: nat)
    requires IsRun(trace, steps) && Safe(trace[0]) && i < |trace|
    ensures Safe(trace[i])
    decreases i
  {
    if i > 0 {
      RunIsSafe(trace, steps, i - 1);
      StepIsSafe(trace[i - 1], steps[i - 1]);
    }
  }

  /** Whatever is interleaved with whatever, a live state is stored with exactly its facts. */
  lemma LiveIsReadable(trace: seq<Db>, steps: seq<Step>, i: nat, state: StateId)
    requires IsRun(trace, steps) && trace[0] == EMPTY && i < |trace|
    requires state in trace[i].Live() || state in trace[i].states
    ensures state in trace[i].states
    ensures StoredFacts(trace[i].rows, state) == state.facts
  {
    EmptyIsSafe();
    RunIsSafe(trace, steps, i);
    StoredIsContent(trace[i].rows, state);
  }

  /** A publication selects, for each repository, a state with exactly the published facts, and
      leaves every other view as it was. */
  lemma PublishSelects(db: Db, view: View, facts: FactsByRepository)
    requires Safe(db) && WellKeyed(facts)
    ensures db.Publish(view, facts).Current(view).Keys == facts.Keys
    ensures forall repository :: repository in facts ==>
              && db.Publish(view, facts).Current(view)[repository].facts == facts[repository].facts
              && StoredFacts(db.Publish(view, facts).rows,
                             db.Publish(view, facts).Current(view)[repository])
                 == facts[repository].facts
    ensures forall other :: other != view ==>
              db.Publish(view, facts).Current(other) == db.Current(other)
  {
    PublishCurrent(db, view, facts);
    forall repository | repository in facts
      ensures db.Publish(view, facts).Current(view)[repository].facts == facts[repository].facts
      ensures StoredFacts(db.Publish(view, facts).rows,
                          db.Publish(view, facts).Current(view)[repository])
           == facts[repository].facts
    {
      PublishStores(db, view, facts, repository);
    }
  }

  lemma PublishCurrent(db: Db, view: View, facts: FactsByRepository)
    requires Safe(db) && WellKeyed(facts)
    ensures db.Publish(view, facts).Current(view) == db.Resolution(view, facts)
    ensures forall other :: other != view ==>
              db.Publish(view, facts).Current(other) == db.Current(other)
  {
    NewRevisionIsBare(db, view);
  }

  /** The state a publication resolves a repository to holds its facts and can be read back. */
  lemma PublishStores(db: Db, view: View, facts: FactsByRepository, repository: Repository)
    requires Safe(db) && WellKeyed(facts) && repository in facts
    ensures var state := db.Resolution(view, facts)[repository];
            && state.facts == facts[repository].facts
            && StoredFacts(db.Publish(view, facts).rows, state) == facts[repository].facts
  {
    var after := db.Publish(view, facts);
    PublishSafe(db, view, facts);
    var state := db.Resolve(view, facts[repository]);
    ResolveIsWhole(db, view, facts[repository]);
    assert state == db.Resolution(view, facts)[repository];
    StoredIsContent(after.rows, state);
  }

  /** A claim takes exactly what nothing live refers to. */
  lemma ClaimTakesStale(db: Db)
    requires Safe(db)
    ensures db.Claim().states == db.Live() == db.Claim().Live()
    ensures (db.Claim().queued - db.queued) * db.Live() == {}
  {
    SameSelections(db, db.Claim());
  }

  /** The steps of a collection that take stored rows never touch a selection. */
  lemma CollectionKeepsCurrent(db: Db, step: Step, view: View)
    requires step.Claimed? || step.SweptRows? || step.Unqueued?
    ensures Apply(db, step).Current(view) == db.Current(view)
  {
  }

  // ---- sweeping superseded revisions ----------------------------------------------------------------

  /** Sweeping below a revision read earlier keeps the current selection of the view, whatever
      the batch, exactly when the view has not fallen behind that revision. */
  lemma SweepKeepsCurrent(db: Db, view: View, before: nat)
    ensures (forall batch :: db.SweepSlots(view, before, batch).Current(view) == db.Current(view))
       <==> (db.Current(view) == map[] || before <= db.revisions[view])
  {
    if db.Current(view) != map[] && db.revisions[view] < before {
      var repository :| repository in db.Current(view);
      var slot := Slot(Revision(view, db.revisions[view]), repository);
      assert repository !in db.SweepSlots(view, before, {slot}).Current(view);
    }
  }

  function Bare(facts: RepositoryFacts): Selection {
    map[facts.state.repository := AnalyzedState(facts)]
  }

  /** Publishing one repository without facts: only the revision and its selection are new. */
  lemma PublishBare(db: Db, view: View, facts: RepositoryFacts)
    requires facts.facts == {} && NothingAhead(db)
    requires AnalyzedState(facts) in db.states || view !in db.revisions
    ensures var number := db.NextRevision(view);
            db.Publish(view, map[facts.state.repository := facts]) ==
              db.(states := db.states + {AnalyzedState(facts)},
                  revisions := db.revisions[view := number],
                  selections := db.selections[Revision(view, number) := Bare(facts)])
  {
    var published := map[facts.state.repository := facts];
    assert db.Resolve(view, facts) == AnalyzedState(facts);
    assert RowsOf(AnalyzedState(facts)) == {};
    assert db.AllAdded(view, published) == {};
    assert db.Resolution(view, published) == Bare(facts);
    NewRevisionIsBare(db, view);
    assert map[] + Bare(facts) == Bare(facts);
    OneValue(facts.state.repository, AnalyzedState(facts));
  }

  lemma OneValue(repository: Repository, state: StateId)
    ensures map[repository := state].Values == {state}
  {
    var one := map[repository := state];
    assert one[repository] in one.Values;
  }

  ghost predicate BareOnce(facts: RepositoryFacts, view: View, once: Db) {
    && facts.facts == {}
    && once == Db({AnalyzedState(facts)}, {}, {}, map[view := 1],
                  map[Revision(view, 1) := Bare(facts)], map[])
  }

  /** Publishing a bare repository twice. */
  lemma BareTwice(facts: RepositoryFacts, view: View, once: Db, twice: Db)
    requires BareOnce(facts, view, once)
    requires twice == once.(revisions := map[view := 2],
                            selections := once.selections[Revision(view, 2) := Bare(facts)])
    ensures var published := Published(view, map[facts.state.repository := facts]);
            Follows(EMPTY, published, once) && Follows(once, published, twice)
  {
    PublishBare(EMPTY, view, facts);
    PublishBare(once, view, facts);
  }

  /** Deleting it with its view and publishing it again. */
  lemma BareAgain(facts: RepositoryFacts, view: View, once: Db, twice: Db, gone: Db)
    requires BareOnce(facts, view, once)
    requires twice == once.(revisions := map[view := 2],
                            selections := once.selections[Revision(view, 2) := Bare(facts)])
    requires gone == once.(revisions := map[], selections := map[])
    ensures Follows(twice, Deleted(facts.state.repository, Some(view)), gone)
    ensures Follows(gone, Published(view, map[facts.state.repository := facts]), once)
  {
    PublishBare(gone, view, facts);
    assert twice.DeleteView(view) == gone;
  }

  /** A view deleted and published again starts over at revision 1, below what a sweep that is
      still under way has read: its next batch takes the states of the new revision. */
  lemma RecreatedViewIsSwept(facts: RepositoryFacts, view: View)
    returns (once: Db, twice: Db, gone: Db, swept: Db)
    requires facts.facts == {}
    ensures var published := Published(view, map[facts.state.repository := facts]);
            && Follows(EMPTY, published, once) && Follows(once, published, twice)
            && Follows(twice, Deleted(facts.state.repository, Some(view)), gone)
            && Follows(gone, published, once)
    ensures view in twice.revisions
    ensures Follows(once, SweptSlots(view, twice.revisions[view],
                                     {Slot(Revision(view, 1), facts.state.repository)}), swept)
    ensures facts.state.repository in once.Current(view) && view in swept.revisions
    ensures swept.Current(view) == map[]
  {
    var first := Revision(view, 1);
    once := Db({AnalyzedState(facts)}, {}, {}, map[view := 1], map[first := Bare(facts)], map[]);
    twice := once.(revisions := map[view := 2],
                   selections := once.selections[Revision(view, 2) := Bare(facts)]);
    gone := once.(revisions := map[], selections := map[]);
    BareTwice(facts, view, once, twice);
    BareAgain(facts, view, once, twice, gone);
    swept := once.SweepSlots(view, 2, {Slot(first, facts.state.repository)});
    assert At(swept.selections, first) == map[];
  }

  /** The steps that can make a sweep's reading of a view too new: creating the view again. */
  predicate Recreates(db: Db, step: Step, view: View) {
    step.Published? && step.view == view && view !in db.revisions
  }

  /** A reading taken at some point of a run stays at or below the view's revision as long as
      the view is not created again. */
  lemma {:induction false} ReadingStaysBehind(trace: seq<Db>, steps: seq<Step>, i: nat, j: nat,
                                              view: View)
    requires IsRun(trace, steps) && i <= j < |trace| && view in trace[i].revisions
    requires forall k | i <= k < j :: !Recreates(trace[k], steps[k], view)
    ensures view in trace[j].revisions ==> trace[i].revisions[view] <= trace[j].revisions[view]
    decreases j
  {
    if i < j {
      ReadingStaysBehind(trace, steps, i, j - 1, view);
      assert !Recreates(trace[j - 1], steps[j - 1], view);
      NeverBack(trace[j - 1], steps[j - 1], view);
    }
  }

  lemma NeverBack(db: Db, step: Step, view: View)
    requires Enabled(db, step) && !Recreates(db, step, view)
    ensures view in Apply(db, step).revisions ==>
              view in db.revisions && db.revisions[view] <= Apply(db, step).revisions[view]
  {
  }

  /** A sweep with readings no view was created again after, interleaved with anything, takes
      nothing a current revision selects. */
  lemma SweepIsHarmless(trace: seq<Db>, steps: seq<Step>, i: nat, j: nat)
    requires IsRun(trace, steps) && i <= j < |steps| && steps[j].SweptSlots?
    requires steps[j].view in trace[i].revisions
    requires steps[j].before == trace[i].revisions[steps[j].view]
    requires forall k | i <= k < j :: !Recreates(trace[k], steps[k], steps[j].view)
    ensures forall view :: trace[j + 1].Current(view) == trace[j].Current(view)
  {
    var swept := steps[j].view;
    ReadingStaysBehind(trace, steps, i, j, swept);
    assert trace[j + 1] == trace[j].SweepSlots(swept, steps[j].before, steps[j].slots);
    SweepKeepsCurrent(trace[j], swept, steps[j].before);
    forall view
      ensures trace[j + 1].Current(view) == trace[j].Current(view)
    {
    }
  }
}
