/** One view of the store together with the repository states that all views share: what the view
    derives is what a rebuild from the stored rows would give, whatever is collected meanwhile. */
module SharedStore {
  import opened Graph
  import opened Facts
  import opened Winners
  import opened Dependencies
  import opened Publication
  import opened Enrichments
  import GC = GarbageCollection
  import ViewStore

  /** The shared relations and those of one view. */
  datatype Shared = Shared(db: GC.Db, base: Base)

  /** A transaction as the view sees it, and as the shared relations see it. */
  datatype Transaction = Transaction(event: Option<Event>, step: Option<GC.Step>)

  function SlotsOf(view: View, rows: set<(nat, RevisionRow)>): set<GC.Slot> {
    set row | row in rows && row.1.Selecting?
      :: GC.Slot(GC.Revision(view, row.0), row.1.repository)
  }

  /** The step publishes the states the content says the view has. */
  predicate PublishesStates(view: View, db: GC.Db, content: Content, step: GC.Step) {
    step.Published? && step.view == view && GC.WellKeyed(step.repositories)
    && content.states == db.Resolution(view, step.repositories)
  }

  /** What an event of the view does to the shared relations; an aborted one does nothing. */
  ghost predicate Pairs(c: Contents, view: View, s: Shared, event: Event, step: Option<GC.Step>) {
    match event
    case Revised(content) =>
      if Accepts(c, Publish(s.base, content))
      then step.Some? && PublishesStates(view, s.db, content, step.value)
      else step.None?
    case Reread(inputs) =>
      && s.base.revision in s.base.manifests
      && step == (if Obsolete(s.base.Current().owners, inputs) == {} then None
                  else Some(GC.Copied(view)))
    case Enriched(output) =>
      step == if Decide(c, s.base, output).Published? then Some(GC.Copied(view)) else None
    case RevisionsSwept(before, rows) =>
      step == Some(GC.SweptSlots(view, before, SlotsOf(view, rows)))
    case Removed => step.Some? && step.value.Deleted? && step.value.standalone == Some(view)
    case _ => step.None?
  }

  /** Steps of other views, of repositories and of collections, and what is left of a sweep of a
      view that is gone. */
  predicate IsForeign(view: View, db: GC.Db, step: GC.Step) {
    match step
    case Published(other, _) => other != view
    case Copied(other) => other != view
    case Deleted(_, standalone) => standalone != Some(view)
    case SweptSlots(other, _, _) => other != view || view !in db.revisions
    case _ => true
  }

  ghost predicate Belongs(c: Contents, view: View, s: Shared, t: Transaction) {
    match t.event
    case Some(event) => Possible(c, s.base, event) && Pairs(c, view, s, event, t.step)
    case None => t.step.Some? && IsForeign(view, s.db, t.step.value)
  }

  ghost predicate Leads(c: Contents, view: View, s: Shared, t: Transaction, next: Shared) {
    && Belongs(c, view, s, t)
    && (match t.step
        case Some(step) => GC.Follows(s.db, step, next.db)
        case None => next.db == s.db)
    && next.base == (if t.event.Some? then After(c, s.base, t.event.value) else s.base)
  }

  /** Transactions of one view among everybody else's, starting from an empty store. */
  ghost predicate IsRun(c: Contents, view: View, trace: seq<Shared>,
                        transactions: seq<Transaction>)
  {
    && |trace| == |transactions| + 1 && trace[0] == Shared(GC.EMPTY, NOTHING)
    && forall i {:trigger transactions[i]} :: 0 <= i < |transactions| ==>
         Leads(c, view, trace[i], transactions[i], trace[i + 1])
  }

  // ---- the two sides agree -------------------------------------------------------------------------

  function StatesAt(base: Base, n: nat): Selection {
    if n in base.manifests then base.manifests[n].states else map[]
  }

  ghost predicate AgreeAt(view: View, db: GC.Db, base: Base, n: nat) {
    GC.At(db.selections, GC.Revision(view, n)) == StatesAt(base, n)
  }

  /** The shared relations select for each revision of the view what the view says it selects. */
  ghost predicate Agree(view: View, db: GC.Db, base: Base) {
    && (if view in db.revisions
        then base.revision == db.revisions[view] && base.revision in base.manifests
        else base.revision == 0 && base.manifests == map[])
    && forall n {:trigger AgreeAt(view, db, base, n)} :: AgreeAt(view, db, base, n)
  }

  ghost predicate Coupled(view: View, s: Shared) {
    GC.Safe(s.db) && Agree(view, s.db, s.base)
  }

  lemma CoupledCurrent(view: View, s: Shared)
    requires Coupled(view, s)
    ensures s.db.Current(view) == s.base.Current().states
  {
    assert AgreeAt(view, s.db, s.base, s.base.revision);
  }

  lemma PublishedAt(db: GC.Db, view: View, facts: GC.FactsByRepository, n: nat)
    requires GC.NothingAhead(db) && GC.WellKeyed(facts)
    ensures GC.At(db.Publish(view, facts).selections, GC.Revision(view, n)) ==
              if n == db.NextRevision(view) then db.Resolution(view, facts)
              else GC.At(db.selections, GC.Revision(view, n))
  {
    GC.NewRevisionIsBare(db, view);
  }

  lemma PublishedAgree(view: View, s: Shared, content: Content, step: GC.Step)
    requires Coupled(view, s) && PublishesStates(view, s.db, content, step)
    ensures Agree(view, GC.Apply(s.db, step), Publish(s.base, content))
  {
    var db, base := GC.Apply(s.db, step), Publish(s.base, content);
    forall n
      ensures AgreeAt(view, db, base, n)
    {
      assert AgreeAt(view, s.db, s.base, n);
      PublishedAt(s.db, view, step.repositories, n);
    }
  }

  /** A manifest with the states of the current one, written as the next revision. */
  lemma CopiedAgree(view: View, s: Shared, written: Base, next: Base)
    requires Coupled(view, s) && view in s.db.revisions
    requires written.revision == s.base.revision && next.revision == s.base.revision + 1
    requires forall n :: StatesAt(written, n) == StatesAt(s.base, n)
    requires next.manifests.Keys == written.manifests.Keys + {next.revision}
    requires forall n :: StatesAt(next, n) ==
               if n == next.revision then s.base.Current().states else StatesAt(written, n)
    ensures Agree(view, s.db.CopyRevision(view), next)
  {
    var db := s.db.CopyRevision(view);
    GC.NewRevisionIsBare(s.db, view);
    CoupledCurrent(view, s);
    forall n
      ensures AgreeAt(view, db, next, n)
    {
      assert AgreeAt(view, s.db, s.base, n);
    }
  }

  lemma RereadAgree(view: View, s: Shared, inputs: map<InputKey, string>, db: GC.Db)
    requires Coupled(view, s) && s.base.revision in s.base.manifests
    requires db == if Obsolete(s.base.Current().owners, inputs) == {} then s.db
                   else s.db.CopyRevision(view)
    ensures Agree(view, db, ReplaceInputs(s.base, inputs))
  {
    var manifest := s.base.Current().(inputs := inputs);
    var written := s.base.Write(s.base.revision, manifest);
    assert forall n :: StatesAt(written, n) == StatesAt(s.base, n);
    if Obsolete(manifest.owners, inputs) == {} {
      forall n
        ensures AgreeAt(view, db, written, n)
      {
        assert AgreeAt(view, s.db, s.base, n);
      }
    } else {
      CopiedAgree(view, s, written, ReplaceInputs(s.base, inputs));
    }
  }

  lemma EnrichedAgree(c: Contents, view: View, s: Shared, output: Output)
    requires Coupled(view, s) && Decide(c, s.base, output).Published?
    ensures view in s.db.revisions
    ensures Agree(view, s.db.CopyRevision(view), Enrich(c, s.base, output))
  {
    assert s.base.revision in s.base.manifests;
    CopiedAgree(view, s, s.base, PublishOutput(c, s.base, output));
  }

  lemma SweptAgree(view: View, s: Shared, before: nat, rows: set<(nat, RevisionRow)>)
    requires Coupled(view, s) && before <= s.base.revision
    ensures Agree(view, s.db.SweepSlots(view, before, SlotsOf(view, rows)),
                  SweepRevisions(s.base, before, rows))
  {
    var (db, base) := (s.db.SweepSlots(view, before, SlotsOf(view, rows)),
                       SweepRevisions(s.base, before, rows));
    forall n
      ensures AgreeAt(view, db, base, n)
    {
      assert AgreeAt(view, s.db, s.base, n);
      forall repository
        ensures GC.Slot(GC.Revision(view, n), repository) in SlotsOf(view, rows)
           <==> Selecting(repository) in RowsAt(rows, n)
      {
        SlotIsRow(view, rows, n, repository);
      }
    }
  }

  lemma SlotIsRow(view: View, rows: set<(nat, RevisionRow)>, n: nat, repository: Repository)
    ensures GC.Slot(GC.Revision(view, n), repository) in SlotsOf(view, rows)
       <==> Selecting(repository) in RowsAt(rows, n)
  {
    if Selecting(repository) in RowsAt(rows, n) {
      assert (n, Selecting(repository)) in rows;
    }
  }

  lemma RemovedAgree(view: View, s: Shared, repository: Repository)
    requires Coupled(view, s)
    ensures Agree(view, s.db.Delete(repository, Some(view)), NOTHING)
  {
    var db := s.db.Delete(repository, Some(view));
    forall n
      ensures AgreeAt(view, db, NOTHING, n)
    {
      assert GC.Revision(view, n) !in db.selections;
    }
  }

  lemma ForeignAgree(view: View, s: Shared, step: GC.Step)
    requires Coupled(view, s) && GC.Enabled(s.db, step) && IsForeign(view, s.db, step)
    ensures Agree(view, GC.Apply(s.db, step), s.base)
  {
    var db := GC.Apply(s.db, step);
    forall n
      ensures AgreeAt(view, db, s.base, n)
    {
      assert AgreeAt(view, s.db, s.base, n);
      ForeignKeeps(view, s.db, step, n);
    }
  }

  lemma ForeignKeeps(view: View, db: GC.Db, step: GC.Step, n: nat)
    requires GC.NothingAhead(db) && GC.Enabled(db, step) && IsForeign(view, db, step)
    ensures GC.At(GC.Apply(db, step).selections, GC.Revision(view, n))
         == GC.At(db.selections, GC.Revision(view, n))
  {
  }

  /** A transaction keeps the two sides in agreement. */
  lemma TransactionCouples(c: Contents, view: View, s: Shared, t: Transaction, next: Shared)
    requires Coupled(view, s) && Leads(c, view, s, t, next)
    ensures Coupled(view, next)
  {
    if t.step.Some? {
      GC.StepIsSafe(s.db, t.step.value);
    }
    match t.event
    case None => ForeignAgree(view, s, t.step.value);
    case Some(event) => EventAgree(c, view, s, event, t.step, next);
  }

  lemma EventAgree(c: Contents, view: View, s: Shared, event: Event, step: Option<GC.Step>,
                   next: Shared)
    requires Coupled(view, s) && Leads(c, view, s, Transaction(Some(event), step), next)
    ensures Agree(view, next.db, next.base)
  {
    match event
    case Revised(content) =>
      if step.Some? {
        PublishedAgree(view, s, content, step.value);
      }
    case Reread(inputs) => RereadAgree(view, s, inputs, next.db);
    case Enriched(output) =>
      if step.Some? {
        EnrichedAgree(c, view, s, output);
      }
    case RevisionsSwept(before, rows) => SweptAgree(view, s, before, rows);
    case Removed => RemovedAgree(view, s, step.value.repository);
    case OwnerSwept(owner, batch) => SameManifestsAgree(view, s, next.base);
    case OutputRemoved(owner) => SameManifestsAgree(view, s, next.base);
  }

  lemma SameManifestsAgree(view: View, s: Shared, base: Base)
    requires Coupled(view, s)
    requires base.revision == s.base.revision && base.manifests == s.base.manifests
    ensures Agree(view, s.db, base)
  {
    forall n
      ensures AgreeAt(view, s.db, base, n)
    {
      assert AgreeAt(view, s.db, s.base, n);
    }
  }

  lemma {:induction false} RunCouples(c: Contents, view: View, trace: seq<Shared>,
                                      transactions: seq<Transaction>, i: nat)
    requires IsRun(c, view, trace, transactions) && i < |trace|
    ensures Coupled(view, trace[i])
    decreases i
  {
    if i == 0 {
      GC.EmptyIsSafe();
      assert forall n :: AgreeAt(view, GC.EMPTY, NOTHING, n);
    } else {
      RunCouples(c, view, trace, transactions, i - 1);
      TransactionCouples(c, view, trace[i - 1], transactions[i - 1], trace[i]);
    }
  }

  /** The transaction creates the view anew. */
  predicate CreatesAgain(view: View, s: Shared, t: Transaction) {
    t.step.Some? && GC.Recreates(s.db, t.step.value, view)
  }

  lemma NeverBack(c: Contents, view: View, s: Shared, t: Transaction, next: Shared)
    requires Leads(c, view, s, t, next) && !CreatesAgain(view, s, t)
    ensures view in next.db.revisions ==>
              view in s.db.revisions && s.db.revisions[view] <= next.db.revisions[view]
  {
    if t.step.Some? {
      GC.NeverBack(s.db, t.step.value, view);
    }
  }

  lemma {:induction false} StaysBehind(c: Contents, view: View, trace: seq<Shared>,
                                       transactions: seq<Transaction>, i: nat, j: nat)
    requires IsRun(c, view, trace, transactions) && i <= j < |trace|
    requires view in trace[i].db.revisions
    requires forall k {:trigger transactions[k]} | i <= k < j ::
               !CreatesAgain(view, trace[k], transactions[k])
    ensures view in trace[j].db.revisions ==>
              trace[i].db.revisions[view] <= trace[j].db.revisions[view]
    decreases j
  {
    if i < j {
      StaysBehind(c, view, trace, transactions, i, j - 1);
      NeverBack(c, view, trace[j - 1], transactions[j - 1], trace[j]);
    }
  }

  /** The batches of a sweep belong to a run as long as the view is not created again after its
      revision was read. */
  lemma SweepBelongs(c: Contents, view: View, trace: seq<Shared>, transactions: seq<Transaction>,
                     i: nat, j: nat, rows: set<(nat, RevisionRow)>)
    requires IsRun(c, view, trace, transactions) && i <= j < |trace|
    requires view in trace[i].db.revisions
    requires forall k {:trigger transactions[k]} | i <= k < j ::
               !CreatesAgain(view, trace[k], transactions[k])
    ensures var before := trace[i].base.revision;
            var step := Some(GC.SweptSlots(view, before, SlotsOf(view, rows)));
            && before == trace[i].db.revisions[view]
            && Belongs(c, view, trace[j],
                       Transaction(if view in trace[j].db.revisions
                                   then Some(RevisionsSwept(before, rows)) else None, step))
  {
    RunCouples(c, view, trace, transactions, i);
    RunCouples(c, view, trace, transactions, j);
    StaysBehind(c, view, trace, transactions, i, j);
  }

  // ---- what the stored rows say --------------------------------------------------------------------

  /** The observations of the current states, each joined with its metadata. */
  function StoredStateRows(db: GC.Db, view: View): set<Row> {
    set repository, fact | repository in db.Current(view)
      && fact in StoredFacts(db.rows, db.Current(view)[repository]) && fact.Observed? :: fact.row
  }

  /** The fact has a row, with metadata, in the relation that only holds dependencies. */
  predicate IsStoredDependency(db: GC.Db, state: StateId, fact: Fact) {
    && StateRow(state, DependencyObservations, fact) in db.rows
    && StateRow(state, Metadata, fact) in db.rows && fact.Observed?
  }

  /** The same from that narrower relation. */
  function StoredDependencies(db: GC.Db, view: View): set<Row> {
    set repository, row | repository in db.Current(view) && row in db.rows
      && row.state == db.Current(view)[repository]
      && IsStoredDependency(db, row.state, row.fact) :: row.fact.row
  }

  function StoredEntities(db: GC.Db, view: View): set<EntityFact> {
    set repository, fact | repository in db.Current(view)
      && fact in StoredFacts(db.rows, db.Current(view)[repository]) && fact.Declared?
      :: EntityFact(fact.id, fact.kind, fact.metadata)
  }

  /** What the dependency rules read, the states through their rows. */
  function StoredInputs(c: Contents, view: View, s: Shared, winners: map<FactKey, OwnerId>): Inputs {
    Read(c, s.base.Current(), s.base.shards, s.base.stored, winners)
      .(stateRows := StoredStateRows(s.db, view))
  }

  lemma CurrentIsStored(view: View, s: Shared, repository: Repository)
    requires Coupled(view, s) && repository in s.db.Current(view)
    ensures var state := s.db.Current(view)[repository];
            && StoredFacts(s.db.rows, state) == state.facts
            && forall row :: row in s.db.rows && row.state == state <==> row in RowsOf(state)
  {
    var state := s.db.Current(view)[repository];
    assert state in s.db.Current(view).Values && state in s.db.Selected();
    StoredIsContent(s.db.rows, state);
  }

  lemma RowsAreSeen(view: View, s: Shared)
    requires Coupled(view, s)
    ensures StoredStateRows(s.db, view) == StateRows(s.base.Current().states)
    ensures StoredEntities(s.db, view) == StateEntities(s.base.Current().states)
  {
    CoupledCurrent(view, s);
    forall repository | repository in s.db.Current(view)
      ensures StoredFacts(s.db.rows, s.db.Current(view)[repository])
           == s.db.Current(view)[repository].facts
    {
      CurrentIsStored(view, s, repository);
    }
    assert forall r, repository :: repository in s.db.Current(view) ==>
             (r in ObservedRows(s.db.Current(view)[repository])
              <==> Observed(r) in StoredFacts(s.db.rows, s.db.Current(view)[repository]));
  }

  lemma DependenciesAreSeen(view: View, s: Shared)
    requires Coupled(view, s)
    ensures StoredDependencies(s.db, view) == Dependent(StoredStateRows(s.db, view))
  {
    forall repository, fact | repository in s.db.Current(view)
      ensures IsStoredDependency(s.db, s.db.Current(view)[repository], fact)
         <==> (fact in StoredFacts(s.db.rows, s.db.Current(view)[repository]) && fact.Observed?
               && IsDependency(fact.row.relation))
    {
      CurrentIsStored(view, s, repository);
    }
    forall r | r in Dependent(StoredStateRows(s.db, view))
      ensures r in StoredDependencies(s.db, view)
    {
      var repository, fact: Fact :| repository in s.db.Current(view) && fact.Observed? && fact.row == r
        && fact in StoredFacts(s.db.rows, s.db.Current(view)[repository]);
      assert IsStoredDependency(s.db, s.db.Current(view)[repository], fact);
    }
  }

  /** On every run, interleaved with any claims and sweep batches, the derived tables of the view
      are what a rebuild from the stored rows gives. */
  lemma DerivedFromRows(c: Contents, name: View, trace: seq<Shared>,
                        transactions: seq<Transaction>, i: nat, view: ViewStore.View)
    requires IsRun(c, name, trace, transactions) && i < |trace|
    requires view.c == c && view.Valid() && view.Contents() == trace[i].base
    ensures view.winners == WinnersOf(trace[i].base.Current().owners, trace[i].base.stored)
    ensures view.resolved == Rebuild(StoredInputs(c, name, trace[i], view.winners))
    ensures StoredDependencies(trace[i].db, name) == Dependent(StoredStateRows(trace[i].db, name))
    ensures SelectedEntities(c, trace[i].base) ==
              StoredEntities(trace[i].db, name) + ShardEntities(c, view.shards)
              + trace[i].base.Current().entities
              + OwnerEntities(trace[i].base.Current().owners, view.stored)
  {
    var s := trace[i];
    RunCouples(c, name, trace, transactions, i);
    RowsAreSeen(name, s);
    DependenciesAreSeen(name, s);
    WonIsWinners(s.base.Current().owners, s.base.stored, view.winners);
    RebuiltIsRebuild(c, s.base, view.resolved);
  }
}
