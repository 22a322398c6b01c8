/** The store's transactions over repository states, and the sweep that removes what a claim
    queued, one bounded batch at a time. */
module StateStore {
  import opened Order
  import opened Graph
  import opened Facts
  import opened GarbageCollection

  const GARBAGE_COLLECTION_BATCH_SIZE := 10000

  predicate Occurs(repositories: seq<RepositoryFacts>, state: RepositoryState, i: int) {
    0 <= i < |repositories| && repositories[i].state == state
  }

  /** Exactly one of the given facts is about `state`. */
  predicate OccursOnce(repositories: seq<RepositoryFacts>, state: RepositoryState) {
    exists i | 0 <= i < |repositories| ::
      Occurs(repositories, state, i)
      && forall j | 0 <= j < |repositories| :: Occurs(repositories, state, j) ==> j == i
  }

  /** The facts are complete and are about exactly the states of the view. */
  predicate Matches(view: WorkspaceView, repositories: seq<RepositoryFacts>) {
    && (forall facts :: facts in repositories ==> facts.analysisIdentity != "")
    && |repositories| == |view.states|
    && forall state :: state in view.states ==> OccursOnce(repositories, state)
  }

  /** What every workspace view is built with: one state for each repository. */
  predicate DistinctRepositories(view: WorkspaceView) {
    forall i, j :: 0 <= i < j < |view.states| ==>
      view.states[i].repository != view.states[j].repository
  }

  /** Facts about as many states as the view has, one for each, are about nothing else. */
  lemma MatchedOnly(view: WorkspaceView, repositories: seq<RepositoryFacts>)
    requires DistinctRepositories(view) && Matches(view, repositories)
    ensures forall i :: 0 <= i < |repositories| ==> repositories[i].state in view.states
    ensures DistinctFacts(repositories)
  {
    var n := |repositories|;
    var places := Places(view, repositories, n);
    forall i | 0 <= i < n
      ensures i in places && repositories[i].state in view.states
    {
      AllPlaces(places, n, i);
    }
    forall i, j
      ensures !SameRepository(repositories, i, j)
    {
      if SameRepository(repositories, i, j) {
        SameState(view, repositories[i].state, repositories[j].state);
        OnlyOnce(repositories, repositories[i].state, i, j);
      }
    }
    PairwiseDistinct(repositories);
  }

  lemma SameState(view: WorkspaceView, a: RepositoryState, b: RepositoryState)
    requires DistinctRepositories(view) && a in view.states && b in view.states
    requires a.repository == b.repository
    ensures a == b
  {
  }

  lemma OnlyOnce(repositories: seq<RepositoryFacts>, state: RepositoryState, i: int, j: int)
    requires OccursOnce(repositories, state)
    requires Occurs(repositories, state, i) && Occurs(repositories, state, j)
    ensures i == j
  {
  }

  /** Where the first `k` states of the view are found. */
  lemma {:induction false} Places(view: WorkspaceView, repositories: seq<RepositoryFacts>, k: nat)
    returns (places: set<int>)
    requires DistinctRepositories(view) && Matches(view, repositories) && k <= |view.states|
    ensures |places| == k
    ensures forall i :: i in places ==>
              0 <= i < |repositories| && repositories[i].state in view.states[..k]
    decreases k
  {
    if k == 0 {
      places := {};
    } else {
      var before := Places(view, repositories, k - 1);
      var state := view.states[k - 1];
      assert OccursOnce(repositories, state);
      var i :| 0 <= i < |repositories| && Occurs(repositories, state, i);
      assert state !in view.states[..k - 1];
      places := before + {i};
    }
  }

  lemma AllPlaces(places: set<int>, n: nat, i: int)
    requires |places| == n && (forall p :: p in places ==> 0 <= p < n) && 0 <= i < n
    ensures i in places
  {
    if i !in places {
      var all := UpTo(n);
      assert places <= all - {i};
      NotMore(places, all - {i});
    }
  }

  function UpTo(n: nat): (all: set<int>)
    ensures |all| == n && forall p :: p in all <==> 0 <= p < n
  {
    if n == 0 then {} else UpTo(n - 1) + {n - 1}
  }

  function ByRepository(given: seq<RepositoryFacts>): (facts: FactsByRepository)
    ensures WellKeyed(facts)
    ensures forall r :: r in facts ==> facts[r] in given
  {
    if given == [] then map[] else
      var last := given[|given| - 1];
      ByRepository(given[..|given| - 1])[last.state.repository := last]
  }

  /** No two of the facts are about one repository. */
  predicate DistinctFacts(given: seq<RepositoryFacts>) {
    given == [] ||
    (var front, last := given[..|given| - 1], given[|given| - 1];
     DistinctFacts(front) && last.state.repository !in ByRepository(front))
  }

  predicate SameRepository(given: seq<RepositoryFacts>, i: int, j: int) {
    0 <= i < j < |given| && given[i].state.repository == given[j].state.repository
  }

  lemma {:induction false} PairwiseDistinct(given: seq<RepositoryFacts>)
    requires forall i, j :: !SameRepository(given, i, j)
    ensures DistinctFacts(given)
    decreases |given|
  {
    if given != [] {
      var front, last := given[..|given| - 1], given[|given| - 1];
      forall i, j
        ensures !SameRepository(front, i, j)
      {
        assert !SameRepository(given, i, j);
      }
      PairwiseDistinct(front);
      if last.state.repository in ByRepository(front) {
        var facts := ByRepository(front)[last.state.repository];
        var i :| 0 <= i < |front| && front[i] == facts;
        assert SameRepository(given, i, |given| - 1);
      }
    }
  }

  lemma {:induction false} ByRepositoryAt(given: seq<RepositoryFacts>, i: nat)
    requires DistinctFacts(given) && i < |given|
    ensures given[i].state.repository in ByRepository(given)
    ensures ByRepository(given)[given[i].state.repository] == given[i]
    decreases |given|
  {
    if i < |given| - 1 {
      ByRepositoryAt(given[..|given| - 1], i);
    }
  }

  class Store {
    var states: set<StateId>
    var rows: set<StateRow>
    var queued: set<StateId>
    var revisions: map<View, nat>
    var selections: map<Revision, Selection>
    var repositories: map<Repository, RepositoryRevision>

    function Contents(): Db
      reads this
    {
      Db(states, rows, queued, revisions, selections, repositories)
    }

    constructor ()
      ensures Contents() == EMPTY && Safe(Contents())
    {
      states, rows, queued, revisions, selections, repositories := {}, {}, {}, map[], map[], map[];
      new;
      EmptyIsSafe();
    }

    /** Reports whether anything recorded about the repository differs from before. */
    method PublishRepository(facts: RepositoryFacts) returns (changed: Result<bool>)
      requires Safe(Contents())
      modifies this
      ensures changed.Err? <==> facts.analysisIdentity == ""
      ensures changed.Err? ==> Contents() == old(Contents())
      ensures changed.Ok? ==>
                && Contents() == old(Contents()).PublishRepository(facts)
                && (changed.value <==>
                      !(facts.state.repository in old(repositories) &&
                        old(repositories)[facts.state.repository] == RevisionOf(facts)))
      ensures Safe(Contents())
    {
      if facts.analysisIdentity == "" {
        return Err("repository analysis identity must not be empty");
      }
      PublishRepositorySafe(Contents(), facts);
      var state := AnalyzedState(facts);
      var next := RevisionOf(facts);
      changed := Ok(facts.state.repository !in repositories
                    || repositories[facts.state.repository] != next);
      if state !in states {
        rows := rows + RowsOf(state);
        states := states + {state};
      }
      repositories := repositories[facts.state.repository := next];
    }

    /** Finds or reuses the state of a repository, or stores the facts of a new one. */
    method StoreState(view: View, facts: RepositoryFacts) returns (state: StateId)
      modifies this`rows
      ensures state == old(Contents()).Resolve(view, facts)
      ensures rows == old(rows) + old(Contents()).Added(view, facts)
    {
      state := AnalyzedState(facts);
      if state !in states {
        var current := Contents().Reusable(view, facts);
        if current.Some? {
          return current.value;
        }
        rows := rows + RowsOf(state);
      }
    }

    /** Stores the facts of every repository that has no state for them yet. */
    method StoreStates(view: View, given: seq<RepositoryFacts>) returns (analyzed: seq<StateId>)
      requires Safe(Contents())
      modifies this`rows
      ensures rows == old(rows) + AddedUpTo(old(Contents()), view, given)
      ensures Resolved(old(Contents()), view, given, analyzed)
    {
      ghost var before := Contents();
      analyzed := [];
      for i := 0 to |given|
        invariant rows == before.rows + AddedUpTo(before, view, given[..i])
        invariant Resolved(before, view, given[..i], analyzed)
      {
        assert given[..i + 1] == given[..i] + [given[i]];
        SameResolution(before, view, given[..i], given[i], Contents());
        var state := StoreState(view, given[i]);
        ResolvedMore(before, view, given, analyzed, i);
        analyzed := analyzed + [state];
      }
      assert given[..|given|] == given;
    }

    method RecordStates(revision: Revision, given: seq<RepositoryFacts>, analyzed: seq<StateId>)
      requires |given| == |analyzed|
      modifies this`states, this`selections
      ensures states == old(states) + set state | state in analyzed
      ensures selections == Put(old(selections), revision, SelectionOf(given, analyzed))
    {
      for i := 0 to |given|
        invariant states == old(states) + set state | state in analyzed[..i]
        invariant selections == Put(old(selections), revision,
                                    SelectionOf(given[..i], analyzed[..i]))
      {
        assert analyzed[..i + 1] == analyzed[..i] + [analyzed[i]];
        PutOneMore(selections, old(selections), revision, given, analyzed, i);
        if analyzed[i] !in states {
          states := states + {analyzed[i]};
        }
        selections := Put(selections, revision, map[given[i].state.repository := analyzed[i]]);
      }
      assert given[..|given|] == given && analyzed[..|given|] == analyzed;
    }

    method PublishStates(view: View, given: seq<RepositoryFacts>) returns (revision: nat)
      requires Safe(Contents()) && DistinctFacts(given)
      modifies this
      ensures Contents() == old(Contents()).Publish(view, ByRepository(given))
      ensures revision == old(Contents()).NextRevision(view)
    {
      ghost var before := Contents();
      var analyzed := StoreStates(view, given);
      revision := if view in revisions then revisions[view] + 1 else 1;
      revisions := revisions[view := revision];
      RecordStates(Revision(view, revision), given, analyzed);
      PublishedInParts(before, view, given, analyzed);
    }

    /** Records the next revision of a view with a state for each of its repositories. */
    method PublishObservations(view: WorkspaceView, given: seq<RepositoryFacts>)
      returns (published: Result<nat>)
      requires Safe(Contents()) && DistinctRepositories(view)
      modifies this
      ensures published.Ok? <==> Matches(view, given)
      ensures published.Err? ==> Contents() == old(Contents())
      ensures published.Ok? ==>
                && Contents() == old(Contents()).Publish(view.name, ByRepository(given))
                && published == Ok(old(Contents()).NextRevision(view.name))
    {
      if !Matches(view, given) {
        return Err("repository facts do not match the workspace view");
      }
      MatchedOnly(view, given);
      var revision := PublishStates(view.name, given);
      published := Ok(revision);
    }

    /** Opens the next revision of a view as a copy of its current one. */
    method CopyRevision(view: View)
      requires view in revisions
      modifies this
      ensures Contents() == old(Contents()).CopyRevision(view)
    {
      var revision := revisions[view] + 1;
      selections := Put(selections, Revision(view, revision), Contents().Current(view));
      revisions := revisions[view := revision];
    }

    method DeleteView(view: View)
      modifies this`revisions, this`selections
      ensures Contents() == old(Contents()).DeleteView(view)
    {
      selections := selections - Contents().ViewRevisions(view);
      revisions := revisions - {view};
    }

    method DeleteRepository(repository: Repository) returns (count: nat)
      modifies this
      ensures Contents() == old(Contents()).DeleteRepository(repository)
      ensures count == if old(states) == states then 0 else 1
    {
      count := 0;
      if repository in repositories {
        var state := repositories[repository].state;
        if state in states && state !in Contents().Selected() {
          queued := queued + {state};
          states := states - {state};
          count := 1;
        }
        repositories := repositories - {repository};
      }
    }

    /** Forgets a repository, and queues its state unless some view still selects it. */
    method DeleteRepositoryRevision(repository: Repository, standalone: Option<View>)
      returns (count: nat)
      modifies this
      ensures Contents() == old(Contents()).Delete(repository, standalone)
      ensures count == if old(states) == states then 0 else 1
    {
      if standalone.Some? {
        DeleteView(standalone.value);
      }
      count := DeleteRepository(repository);
    }

    /** Moves every state that nothing live refers to onto the queue. */
    method Claim() returns (count: nat)
      modifies this`states, this`queued
      ensures states == old(states) - old(Contents()).Stale()
      ensures queued == old(queued) + old(Contents()).Stale()
      ensures count == |old(Contents()).Stale()|
    {
      var stale := Contents().Stale();
      if stale == {} {
        return 0;
      }
      queued := queued + stale;
      states := states - stale;
      count := |stale|;
    }

    /** One guarded transaction of a sweep. */
    method RemoveBatch(state: StateId, batch: set<StateRow>) returns (removed: bool)
      requires forall row :: row in batch ==> row.state == state
      modifies this`rows
      ensures rows == if removed then old(rows) - batch else old(rows)
      ensures Contents() == old(Contents()).SweepRows(state, batch)
      ensures removed <==> state !in states
    {
      if state in states {
        return false;
      }
      assert (set row | row in batch && row.state == state) == batch;
      rows := rows - batch;
      removed := true;
    }

    /** Empties one relation of a queued state, batch by batch; a state that is back is left. */
    method SweepTable(state: StateId, table: Table)
      modifies this`rows
      ensures rows == Swept(old(rows), states, state, {table})
    {
      ghost var start := rows;
      while true
        invariant rows <= start && start - rows <= Queued(start, state, table)
        invariant state in states ==> rows == start
        decreases |rows|
      {
        var batch := Select(state, table);
        if batch == {} {
          SweptAll(start, rows, states, state, table);
          return;
        }
        FewerRows(rows, batch);
        var removed := RemoveBatch(state, batch);
        if !removed {
          return;
        }
      }
    }

    /** Some rows of the relation, as many as one batch takes; none only when there are none. */
    method Select(state: StateId, table: Table) returns (batch: set<StateRow>)
      ensures batch <= Queued(rows, state, table)
      ensures |batch| <= GARBAGE_COLLECTION_BATCH_SIZE
      ensures batch == {} ==> Queued(rows, state, table) == {}
    {
      batch := {};
      var candidates := Queued(rows, state, table);
      while candidates != {} && |batch| < GARBAGE_COLLECTION_BATCH_SIZE
        invariant batch + candidates == Queued(rows, state, table)
        invariant |batch| <= GARBAGE_COLLECTION_BATCH_SIZE
        decreases |candidates|
      {
        var row :| row in candidates;
        candidates, batch := candidates - {row}, batch + {row};
      }
    }

    method SweepState(state: StateId)
      modifies this`rows
      ensures rows == Swept(old(rows), states, state, ALL_TABLES)
      ensures forall row :: row in rows <==>
                row in old(rows) && (row.state == state ==> state in states)
    {
      SweepTable(state, Observations);
      SweepTable(state, Entities);
      SweepTable(state, Bindings);
      SweepTable(state, DependencyObservations);
      SweepTable(state, Metadata);
      AllTables();
    }

    /** A sweep nothing interrupts leaves nothing queued, and no row of a queued state that
        nobody published again. */
    method Sweep()
      modifies this`rows, this`queued
      ensures queued == {}
      ensures forall row :: row in rows <==>
                row in old(rows) && (row.state in old(queued) ==> row.state in states)
    {
      while queued != {}
        invariant queued <= old(queued)
        invariant forall row :: row in rows <==>
                    row in old(rows)
                    && (row.state in old(queued) - queued ==> row.state in states)
        decreases |queued|
      {
        var state :| state in queued;
        SweepState(state);
        queued := queued - {state};
      }
    }
  }

  lemma SweptAll(start: set<StateRow>, rows: set<StateRow>, states: set<StateId>,
                 state: StateId, table: Table)
    requires rows <= start && start - rows <= Queued(start, state, table)
    requires state in states ==> rows == start
    requires Queued(rows, state, table) == {}
    ensures rows == Swept(start, states, state, {table})
  {
    forall row | row in start
      ensures row in rows <==> row in Swept(start, states, state, {table})
    {
      assert row in rows ==> row !in Queued(rows, state, table);
      assert row !in rows ==> row in Queued(start, state, table);
    }
  }

  lemma AllTables()
    ensures forall row: StateRow :: row.table in ALL_TABLES
  {
    forall row: StateRow
      ensures row.table in ALL_TABLES
    {
      match row.table
      case Observations =>
      case Metadata =>
      case DependencyObservations =>
      case Entities =>
      case Bindings =>
    }
  }

  function Queued(rows: set<StateRow>, state: StateId, table: Table): set<StateRow> {
    set row | row in rows && row.state == state && row.table == table
  }

  /** The rows left when the given relations of a state have been swept. */
  function Swept(rows: set<StateRow>, states: set<StateId>, state: StateId, tables: set<Table>)
    : set<StateRow>
  {
    if state in states then rows
    else rows - set row | row in rows && row.state == state && row.table in tables
  }

  // ---- loop steps ------------------------------------------------------------------------------

  ghost function AddedUpTo(db: Db, view: View, given: seq<RepositoryFacts>): set<StateRow> {
    set facts, row | facts in given && row in db.Added(view, facts) :: row
  }

  lemma {:induction false} AddedIsAll(db: Db, view: View, given: seq<RepositoryFacts>)
    requires DistinctFacts(given)
    ensures AddedUpTo(db, view, given) == db.AllAdded(view, ByRepository(given))
  {
    var facts := ByRepository(given);
    forall row | row in AddedUpTo(db, view, given)
      ensures row in db.AllAdded(view, facts)
    {
      var i :| 0 <= i < |given| && row in db.Added(view, given[i]);
      ByRepositoryAt(given, i);
    }
  }

  ghost predicate Resolved(db: Db, view: View, given: seq<RepositoryFacts>,
                           analyzed: seq<StateId>)
  {
    && |analyzed| == |given|
    && forall i {:trigger analyzed[i]} :: 0 <= i < |given| ==>
         analyzed[i] == db.Resolve(view, given[i])
  }

  lemma ResolvedMore(db: Db, view: View, given: seq<RepositoryFacts>, analyzed: seq<StateId>,
                     i: nat)
    requires i < |given| && Resolved(db, view, given[..i], analyzed)
    ensures Resolved(db, view, given[..i + 1], analyzed + [db.Resolve(view, given[i])])
  {
  }

  /** Rows stored earlier in the publication do not change what a repository resolves to. */
  lemma SameResolution(db: Db, view: View, done: seq<RepositoryFacts>, facts: RepositoryFacts,
                       now: Db)
    requires Safe(db) && now == db.(rows := db.rows + AddedUpTo(db, view, done))
    ensures now.Resolve(view, facts) == db.Resolve(view, facts)
    ensures now.rows + now.Added(view, facts) == db.rows + AddedUpTo(db, view, done + [facts])
  {
    AddedOneMore(db, view, done, facts);
    if facts.state.repository in db.Current(view) {
      var state := db.Current(view)[facts.state.repository];
      assert state in db.Current(view).Values && state in db.Selected();
      SameStored(db, view, done, state);
    }
    SameReusable(db, now.rows, view, facts);
  }

  lemma SameReusable(db: Db, rows: set<StateRow>, view: View, facts: RepositoryFacts)
    requires facts.state.repository in db.Current(view) ==>
               var state := db.Current(view)[facts.state.repository];
               StoredFacts(rows, state) == StoredFacts(db.rows, state)
    ensures db.(rows := rows).Resolve(view, facts) == db.Resolve(view, facts)
    ensures db.(rows := rows).Added(view, facts) == db.Added(view, facts)
  {
  }

  lemma AddedOneMore(db: Db, view: View, done: seq<RepositoryFacts>, facts: RepositoryFacts)
    ensures AddedUpTo(db, view, done + [facts])
         == AddedUpTo(db, view, done) + db.Added(view, facts)
  {
  }

  lemma SameStored(db: Db, view: View, done: seq<RepositoryFacts>, state: StateId)
    requires state in db.states
    ensures StoredFacts(db.rows + AddedUpTo(db, view, done), state) == StoredFacts(db.rows, state)
  {
  }

  function SelectionOf(given: seq<RepositoryFacts>, analyzed: seq<StateId>): Selection
    requires |given| == |analyzed|
  {
    if given == [] then map[] else
      var last := |given| - 1;
      SelectionOf(given[..last], analyzed[..last])[given[last].state.repository := analyzed[last]]
  }

  lemma PutOneMore(now: map<Revision, Selection>, before: map<Revision, Selection>,
                   revision: Revision, given: seq<RepositoryFacts>, analyzed: seq<StateId>,
                   i: nat)
    requires |given| == |analyzed| && i < |given|
    requires now == Put(before, revision, SelectionOf(given[..i], analyzed[..i]))
    ensures Put(now, revision, map[given[i].state.repository := analyzed[i]])
         == Put(before, revision, SelectionOf(given[..i + 1], analyzed[..i + 1]))
  {
    var shorter, one := SelectionOf(given[..i], analyzed[..i]),
                        map[given[i].state.repository := analyzed[i]];
    assert given[..i + 1][..i] == given[..i] && analyzed[..i + 1][..i] == analyzed[..i];
    assert SelectionOf(given[..i + 1], analyzed[..i + 1]) == shorter + one;
    assert At(before, revision) + shorter + one == At(before, revision) + (shorter + one);
    assert given[i].state.repository in one && given[i].state.repository in shorter + one;
  }

  /** What the loop recorded agrees with a resolution taken as a whole. */
  ghost predicate Agrees(given: seq<RepositoryFacts>, analyzed: seq<StateId>,
                         resolution: Selection)
  {
    && |analyzed| == |given| && resolution.Keys == ByRepository(given).Keys
    && forall i {:trigger analyzed[i]} :: 0 <= i < |given| ==>
         && given[i].state.repository in resolution
         && analyzed[i] == resolution[given[i].state.repository]
  }

  lemma {:induction false} AgreesFront(given: seq<RepositoryFacts>, analyzed: seq<StateId>,
                                       resolution: Selection)
    requires given != [] && DistinctFacts(given) && Agrees(given, analyzed, resolution)
    ensures var last := |given| - 1;
            var repository := given[last].state.repository;
            Agrees(given[..last], analyzed[..last], resolution - {repository})
            && repository in resolution && resolution[repository] == analyzed[last]
  {
    var last := |given| - 1;
    var front, repository := given[..last], given[last].state.repository;
    assert analyzed[last] == resolution[repository];
    forall i | 0 <= i < last
      ensures front[i].state.repository in resolution - {repository}
      ensures analyzed[..last][i] == resolution[front[i].state.repository]
    {
      ByRepositoryAt(front, i);
      assert analyzed[i] == resolution[given[i].state.repository];
    }
  }

  /** The loop over the repositories amounts to the resolution taken as a whole. */
  lemma {:induction false} LoopIsResolution(given: seq<RepositoryFacts>, analyzed: seq<StateId>,
                                            resolution: Selection)
    requires DistinctFacts(given) && Agrees(given, analyzed, resolution)
    ensures SelectionOf(given, analyzed) == resolution
    decreases |given|
  {
    if given != [] {
      var last := |given| - 1;
      AgreesFront(given, analyzed, resolution);
      LoopIsResolution(given[..last], analyzed[..last],
                       resolution - {given[last].state.repository});
    }
  }

  lemma {:induction false} LoopTakesValues(given: seq<RepositoryFacts>, analyzed: seq<StateId>,
                                           resolution: Selection)
    requires DistinctFacts(given) && Agrees(given, analyzed, resolution)
    ensures (set state | state in analyzed) == resolution.Values
    decreases |given|
  {
    if given != [] {
      var last := |given| - 1;
      var repository := given[last].state.repository;
      var rest := resolution - {repository};
      AgreesFront(given, analyzed, resolution);
      LoopTakesValues(given[..last], analyzed[..last], rest);
      OneMoreValue(rest, repository, analyzed[last]);
      assert resolution == rest[repository := analyzed[last]];
      ElementsOfLast(analyzed);
    }
  }

  lemma ElementsOfLast(states: seq<StateId>)
    requires states != []
    ensures var (front, last) := (states[..|states| - 1], states[|states| - 1]);
            (set state | state in states) == (set state | state in front) + {last}
  {
  }

  lemma ResolvedAll(db: Db, view: View, given: seq<RepositoryFacts>, analyzed: seq<StateId>)
    requires DistinctFacts(given) && Resolved(db, view, given, analyzed)
    ensures SelectionOf(given, analyzed) == db.Resolution(view, ByRepository(given))
    ensures (set state | state in analyzed) == db.Resolution(view, ByRepository(given)).Values
  {
    var resolution := db.Resolution(view, ByRepository(given));
    forall i | 0 <= i < |given|
      ensures given[i].state.repository in resolution
      ensures analyzed[i] == resolution[given[i].state.repository]
    {
      ByRepositoryAt(given, i);
    }
    LoopIsResolution(given, analyzed, resolution);
    LoopTakesValues(given, analyzed, resolution);
  }

  /** A publication, relation by relation. */
  lemma PublishedInParts(db: Db, view: View, given: seq<RepositoryFacts>, analyzed: seq<StateId>)
    requires DistinctFacts(given) && Resolved(db, view, given, analyzed)
    ensures var revision := db.NextRevision(view);
            db.Publish(view, ByRepository(given))
            == Db(db.states + (set state | state in analyzed),
                  db.rows + AddedUpTo(db, view, given), db.queued, db.revisions[view := revision],
                  Put(db.selections, Revision(view, revision), SelectionOf(given, analyzed)),
                  db.repositories)
  {
    ResolvedAll(db, view, given, analyzed);
    AddedIsAll(db, view, given);
  }

  lemma OneMoreValue(selection: Selection, repository: Repository, state: StateId)
    requires repository !in selection
    ensures selection[repository := state].Values == selection.Values + {state}
  {
    var more := selection[repository := state];
    forall s | s in selection.Values
      ensures s in more.Values
    {
      var r :| r in selection && selection[r] == s;
      assert more[r] == s;
    }
    assert more[repository] == state;
  }

  lemma FewerRows(rows: set<StateRow>, batch: set<StateRow>)
    requires batch <= rows && batch != {}
    ensures |rows - batch| < |rows|
  {
  }
}
