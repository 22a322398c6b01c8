/** What analyzers hand to the store, and the identifiers the store derives from it. A hash is
    modelled by what it is taken over, so an identifier determines its content. */
module Facts {
  import opened Graph

  type Repository = string
  type View = string

  datatype Result<+T> = Ok(value: T) | Err(message: string)

  predicate IsDependency(relation: Relation) {
    !relation.Defines? && !relation.FieldOf? && !relation.RequestType? && !relation.ResponseType?
  }

  type Dependency = r: Relation | IsDependency(r) witness Calls

  /** One normalized fact of one analyzed repository state. */
  datatype Fact =
    | Observed(row: Row)
    | Declared(id: Entity, kind: string, metadata: string)
    | Bound(local: Entity, role: string, service: string, procedure: string, evidence: string,
            cardinality: string, confidence: real, provenance: string)

  /** What is said of one entity. */
  datatype EntityFact = EntityFact(id: Entity, kind: string, metadata: string)

  /** The stored relations that hold the facts of a state. */
  datatype Table = Observations | Metadata | DependencyObservations | Entities | Bindings

  datatype StateRow = StateRow(state: StateId, table: Table, fact: Fact)

  /** `Analyzed` is the hash of the repository identity, its source fingerprint and the normalized
      facts; `Legacy` is any identifier older stores wrote, of which only its text is known. */
  datatype StateId =
    | Analyzed(repository: Repository, fingerprint: string, facts: set<Fact>)
    | Legacy(text: string, facts: set<Fact>)

  /** The states a revision selects, by repository. */
  type Selection = map<Repository, StateId>

  datatype RepositoryState = RepositoryState(repository: Repository, head: Option<string>,
                                             fingerprint: string)

  datatype RepositoryFacts = RepositoryFacts(state: RepositoryState, analysisIdentity: string,
                                             incomplete: bool, facts: set<Fact>)

  datatype WorkspaceView = WorkspaceView(name: View, states: seq<RepositoryState>)

  function AnalyzedState(facts: RepositoryFacts): StateId {
    Analyzed(facts.state.repository, facts.state.fingerprint, facts.facts)
  }

  predicate Holds(table: Table, fact: Fact) {
    match table
    case Observations => fact.Observed?
    case Metadata => fact.Observed?
    case DependencyObservations => fact.Observed? && IsDependency(fact.row.relation)
    case Entities => fact.Declared?
    case Bindings => fact.Bound?
  }

  const ALL_TABLES := {Observations, Metadata, DependencyObservations, Entities, Bindings}

  /** Every row a state consists of. */
  function RowsOf(state: StateId): set<StateRow> {
    set table, fact | table in ALL_TABLES && fact in state.facts && Holds(table, fact)
      :: StateRow(state, table, fact)
  }

  /** The facts that the stored rows of a state join to. */
  function StoredFacts(rows: set<StateRow>, state: StateId): set<Fact> {
    set row | row in rows && row.state == state && Readable(rows, row) :: row.fact
  }

  /** An observation is only read together with its metadata. */
  predicate Readable(rows: set<StateRow>, row: StateRow) {
    match row.table
    case Observations => StateRow(row.state, Metadata, row.fact) in rows
    case Metadata => false
    case DependencyObservations => false
    case Entities => true
    case Bindings => true
  }

  lemma StoredIsContent(rows: set<StateRow>, state: StateId)
    requires forall row :: row in rows && row.state == state <==> row in RowsOf(state)
    ensures StoredFacts(rows, state) == state.facts
  {
    forall fact | fact in state.facts
      ensures fact in StoredFacts(rows, state)
    {
      var table := match fact
        case Observed(_) => Observations
        case Declared(_, _, _) => Entities
        case Bound(_, _, _, _, _, _, _, _) => Bindings;
      var row := StateRow(state, table, fact);
      assert row in RowsOf(state);
      assert fact.Observed? ==> StateRow(state, Metadata, fact) in RowsOf(state);
    }
  }

  predicate EndsWith(text: string, suffix: string) {
    |suffix| <= |text| && text[|text| - |suffix|..] == suffix
  }
}
