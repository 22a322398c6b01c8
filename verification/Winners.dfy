/** Which of several enrichment owners provides a fact: the selection tables, rebuilt in bulk or
    refreshed for the owners that changed. */
module Winners {
  import opened Order
  import opened Graph
  import opened Facts

  /** The content-addressed identifier of one enrichment output. */
  type OwnerId = string

  datatype Override = Override(from: Entity, relation: Dependency, unresolved: Entity,
                               resolved: Entity, evidence: string, confidence: real,
                               provenance: string)
  {
    function Row(): Row {
      Graph.Row(from, resolved, relation, evidence, confidence, provenance)
    }
  }

  /** One row of one enrichment output. */
  datatype Contribution =
    | EntityOf(id: Entity, kind: string, metadata: string)
    | ObservationOf(row: Row)
    | OverrideOf(override: Override)
    | DiagnosticOf(repository: Repository, code: string, severity: string, path: string,
                   line: nat, detail: string)
    | ReplacementOf(repository: Repository, code: string)

  datatype Stored = Stored(owner: OwnerId, fact: Contribution)

  /** The selection of an owner by a revision. */
  datatype Enrichment = Enrichment(repository: Repository, analyzer: string, version: string,
                                   input: string)

  type Owners = map<OwnerId, Enrichment>

  datatype Table = EntityTable | ObservationTable | OverrideTable | DiagnosticTable

  /** What the selection tables are keyed by. */
  datatype FactKey =
    | EntityKey(id: Entity)
    | ObservationKey(from: Entity, relation: Relation, to: Entity, evidence: string)
    | OverrideKey(source: Entity, overridden: Dependency, unresolved: Entity)
    | DiagnosticKey(repository: Repository, code: string, severity: string, path: string,
                    line: nat)
  {
    function In(): Table {
      match this
      case EntityKey(_) => EntityTable
      case ObservationKey(_, _, _, _) => ObservationTable
      case OverrideKey(_, _, _) => OverrideTable
      case DiagnosticKey(_, _, _, _, _) => DiagnosticTable
    }
  }

  function KeyOf(fact: Contribution): Option<FactKey> {
    match fact
    case EntityOf(id, _, _) => Some(EntityKey(id))
    case ObservationOf(row) => Some(ObservationKey(row.from, row.relation, row.to, row.evidence))
    case OverrideOf(o) => Some(OverrideKey(o.from, o.relation, o.unresolved))
    case DiagnosticOf(repository, code, severity, path, line, _) =>
      Some(DiagnosticKey(repository, code, severity, path, line))
    case ReplacementOf(_, _) => None
  }

  /** Only observations and overrides compete on confidence. */
  function Weight(fact: Contribution): real {
    match fact
    case ObservationOf(row) => row.confidence
    case OverrideOf(o) => o.confidence
    case _ => 0.0
  }

  datatype Candidate = Candidate(weight: real, analyzer: string, repository: Repository,
                                 owner: OwnerId)

  /** Highest confidence first, then by analyzer, repository and owner. */
  predicate CandidateLess(a: Candidate, b: Candidate) {
    a.weight > b.weight || (a.weight == b.weight && (
    StringLess(a.analyzer, b.analyzer) || (a.analyzer == b.analyzer && (
    StringLess(a.repository, b.repository) || (a.repository == b.repository &&
    StringLess(a.owner, b.owner))))))
  }

  lemma CandidateLessTotal(a: Candidate, b: Candidate)
    ensures a == b || CandidateLess(a, b) || CandidateLess(b, a)
    ensures !CandidateLess(a, a)
  {
    StringLessTotal(a.analyzer, b.analyzer);
    StringLessTotal(a.repository, b.repository);
    StringLessTotal(a.owner, b.owner);
    StringLessTotal(a.analyzer, a.analyzer);
    StringLessTotal(a.repository, a.repository);
    StringLessTotal(a.owner, a.owner);
  }

  lemma CandidateLessStrictTotal()
    ensures StrictTotal(CandidateLess)
  {
    forall x, y
      ensures x == y || CandidateLess(x, y) || CandidateLess(y, x)
      ensures !CandidateLess(x, x)
    {
      CandidateLessTotal(x, y);
    }
    forall x, y, z | CandidateLess(x, y) && CandidateLess(y, z)
      ensures CandidateLess(x, z)
    {
      StringLessChain(x.analyzer, y.analyzer, z.analyzer);
      StringLessChain(x.repository, y.repository, z.repository);
      StringLessChain(x.owner, y.owner, z.owner);
    }
  }

  predicate Contributes(owners: Owners, row: Stored, key: FactKey) {
    row.owner in owners && KeyOf(row.fact) == Some(key)
  }

  function Bid(owners: Owners, row: Stored): Candidate
    requires row.owner in owners
  {
    var owner := owners[row.owner];
    Candidate(Weight(row.fact), owner.analyzer, owner.repository, row.owner)
  }

  function Candidates(owners: Owners, stored: set<Stored>, key: FactKey): set<Candidate> {
    set row | row in stored && Contributes(owners, row, key) :: Bid(owners, row)
  }

  function BidKeys(owners: Owners, stored: set<Stored>): set<FactKey> {
    set row | row in stored && row.owner in owners && KeyOf(row.fact).Some?
      :: KeyOf(row.fact).value
  }

  function Winner(owners: Owners, stored: set<Stored>, key: FactKey): OwnerId
    requires key in BidKeys(owners, stored)
  {
    CandidateLessStrictTotal();
    var row :| row in stored && Contributes(owners, row, key);
    assert Bid(owners, row) in Candidates(owners, stored, key);
    Least(Candidates(owners, stored, key), CandidateLess).owner
  }

  /** Every table rebuilt from the selected owners. */
  function WinnersOf(owners: Owners, stored: set<Stored>): map<FactKey, OwnerId> {
    map key | key in BidKeys(owners, stored) :: Winner(owners, stored, key)
  }

  /** The winner of a fact is selected and provides it, and nobody outbids it. */
  lemma WinnerOutbidsAll(owners: Owners, stored: set<Stored>, key: FactKey)
    returns (best: Stored)
    requires key in WinnersOf(owners, stored)
    ensures best in stored && Contributes(owners, best, key)
    ensures best.owner == WinnersOf(owners, stored)[key]
    ensures forall row :: row in stored && Contributes(owners, row, key) ==>
              !CandidateLess(Bid(owners, row), Bid(owners, best))
  {
    CandidateLessStrictTotal();
    var row :| row in stored && Contributes(owners, row, key);
    assert Bid(owners, row) in Candidates(owners, stored, key);
    var least := Least(Candidates(owners, stored, key), CandidateLess);
    best :| best in stored && Contributes(owners, best, key) && Bid(owners, best) == least;
    forall other | other in stored && Contributes(owners, other, key)
      ensures !CandidateLess(Bid(owners, other), least)
    {
      assert Bid(owners, other) in Candidates(owners, stored, key);
    }
  }

  // ---- refresh ----------------------------------------------------------------------------------

  function AffectedKeys(stored: set<Stored>, changed: set<OwnerId>): set<FactKey> {
    set row | row in stored && row.owner in changed && KeyOf(row.fact).Some?
      :: KeyOf(row.fact).value
  }

  function Refreshed(winners: map<FactKey, OwnerId>, owners: Owners, stored: set<Stored>,
                     changed: set<OwnerId>): map<FactKey, OwnerId>
  {
    Rewon(winners, owners, stored, AffectedKeys(stored, changed))
  }

  /** The given keys removed and put back with their winners, if they have any. */
  function Rewon(winners: map<FactKey, OwnerId>, owners: Owners, stored: set<Stored>,
                 keys: set<FactKey>): map<FactKey, OwnerId>
  {
    (winners - keys) +
    map key | key in keys && key in BidKeys(owners, stored) :: Winner(owners, stored, key)
  }

  lemma RewonTwice(winners: map<FactKey, OwnerId>, owners: Owners, stored: set<Stored>,
                   keys: set<FactKey>, more: set<FactKey>)
    ensures Rewon(Rewon(winners, owners, stored, keys), owners, stored, more)
         == Rewon(winners, owners, stored, keys + more)
  {
    var once, both := Rewon(winners, owners, stored, keys), Rewon(winners, owners, stored, keys + more);
    forall key
      ensures SameAt(Rewon(once, owners, stored, more), both, key)
    {
      RewonAt(winners, owners, stored, keys, key);
      RewonAt(winners, owners, stored, keys + more, key);
      RewonAt(once, owners, stored, more, key);
    }
    SameEverywhere(Rewon(once, owners, stored, more), both);
  }

  predicate SameAt(a: map<FactKey, OwnerId>, b: map<FactKey, OwnerId>, key: FactKey) {
    (key in a <==> key in b) && (key in b ==> a[key] == b[key])
  }

  lemma SameEverywhere(a: map<FactKey, OwnerId>, b: map<FactKey, OwnerId>)
    requires forall key :: SameAt(a, b, key)
    ensures a == b
  {
    assert forall key :: key in a ==> SameAt(a, b, key);
    assert forall key :: key in b ==> SameAt(a, b, key);
  }

  lemma RewonAt(winners: map<FactKey, OwnerId>, owners: Owners, stored: set<Stored>,
                keys: set<FactKey>, key: FactKey)
    ensures var rewon := Rewon(winners, owners, stored, keys);
            if key !in keys then SameAt(rewon, winners, key)
            else if key in BidKeys(owners, stored)
            then key in rewon && rewon[key] == Winner(owners, stored, key)
            else key !in rewon
  {
  }

  /** Owners outside `changed` bid as they did; a new input fingerprint alone is no change. */
  ghost predicate SameBids(before: Owners, after: Owners, changed: set<OwnerId>) {
    forall o :: o !in changed ==>
      (o in before <==> o in after) &&
      (o in before ==> before[o].analyzer == after[o].analyzer
                       && before[o].repository == after[o].repository)
  }

  lemma UnaffectedWinner(before: Owners, after: Owners, stored: set<Stored>,
                         changed: set<OwnerId>, key: FactKey)
    requires SameBids(before, after, changed) && key !in AffectedKeys(stored, changed)
    ensures Candidates(before, stored, key) == Candidates(after, stored, key)
    ensures key in BidKeys(before, stored) <==> key in BidKeys(after, stored)
  {
  }

  /** Refreshing the owners that changed gives the tables a bulk rebuild would. */
  lemma RefreshIsRebuild(before: Owners, after: Owners, stored: set<Stored>,
                         changed: set<OwnerId>)
    requires SameBids(before, after, changed)
    ensures Refreshed(WinnersOf(before, stored), after, stored, changed)
         == WinnersOf(after, stored)
  {
    var refreshed := Refreshed(WinnersOf(before, stored), after, stored, changed);
    forall key
      ensures key in refreshed <==> key in WinnersOf(after, stored)
      ensures key in refreshed ==> refreshed[key] == WinnersOf(after, stored)[key]
    {
      if key !in AffectedKeys(stored, changed) {
        UnaffectedWinner(before, after, stored, changed, key);
      }
    }
  }

  /** Rows of owners that are not selected change no winner, whether they come or go. */
  lemma UnselectedRowsDoNotBid(owners: Owners, stored: set<Stored>, rows: set<Stored>)
    requires forall row :: row in rows ==> row.owner !in owners
    ensures WinnersOf(owners, stored + rows) == WinnersOf(owners, stored)
    ensures WinnersOf(owners, stored - rows) == WinnersOf(owners, stored)
  {
    SameBidders(owners, stored, stored + rows);
    SameBidders(owners, stored, stored - rows);
  }

  lemma SameBidders(owners: Owners, stored: set<Stored>, other: set<Stored>)
    requires forall row: Stored :: row.owner in owners ==> (row in stored <==> row in other)
    ensures WinnersOf(owners, stored) == WinnersOf(owners, other)
  {
    forall key
      ensures key in BidKeys(owners, stored) <==> key in BidKeys(owners, other)
      ensures Candidates(owners, stored, key) == Candidates(owners, other, key)
    {
    }
  }

  // ---- the refresh as it is done ------------------------------------------------------------------

  const ENRICHMENT_BULK_REFRESH_OWNER_THRESHOLD := 256

  function InTable(keys: set<FactKey>, tables: set<Table>): set<FactKey> {
    set key | key in keys && key.In() in tables
  }

  /** Removes the affected keys of one table and puts their winners among the selected owners. */
  method RefreshTable(winners: map<FactKey, OwnerId>, owners: Owners, stored: set<Stored>,
                      changed: set<OwnerId>, table: Table)
    returns (refreshed: map<FactKey, OwnerId>)
    ensures refreshed == Rewon(winners, owners, stored,
                               InTable(AffectedKeys(stored, changed), {table}))
  {
    var affected := InTable(AffectedKeys(stored, changed), {table});
    refreshed := winners - affected;
    refreshed := refreshed + map key | key in affected && key in BidKeys(owners, stored)
                               :: Winner(owners, stored, key);
  }

  method RefreshTables(winners: map<FactKey, OwnerId>, owners: Owners, stored: set<Stored>,
                       changed: set<OwnerId>)
    returns (refreshed: map<FactKey, OwnerId>)
    ensures refreshed == Refreshed(winners, owners, stored, changed)
  {
    ghost var affected := AffectedKeys(stored, changed);
    ghost var tables: set<Table> := {EntityTable};
    refreshed := RefreshTable(winners, owners, stored, changed, EntityTable);
    OneMoreTable(winners, owners, stored, affected, tables, ObservationTable);
    refreshed := RefreshTable(refreshed, owners, stored, changed, ObservationTable);
    tables := tables + {ObservationTable};
    OneMoreTable(winners, owners, stored, affected, tables, OverrideTable);
    refreshed := RefreshTable(refreshed, owners, stored, changed, OverrideTable);
    tables := tables + {OverrideTable};
    OneMoreTable(winners, owners, stored, affected, tables, DiagnosticTable);
    refreshed := RefreshTable(refreshed, owners, stored, changed, DiagnosticTable);
    EveryTable(affected, tables + {DiagnosticTable});
  }

  lemma OneMoreTable(winners: map<FactKey, OwnerId>, owners: Owners, stored: set<Stored>,
                     affected: set<FactKey>, tables: set<Table>, table: Table)
    ensures Rewon(Rewon(winners, owners, stored, InTable(affected, tables)), owners, stored,
                  InTable(affected, {table}))
         == Rewon(winners, owners, stored, InTable(affected, tables + {table}))
  {
    assert InTable(affected, tables) + InTable(affected, {table})
        == InTable(affected, tables + {table});
    RewonTwice(winners, owners, stored, InTable(affected, tables), InTable(affected, {table}));
  }

  lemma EveryTable(keys: set<FactKey>, tables: set<Table>)
    requires EntityTable in tables && ObservationTable in tables
    requires OverrideTable in tables && DiagnosticTable in tables
    ensures InTable(keys, tables) == keys
  {
  }

  /** Refreshes few changed owners, rebuilds for many: the tables come out the same. */
  method RefreshSelections(winners: map<FactKey, OwnerId>, ghost before: Owners, owners: Owners,
                           stored: set<Stored>, changed: set<OwnerId>)
    returns (refreshed: map<FactKey, OwnerId>)
    requires winners == WinnersOf(before, stored) && SameBids(before, owners, changed)
    ensures refreshed == WinnersOf(owners, stored)
  {
    RefreshIsRebuild(before, owners, stored, changed);
    if changed == {} {
      NothingAffected(winners, owners, stored);
      return winners;
    }
    if |changed| >= ENRICHMENT_BULK_REFRESH_OWNER_THRESHOLD {
      return WinnersOf(owners, stored);
    }
    refreshed := RefreshTables(winners, owners, stored, changed);
  }

  lemma NothingAffected(winners: map<FactKey, OwnerId>, owners: Owners, stored: set<Stored>)
    ensures Refreshed(winners, owners, stored, {}) == winners
  {
  }
}
