/** One workspace view in the store: its revisions, fact shards and enrichment outputs, what each
    publication makes of them, and the sources a publication recomputes. */
module Publication {
  import opened Graph
  import opened Facts
  import opened Winners
  import opened Dependencies
  import opened EntityContract

  datatype ShardKey = ShardKey(producer: string, repository: Repository, owner: string)

  datatype ShardId = ShardId(producer: string, owner: string, version: string)

  /** What an enrichment owner is the hash of. */
  datatype Snapshot = Snapshot(repository: Repository, analyzer: string, version: string,
                               facts: set<Contribution>)

  /** What identifiers stand for: a shard version and an owner determine their content. */
  datatype Contents = Contents(snapshot: OwnerId -> Snapshot, shard: ShardId -> set<Row>,
                               described: ShardId -> set<EntityFact>)

  datatype InputKey = InputKey(repository: Repository, analyzer: string)

  /** The rows of one revision. */
  datatype Manifest = Manifest(states: Selection, inputs: map<InputKey, string>, owners: Owners,
                               observations: set<Row>, overrides: set<Override>,
                               entities: set<EntityFact>)

  const BLANK := Manifest(map[], map[], map[], {}, {}, {})

  type Shards = map<ShardKey, string>

  /** The relations a view owns, except those derived from the others. */
  datatype Base = Base(revision: nat, manifests: map<nat, Manifest>, shards: Shards,
                       outputs: set<OwnerId>, stored: set<Stored>)
  {
    function Current(): Manifest {
      if revision in manifests then manifests[revision] else BLANK
    }

    /** A revision written as the current one. */
    function Write(next: nat, manifest: Manifest): Base {
      this.(revision := next, manifests := manifests[next := manifest])
    }

    /** Owners some revision still selects. */
    function Selected(): set<OwnerId> {
      set n, o | n in manifests && o in manifests[n].owners :: o
    }
  }

  const NOTHING := Base(0, map[], map[], {}, {})

  // ---- publications ---------------------------------------------------------------------------------

  /** What one publication of a view says about it. */
  datatype Content = Content(states: Selection, shards: Shards, observations: set<Row>,
                             overrides: set<Override>, entities: set<EntityFact>,
                             inputs: map<InputKey, string>)

  function KeyOfOwner(e: Enrichment): InputKey {
    InputKey(e.repository, e.analyzer)
  }

  /** Selected owners whose analyzer no longer has an input for their repository. */
  function Obsolete(owners: Owners, inputs: map<InputKey, string>): set<OwnerId> {
    set o | o in owners && KeyOfOwner(owners[o]) !in inputs
  }

  function Publish(base: Base, content: Content): Base {
    var owners := base.Current().owners;
    base.(shards := content.shards)
        .Write(base.revision + 1,
               Manifest(content.states, content.inputs,
                        owners - Obsolete(owners, content.inputs),
                        content.observations, content.overrides, content.entities))
  }

  /** New inputs for the current revision; owners they make obsolete are dropped in a copy. */
  function ReplaceInputs(base: Base, inputs: map<InputKey, string>): Base {
    var manifest := base.Current().(inputs := inputs);
    var replaced := base.Write(base.revision, manifest);
    var obsolete := Obsolete(manifest.owners, inputs);
    if obsolete == {} then replaced
    else replaced.Write(base.revision + 1, manifest.(owners := manifest.owners - obsolete))
  }

  // ---- enrichment publications ----------------------------------------------------------------------

  /** A fact shard of an enrichment publication. */
  datatype Shard = Shard(repository: Repository, producer: string, owner: string, version: string)

  /** What an analyzer publishes for a repository: the owners its outputs hash to, and the fact
      shards among them. */
  datatype Output = Output(key: InputKey, version: string, input: string, owners: set<OwnerId>,
                           shards: seq<Shard>)

  datatype Outcome = Rejected | Superseded | Unchanged | Published

  /** Each owner is an output of this analyzer and version for this repository. */
  ghost predicate Identified(c: Contents, output: Output) {
    forall o :: o in output.owners ==>
      && c.snapshot(o).repository == output.key.repository
      && c.snapshot(o).analyzer == output.key.analyzer
      && c.snapshot(o).version == output.version
  }

  predicate Blank(text: string) {
    forall ch :: ch in text ==> ch == ' ' || ch == '\t' || ch == '\n' || ch == '\r'
  }

  /** Fact shards are the analyzer's own, versioned, and one for each owner. */
  predicate HasOwnShards(output: Output) {
    && (forall s :: s in output.shards ==>
          s.repository == output.key.repository && s.producer == output.key.analyzer
          && s.version != "")
    && (forall i, j :: 0 <= i < j < |output.shards| ==>
          output.shards[i].owner != output.shards[j].owner)
  }

  /** Diagnostics, replacements and fact shards stay within the target repository. */
  predicate InScope(c: Contents, output: Output) {
    && HasOwnShards(output)
    && (forall o, fact | o in output.owners && fact in c.snapshot(o).facts ::
          && (fact.DiagnosticOf? ==> fact.repository == output.key.repository)
          && (fact.ReplacementOf? ==> fact.repository == output.key.repository && !Blank(fact.code)))
  }

  function OwnersOf(owners: Owners, key: InputKey): set<OwnerId> {
    set o | o in owners && KeyOfOwner(owners[o]) == key
  }

  function SelectionRow(output: Output): Enrichment {
    Enrichment(output.key.repository, output.key.analyzer, output.version, output.input)
  }

  /** The output is selected already, computed from the same input. */
  predicate IsCurrent(owners: Owners, output: Output) {
    OwnersOf(owners, output.key) == output.owners
    && forall o :: o in output.owners ==>
         owners[o].version == output.version && owners[o].input == output.input
  }

  function RowsOfOwners(c: Contents, owners: set<OwnerId>): set<Stored> {
    set o, fact | o in owners && fact in c.snapshot(o).facts :: Stored(o, fact)
  }

  function NewOwners(owners: Owners, output: Output): Owners {
    (owners - OwnersOf(owners, output.key)) + map o | o in output.owners :: SelectionRow(output)
  }

  /** Stores the outputs that are missing and selects the owners in a copy of the revision. */
  function PublishOutput(c: Contents, base: Base, output: Output): Base {
    var m := base.Current();
    base.(outputs := base.outputs + output.owners,
          stored := base.stored + RowsOfOwners(c, output.owners - base.outputs))
        .Write(base.revision + 1, m.(owners := NewOwners(m.owners, output)))
  }

  /** The output is new, and computed from the input the revision expects. */
  predicate IsDue(c: Contents, base: Base, output: Output) {
    var m := base.Current();
    && InScope(c, output) && output.key in m.inputs && m.inputs[output.key] == output.input
    && !IsCurrent(m.owners, output)
  }

  ghost function Decide(c: Contents, base: Base, output: Output): Outcome {
    var m := base.Current();
    if !InScope(c, output) || output.key !in m.inputs then Rejected
    else if m.inputs[output.key] != output.input then Superseded
    else if IsCurrent(m.owners, output) then Unchanged
    else if !Accepts(c, PublishOutput(c, base, output)) then Rejected
    else Published
  }

  ghost function Enrich(c: Contents, base: Base, output: Output): Base {
    if Decide(c, base, output).Published? then PublishOutput(c, base, output) else base
  }

  /** A publication of a view that is aborted when what it selects is not sound. */
  ghost function Republish(c: Contents, base: Base, content: Content): Base {
    if Accepts(c, Publish(base, content)) then Publish(base, content) else base
  }

  // ---- sweeps ---------------------------------------------------------------------------------------

  /** One batch of an unselected owner's rows; it is dropped when the owner is selected again. */
  function SweepOwner(base: Base, owner: OwnerId, batch: set<Stored>): Base {
    if owner in base.Selected() then base
    else base.(stored := base.stored - set row | row in batch && row.owner == owner)
  }

  function RemoveOutput(base: Base, owner: OwnerId): Base {
    if owner in base.Selected() then base else base.(outputs := base.outputs - {owner})
  }

  /** A row of a revision. */
  datatype RevisionRow =
    | Selecting(repository: Repository)
    | Expecting(key: InputKey)
    | Owning(owner: OwnerId)
    | Observing(row: Row)
    | Overriding(override: Override)
    | Describing(entity: EntityFact)

  function Without(m: Manifest, rows: set<RevisionRow>): Manifest {
    Manifest(map r | r in m.states && Selecting(r) !in rows :: m.states[r],
             map k | k in m.inputs && Expecting(k) !in rows :: m.inputs[k],
             map o | o in m.owners && Owning(o) !in rows :: m.owners[o],
             set r | r in m.observations && Observing(r) !in rows,
             set o | o in m.overrides && Overriding(o) !in rows,
             set e | e in m.entities && Describing(e) !in rows)
  }

  /** One batch of rows of revisions below one read earlier, which is at most the current one. */
  function SweepRevisions(base: Base, before: nat, batch: set<(nat, RevisionRow)>): Base
    requires before <= base.revision
  {
    base.(manifests := map n | n in base.manifests ::
            if n < before then Without(base.manifests[n], RowsAt(batch, n)) else base.manifests[n])
  }

  function RowsAt(batch: set<(nat, RevisionRow)>, n: nat): set<RevisionRow> {
    set b | b in batch && b.0 == n :: b.1
  }

  // ---- what the dependency rules see ----------------------------------------------------------------

  function ShardOf(key: ShardKey, version: string): ShardId {
    ShardId(key.producer, key.owner, version)
  }

  function ObservedRows(state: StateId): set<Row> {
    set fact | fact in state.facts && fact.Observed? :: fact.row
  }

  function StateRows(states: Selection): set<Row> {
    set repository, r | repository in states && r in ObservedRows(states[repository]) :: r
  }

  function ShardRows(c: Contents, shards: Shards): set<Row> {
    set key, r | key in shards && r in c.shard(ShardOf(key, shards[key])) :: r
  }

  function Wins(winners: map<FactKey, OwnerId>, owners: Owners, row: Stored): bool {
    row.owner in owners && KeyOf(row.fact).Some? && KeyOf(row.fact).value in winners
    && winners[KeyOf(row.fact).value] == row.owner
  }

  function EnrichmentRows(owners: Owners, stored: set<Stored>, winners: map<FactKey, OwnerId>)
    : set<Row>
  {
    set s | s in stored && s.fact.ObservationOf? && Wins(winners, owners, s) :: s.fact.row
  }

  function EnrichmentOverrides(owners: Owners, stored: set<Stored>,
                               winners: map<FactKey, OwnerId>): set<Override>
  {
    set s | s in stored && s.fact.OverrideOf? && Wins(winners, owners, s) :: s.fact.override
  }

  /** What the rules read, given the selection tables. */
  function Read(c: Contents, m: Manifest, shards: Shards, stored: set<Stored>,
                winners: map<FactKey, OwnerId>): Inputs
  {
    Inputs(StateRows(m.states), ShardRows(c, shards), m.observations, m.overrides,
           EnrichmentOverrides(m.owners, stored, winners),
           EnrichmentRows(m.owners, stored, winners))
  }

  function Seen(c: Contents, m: Manifest, shards: Shards, stored: set<Stored>): Inputs {
    Read(c, m, shards, stored, WinnersOf(m.owners, stored))
  }

  function InputsOf(c: Contents, base: Base): Inputs {
    Seen(c, base.Current(), base.shards, base.stored)
  }

  // ---- what a view says of its entities --------------------------------------------------------------

  function StateEntities(states: Selection): set<EntityFact> {
    set r, fact | r in states && fact in states[r].facts && fact.Declared?
      :: EntityFact(fact.id, fact.kind, fact.metadata)
  }

  function ShardEntities(c: Contents, shards: Shards): set<EntityFact> {
    set k, e | k in shards && e in c.described(ShardOf(k, shards[k])) :: e
  }

  function OwnerEntities(owners: Owners, stored: set<Stored>): set<EntityFact> {
    set s | s in stored && s.owner in owners && s.fact.EntityOf?
      :: EntityFact(s.fact.id, s.fact.kind, s.fact.metadata)
  }

  /** Every entity fact the current revision selects, whether it wins or not. */
  function SelectedEntities(c: Contents, base: Base): set<EntityFact> {
    var m := base.Current();
    StateEntities(m.states) + ShardEntities(c, base.shards) + m.entities
    + OwnerEntities(m.owners, base.stored)
  }

  /** What validation asks of the contents a transaction is about to commit. */
  ghost predicate IsSound(c: Contents, base: Base) {
    && Agreeing(SelectedEntities(c, base))
    && Endpoints(EffectiveRows(InputsOf(c, base)), Effective(InputsOf(c, base)))
       <= Described(SelectedEntities(c, base))
  }

  ghost predicate IsVerdict(c: Contents, base: Base, sound: bool) {
    sound == IsSound(c, base)
  }

  /** Validation passes; said so that the rules unfold only on demand. */
  ghost predicate Accepts(c: Contents, base: Base) {
    forall sound {:trigger IsVerdict(c, base, sound)} :: IsVerdict(c, base, sound) ==> sound
  }

  lemma AcceptsIsSound(c: Contents, base: Base)
    ensures Accepts(c, base) <==> IsSound(c, base)
  {
    assert IsVerdict(c, base, IsSound(c, base));
  }

  ghost predicate IsSelection(c: Contents, base: Base, entities: set<EntityFact>) {
    entities == SelectedEntities(c, base)
  }

  /** No entity has two descriptions. */
  ghost predicate Consistent(c: Contents, base: Base) {
    forall entities {:trigger IsSelection(c, base, entities)} ::
      IsSelection(c, base, entities) ==> Agreeing(entities)
  }

  lemma ConsistentIsAgreeing(c: Contents, base: Base)
    ensures Consistent(c, base) <==> Agreeing(SelectedEntities(c, base))
  {
    assert IsSelection(c, base, SelectedEntities(c, base));
  }

  /** What is committed after validation is consistent, and the ends of its dependency edges are
      described. */
  lemma AcceptedIsConsistent(c: Contents, base: Base)
    requires Accepts(c, base)
    ensures Consistent(c, base)
    ensures forall edge :: edge in Rebuild(InputsOf(c, base)) ==>
              && edge.from in Described(SelectedEntities(c, base))
              && edge.to in Described(SelectedEntities(c, base))
  {
    AcceptsIsSound(c, base);
    ConsistentIsAgreeing(c, base);
    forall edge | edge in Rebuild(InputsOf(c, base))
      ensures edge.from in Described(SelectedEntities(c, base))
      ensures edge.to in Described(SelectedEntities(c, base))
    {
      EdgesAreDescribed(InputsOf(c, base), SelectedEntities(c, base), edge);
    }
  }

  lemma FewerIsConsistent(c: Contents, before: Base, after: Base)
    requires Consistent(c, before) && SelectedEntities(c, after) <= SelectedEntities(c, before)
    ensures Consistent(c, after)
  {
    ConsistentIsAgreeing(c, before);
    ConsistentIsAgreeing(c, after);
  }

  /** Replacing inputs drops owners at most. */
  lemma ReplaceConsistent(c: Contents, base: Base, inputs: map<InputKey, string>)
    requires Consistent(c, base)
    ensures Consistent(c, ReplaceInputs(base, inputs))
  {
    FewerIsConsistent(c, base, ReplaceInputs(base, inputs));
  }

  /** Sweeping takes rows of owners that are not selected, and of earlier revisions. */
  lemma SweepConsistent(c: Contents, base: Base, owner: OwnerId, batch: set<Stored>)
    requires Consistent(c, base)
    ensures Consistent(c, SweepOwner(base, owner, batch))
    ensures Consistent(c, RemoveOutput(base, owner))
  {
    FewerIsConsistent(c, base, SweepOwner(base, owner, batch));
    FewerIsConsistent(c, base, RemoveOutput(base, owner));
  }

  // ---- sources of what changed ------------------------------------------------------------------------

  function Sources(rows: set<Row>): set<Entity> {
    set r | r in rows :: r.from
  }

  function OverrideSources(overrides: set<Override>): set<Entity> {
    set o | o in overrides :: o.from
  }

  /** States on either side that the other side does not have for the same repository. */
  function ChangedStates(before: Selection, after: Selection): set<StateId> {
    (set r | r in before && (r !in after || after[r] != before[r]) :: before[r])
    + (set r | r in after && (r !in before || before[r] != after[r]) :: after[r])
  }

  function StateSources(before: Selection, after: Selection): set<Entity> {
    set state, r | state in ChangedStates(before, after) && r in Dependent(ObservedRows(state))
      :: r.from
  }

  function ChangedShards(before: Shards, after: Shards): set<ShardId> {
    (set k | k in before && (k !in after || after[k] != before[k]) :: ShardOf(k, before[k]))
    + (set k | k in after && (k !in before || before[k] != after[k]) :: ShardOf(k, after[k]))
  }

  function ShardSources(c: Contents, before: Shards, after: Shards): set<Entity> {
    set shard, r | shard in ChangedShards(before, after) && r in Dependent(c.shard(shard)) :: r.from
  }

  /** Where the stored observations and overrides of some owners start. */
  function EnrichmentSources(stored: set<Stored>, owners: set<OwnerId>): set<Entity> {
    (set s | s in stored && s.owner in owners && s.fact.ObservationOf? :: s.fact.row.from)
    + (set s | s in stored && s.owner in owners && s.fact.OverrideOf? :: s.fact.override.from)
  }

  // ---- the sources cover every change --------------------------------------------------------------------

  lemma StatesCovered(before: Selection, after: Selection, s: Entity)
    requires s !in StateSources(before, after)
    ensures From(Dependent(StateRows(before)), {s}) == From(Dependent(StateRows(after)), {s})
  {
  }

  lemma ShardsCovered(c: Contents, before: Shards, after: Shards, s: Entity)
    requires s !in ShardSources(c, before, after)
    ensures From(Dependent(ShardRows(c, before)), {s}) == From(Dependent(ShardRows(c, after)), {s})
  {
  }

  /** A fact that starts where no changed owner contributes is won as before. */
  lemma WinsAsBefore(before: Owners, after: Owners, stored: set<Stored>, changed: set<OwnerId>,
                     row: Stored, s: Entity)
    requires SameBids(before, after, changed) && s !in EnrichmentSources(stored, changed)
    requires row in stored
    requires (row.fact.ObservationOf? && row.fact.row.from == s)
             || (row.fact.OverrideOf? && row.fact.override.from == s)
    ensures Wins(WinnersOf(before, stored), before, row)
       <==> Wins(WinnersOf(after, stored), after, row)
  {
    var key := KeyOf(row.fact).value;
    forall other | other in stored && KeyOf(other.fact) == Some(key)
      ensures other.owner !in changed
    {
      assert row.fact.ObservationOf? ==> other.fact.ObservationOf? && other.fact.row.from == s;
      assert row.fact.OverrideOf? ==> other.fact.OverrideOf? && other.fact.override.from == s;
    }
    UnaffectedWinner(before, after, stored, changed, key);
  }

  lemma EnrichmentsCovered(before: Owners, after: Owners, stored: set<Stored>,
                           changed: set<OwnerId>, s: Entity)
    requires SameBids(before, after, changed) && s !in EnrichmentSources(stored, changed)
    ensures From(EnrichmentRows(before, stored, WinnersOf(before, stored)), {s})
         == From(EnrichmentRows(after, stored, WinnersOf(after, stored)), {s})
    ensures OverridesFrom(EnrichmentOverrides(before, stored, WinnersOf(before, stored)), {s})
         == OverridesFrom(EnrichmentOverrides(after, stored, WinnersOf(after, stored)), {s})
  {
    forall row | row in stored
                 && ((row.fact.ObservationOf? && row.fact.row.from == s)
                     || (row.fact.OverrideOf? && row.fact.override.from == s))
      ensures Wins(WinnersOf(before, stored), before, row)
         <==> Wins(WinnersOf(after, stored), after, row)
    {
      WinsAsBefore(before, after, stored, changed, row, s);
    }
  }

  /** Storing or sweeping rows of owners nobody selects changes no input of the rules. */
  lemma UnselectedRowsUnseen(owners: Owners, stored: set<Stored>, other: set<Stored>)
    requires forall row: Stored :: row.owner in owners ==> (row in stored <==> row in other)
    ensures WinnersOf(owners, stored) == WinnersOf(owners, other)
    ensures EnrichmentRows(owners, stored, WinnersOf(owners, stored))
         == EnrichmentRows(owners, other, WinnersOf(owners, other))
    ensures EnrichmentOverrides(owners, stored, WinnersOf(owners, stored))
         == EnrichmentOverrides(owners, other, WinnersOf(owners, other))
  {
    SameBidders(owners, stored, other);
  }

  // ---- the invariant -----------------------------------------------------------------------------------

  ghost predicate Wellformed(c: Contents, base: Base, n: nat)
    requires n in base.manifests
  {
    var m := base.manifests[n];
    && (forall r :: r in m.observations ==> IsDependency(r.relation))
    && (forall o :: o in m.owners ==>
          && o in base.outputs
          && m.owners[o].repository == c.snapshot(o).repository
          && m.owners[o].analyzer == c.snapshot(o).analyzer
          && m.owners[o].version == c.snapshot(o).version)
  }

  /** Every selected owner has an output, under its own identity; stored rows are genuine. */
  ghost predicate Settled(c: Contents, base: Base) {
    && (forall n :: n in base.manifests ==> n <= base.revision)
    && (forall n {:trigger Wellformed(c, base, n)} :: n in base.manifests ==> Wellformed(c, base, n))
    && (forall row :: row in base.stored ==> row.fact in c.snapshot(row.owner).facts)
  }

  lemma CurrentWellformed(c: Contents, base: Base, o: OwnerId)
    requires Settled(c, base)
    ensures o in base.Current().owners ==> o in base.outputs && o in base.Selected()
    ensures forall r :: r in base.Current().observations ==> IsDependency(r.relation)
  {
    assert base.revision in base.manifests ==> Wellformed(c, base, base.revision);
  }

  lemma PublishSettled(c: Contents, base: Base, content: Content)
    requires Settled(c, base)
    requires forall r :: r in content.observations ==> IsDependency(r.relation)
    ensures Settled(c, Publish(base, content))
  {
    var after := Publish(base, content);
    assert base.revision in base.manifests ==> Wellformed(c, base, base.revision);
    forall n | n in after.manifests
      ensures Wellformed(c, after, n)
    {
      if n != after.revision {
        assert Wellformed(c, base, n);
      }
    }
  }

  lemma ReplaceSettled(c: Contents, base: Base, inputs: map<InputKey, string>)
    requires Settled(c, base)
    ensures Settled(c, ReplaceInputs(base, inputs))
  {
    var after := ReplaceInputs(base, inputs);
    assert base.revision in base.manifests ==> Wellformed(c, base, base.revision);
    forall n | n in after.manifests
      ensures Wellformed(c, after, n)
    {
      if n != after.revision && n != base.revision {
        assert Wellformed(c, base, n);
      }
    }
  }

  lemma EnrichSettled(c: Contents, base: Base, output: Output)
    requires Settled(c, base) && Identified(c, output)
    ensures Settled(c, Enrich(c, base, output))
  {
    OutputSettled(c, base, output);
  }

  lemma OutputSettled(c: Contents, base: Base, output: Output)
    requires Settled(c, base) && Identified(c, output)
    ensures Settled(c, PublishOutput(c, base, output))
  {
    var after := PublishOutput(c, base, output);
    assert base.revision in base.manifests ==> Wellformed(c, base, base.revision);
    forall n | n in after.manifests
      ensures Wellformed(c, after, n)
    {
      if n in base.manifests {
        assert Wellformed(c, base, n);
      }
    }
  }

  lemma SweepSettled(c: Contents, base: Base, owner: OwnerId, batch: set<Stored>)
    requires Settled(c, base)
    ensures Settled(c, SweepOwner(base, owner, batch))
    ensures Settled(c, RemoveOutput(base, owner))
  {
    forall n | n in base.manifests
      ensures Wellformed(c, SweepOwner(base, owner, batch), n)
      ensures Wellformed(c, RemoveOutput(base, owner), n)
    {
      assert Wellformed(c, base, n);
    }
  }

  lemma SweepRevisionsSettled(c: Contents, base: Base, before: nat,
                              batch: set<(nat, RevisionRow)>)
    requires Settled(c, base) && before <= base.revision
    ensures Settled(c, SweepRevisions(base, before, batch))
    ensures SweepRevisions(base, before, batch).Current() == base.Current()
    ensures SweepRevisions(base, before, batch).Selected() <= base.Selected()
  {
    forall n | n in SweepRevisions(base, before, batch).manifests
      ensures Wellformed(c, SweepRevisions(base, before, batch), n)
    {
      assert Wellformed(c, base, n);
    }
  }

  // ---- what a publication recomputes is enough ------------------------------------------------------------

  function InputsAt(c: Contents, base: Base, s: Entity): Inputs {
    At(InputsOf(c, base), s)
  }

  /** Outside `sources` the rules see the same before and after. */
  ghost predicate Covers(c: Contents, before: Base, after: Base, sources: set<Entity>) {
    forall s {:trigger InputsAt(c, after, s)} ::
      s !in sources ==> InputsAt(c, before, s) == InputsAt(c, after, s)
  }

  ghost predicate IsWon(owners: Owners, stored: set<Stored>, winners: map<FactKey, OwnerId>) {
    winners == WinnersOf(owners, stored)
  }

  ghost predicate IsRebuilt(c: Contents, base: Base, resolved: Resolved) {
    resolved == Rebuild(InputsOf(c, base))
  }

  /** The selection tables are the winners; said so that the rules unfold only on demand. */
  ghost predicate Won(owners: Owners, stored: set<Stored>, winners: map<FactKey, OwnerId>) {
    forall w {:trigger IsWon(owners, stored, w)} :: IsWon(owners, stored, w) ==> w == winners
  }

  /** The dependency table is the rebuild; said so that the rules unfold only on demand. */
  ghost predicate Rebuilt(c: Contents, base: Base, resolved: Resolved) {
    forall r {:trigger IsRebuilt(c, base, r)} :: IsRebuilt(c, base, r) ==> r == resolved
  }

  lemma WonIsWinners(owners: Owners, stored: set<Stored>, winners: map<FactKey, OwnerId>)
    ensures Won(owners, stored, winners) <==> winners == WinnersOf(owners, stored)
  {
    assert IsWon(owners, stored, WinnersOf(owners, stored));
  }

  lemma RebuiltIsRebuild(c: Contents, base: Base, resolved: Resolved)
    ensures Rebuilt(c, base, resolved) <==> resolved == Rebuild(InputsOf(c, base))
  {
    assert IsRebuilt(c, base, Rebuild(InputsOf(c, base)));
  }

  /** Where the revisions on either side observe or override something themselves, and where a
      repository's state differs. */
  function RevisionSources(m: Manifest, content: Content): set<Entity> {
    Sources(m.observations) + OverrideSources(m.overrides)
    + StateSources(m.states, content.states)
    + Sources(content.observations) + OverrideSources(content.overrides)
  }

  /** The sources an incremental publication collects. */
  function PublishSources(c: Contents, base: Base, content: Content): set<Entity> {
    var m := base.Current();
    ShardSources(c, base.shards, content.shards) + RevisionSources(m, content)
    + EnrichmentSources(base.stored, Obsolete(m.owners, content.inputs))
  }

  /** Two manifests look the same from a source outside everything that differs. */
  lemma SeenAlike(c: Contents, m: Manifest, n: Manifest, shards: Shards, others: Shards,
                  stored: set<Stored>, changed: set<OwnerId>, s: Entity)
    requires s !in ShardSources(c, shards, others) && s !in StateSources(m.states, n.states)
    requires m.observations == n.observations
             || (s !in Sources(m.observations) && s !in Sources(n.observations))
    requires m.overrides == n.overrides
             || (s !in OverrideSources(m.overrides) && s !in OverrideSources(n.overrides))
    requires SameBids(m.owners, n.owners, changed) && s !in EnrichmentSources(stored, changed)
    ensures At(Seen(c, m, shards, stored), s) == At(Seen(c, n, others, stored), s)
  {
    StatesCovered(m.states, n.states, s);
    ShardsCovered(c, shards, others, s);
    EnrichmentsCovered(m.owners, n.owners, stored, changed, s);
    if m.observations != n.observations {
      NoRowsFrom(m.observations, s);
      NoRowsFrom(n.observations, s);
    }
    if m.overrides != n.overrides {
      NoOverridesFrom(m.overrides, s);
      NoOverridesFrom(n.overrides, s);
    }
    DependentEnrichments(m.owners, n.owners, stored, s);
  }

  lemma DependentEnrichments(before: Owners, after: Owners, stored: set<Stored>, s: Entity)
    requires From(EnrichmentRows(before, stored, WinnersOf(before, stored)), {s})
          == From(EnrichmentRows(after, stored, WinnersOf(after, stored)), {s})
    ensures From(Dependent(EnrichmentRows(before, stored, WinnersOf(before, stored))), {s})
         == From(Dependent(EnrichmentRows(after, stored, WinnersOf(after, stored))), {s})
  {
    var rows, others := EnrichmentRows(before, stored, WinnersOf(before, stored)),
                        EnrichmentRows(after, stored, WinnersOf(after, stored));
    forall r: Row | r.from == s
      ensures r in rows <==> r in others
    {
      assert r in rows <==> r in From(rows, {s});
      assert r in others <==> r in From(others, {s});
    }
  }

  lemma NothingChanged(c: Contents, states: Selection, shards: Shards)
    ensures StateSources(states, states) == {} && ShardSources(c, shards, shards) == {}
  {
  }

  lemma PublishCovered(c: Contents, base: Base, content: Content)
    ensures Covers(c, base, Publish(base, content), PublishSources(c, base, content))
  {
    var m, n := base.Current(), Publish(base, content).Current();
    var obsolete := Obsolete(m.owners, content.inputs);
    forall s | s !in PublishSources(c, base, content)
      ensures InputsAt(c, base, s) == InputsAt(c, Publish(base, content), s)
    {
      SeenAlike(c, m, n, base.shards, content.shards, base.stored, obsolete, s);
    }
  }

  lemma NoRowsFrom(rows: set<Row>, s: Entity)
    requires s !in Sources(rows)
    ensures From(rows, {s}) == {}
  {
  }

  lemma NoOverridesFrom(overrides: set<Override>, s: Entity)
    requires s !in OverrideSources(overrides)
    ensures OverridesFrom(overrides, {s}) == {}
  {
  }

  /** Only owners that went away matter when the inputs of a revision are replaced. */
  lemma ReplaceCovered(c: Contents, base: Base, inputs: map<InputKey, string>)
    ensures Covers(c, base, ReplaceInputs(base, inputs),
                   EnrichmentSources(base.stored, Obsolete(base.Current().owners, inputs)))
  {
    var m, n := base.Current(), ReplaceInputs(base, inputs).Current();
    var obsolete := Obsolete(m.owners, inputs);
    assert n == m.(inputs := inputs, owners := m.owners - obsolete);
    NothingChanged(c, m.states, base.shards);
    forall s | s !in EnrichmentSources(base.stored, obsolete)
      ensures InputsAt(c, base, s) == InputsAt(c, ReplaceInputs(base, inputs), s)
    {
      SeenAlike(c, m, n, base.shards, base.shards, base.stored, obsolete, s);
    }
  }

  /** The owners an enrichment publication selects or stops selecting. */
  function ChangedOwners(owners: Owners, output: Output): set<OwnerId> {
    var previous := OwnersOf(owners, output.key);
    (previous - output.owners) + (output.owners - previous)
  }

  /** An owner's identity fixes which analyzer and repository select it. */
  lemma ChangedOwnersBid(c: Contents, base: Base, output: Output)
    requires Settled(c, base) && Identified(c, output)
    ensures SameBids(base.Current().owners, NewOwners(base.Current().owners, output),
                     ChangedOwners(base.Current().owners, output))
  {
  }

  lemma EnrichCovered(c: Contents, base: Base, output: Output)
    requires Settled(c, base) && Identified(c, output)
    ensures var after := PublishOutput(c, base, output);
            Covers(c, base, after,
                   EnrichmentSources(after.stored, ChangedOwners(base.Current().owners, output)))
  {
    var after, m := PublishOutput(c, base, output), base.Current();
    var changed := ChangedOwners(m.owners, output);
    MissingUnselected(c, base, output);
    UnselectedRowsUnseen(m.owners, base.stored, after.stored);
    assert InputsOf(c, base) == Seen(c, m, base.shards, after.stored);
    ChangedOwnersBid(c, base, output);
    NothingChanged(c, m.states, base.shards);
    forall s | s !in EnrichmentSources(after.stored, changed)
      ensures InputsAt(c, base, s) == InputsAt(c, after, s)
    {
      SeenAlike(c, m, after.Current(), base.shards, base.shards, after.stored, changed, s);
    }
  }

  /** Rows stored for missing outputs are of no owner the current revision selects. */
  lemma MissingUnselected(c: Contents, base: Base, output: Output)
    requires Settled(c, base)
    ensures forall row: Stored | row.owner in base.Current().owners ::
              row in base.stored <==> row in PublishOutput(c, base, output).stored
  {
    forall row: Stored | row.owner in base.Current().owners
      ensures row in base.stored <==> row in PublishOutput(c, base, output).stored
    {
      CurrentWellformed(c, base, row.owner);
    }
  }
}
