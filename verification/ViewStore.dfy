/** The transactions that publish to one view. Each leaves the selection tables and the dependency
    table as a rebuild from the other relations would. */
module ViewStore {
  import opened Graph
  import opened Facts
  import opened Winners
  import opened Dependencies
  import opened EntityContract
  import opened Publication

  class View {
    const c: Contents
    var revision: nat
    var manifests: map<nat, Manifest>
    var shards: Shards
    var outputs: set<OwnerId>
    var stored: set<Stored>
    var winners: map<FactKey, OwnerId>
    var resolved: Resolved
    var analysis: Option<string>
    var semantic: Option<string>

    function Contents(): Base
      reads this
    {
      Base(revision, manifests, shards, outputs, stored)
    }

    /** The derived tables are what the other relations determine, and no entity is described in
        two ways. */
    ghost predicate Valid()
      reads this
    {
      && Settled(c, Contents())
      && Won(Contents().Current().owners, stored, winners)
      && Rebuilt(c, Contents(), resolved)
      && Consistent(c, Contents())
      && (analysis.Some? || semantic.Some? ==> revision in manifests)
    }

    constructor (contents: Contents)
      ensures Contents() == NOTHING && c == contents && Valid()
    {
      c := contents;
      revision, manifests, shards, outputs, stored := 0, map[], map[], {}, {};
      winners, resolved, analysis, semantic := map[], map[], None, None;
      new;
      EmptyTables(c);
    }

    /** Selects the given shard versions; returns the sources of those that differ from before. */
    method ReplaceFactShards(incoming: Shards) returns (affected: set<Entity>)
      modifies this`shards
      ensures shards == incoming
      ensures affected == ShardSources(c, old(shards), incoming)
    {
      var removed := RowSources(c, Replaced(shards, incoming));
      var kept := map k | k in shards && k in incoming :: shards[k];
      BothSides(c, shards, incoming);
      shards, affected := InstallShards(c, shards, kept, incoming);
      affected := removed + affected;
    }

    /** Drops the owners of the current revision that have no input, and their facts' winners. */
    method RemoveObsolete(ghost before: Owners) returns (obsolete: set<OwnerId>)
      requires revision in manifests && manifests[revision].owners == before
      requires Won(before, stored, winners)
      modifies this`manifests, this`winners
      ensures obsolete == Obsolete(before, old(manifests)[revision].inputs)
      ensures manifests == old(manifests)[revision :=
                old(manifests)[revision].(owners := before - obsolete)]
      ensures Won(before - obsolete, stored, winners)
    {
      var m := manifests[revision];
      obsolete := Obsolete(m.owners, m.inputs);
      var owners := m.owners - obsolete;
      manifests := manifests[revision := m.(owners := owners)];
      UpdateWinners(before, owners, obsolete);
    }

    /** Recomputes the winners among `owners` of what the changed owners contribute. */
    method UpdateWinners(ghost before: Owners, owners: Owners, changed: set<OwnerId>)
      requires Won(before, stored, winners) && SameBids(before, owners, changed)
      modifies this`winners
      ensures Won(owners, stored, winners)
    {
      WonIsWinners(before, stored, winners);
      winners := RefreshSelections(winners, before, owners, stored, changed);
      WonIsWinners(owners, stored, winners);
    }

    /** Recomputes the dependencies of the given sources. */
    method RefreshDependencies(ghost before: Base, sources: set<Entity>)
      requires Settled(c, Contents()) && Won(Contents().Current().owners, stored, winners)
      requires Rebuilt(c, before, resolved) && Covers(c, before, Contents(), sources)
      modifies this`resolved
      ensures Rebuilt(c, Contents(), resolved)
    {
      ReadIsInputs(c, Contents(), winners);
      CurrentTyped(c, Contents());
      RefreshedIsRebuilt(c, before, Contents(), resolved, sources);
      resolved := RefreshResolved(
        resolved, Read(c, Contents().Current(), shards, stored, winners), sources);
    }

    method RebuildDependencies()
      requires Won(Contents().Current().owners, stored, winners)
      modifies this`resolved
      ensures Rebuilt(c, Contents(), resolved)
    {
      ReadIsInputs(c, Contents(), winners);
      RebuiltIsRebuild(c, Contents(), Rebuild(InputsOf(c, Contents())));
      resolved := Rebuild(Read(c, Contents().Current(), shards, stored, winners));
    }

    /** Opens the next revision with the given content and the owners that still have inputs. */
    method OpenRevision(content: Content) returns (obsolete: set<OwnerId>)
      requires Won(Contents().Current().owners, stored, winners)
      modifies this`revision, this`manifests, this`winners
      ensures Contents() == Publish(old(Contents()).(shards := shards), content).(shards := shards)
      ensures Won(Contents().Current().owners, stored, winners)
      ensures obsolete == Obsolete(old(Contents()).Current().owners, content.inputs)
    {
      var owners := Contents().Current().owners;
      revision := revision + 1;
      manifests := manifests[revision := Manifest(content.states, content.inputs, owners,
                                                  content.observations, content.overrides,
                                                  content.entities)];
      obsolete := RemoveObsolete(owners);
    }

    /** Everything of a publication but the dependency table, and the sources to recompute. */
    method WriteContent(content: Content, incremental: bool) returns (affected: set<Entity>)
      requires Won(Contents().Current().owners, stored, winners)
      modifies this`revision, this`manifests, this`shards, this`winners
      ensures Contents() == Publish(old(Contents()), content)
      ensures Won(Contents().Current().owners, stored, winners)
      ensures incremental ==> affected == PublishSources(c, old(Contents()), content)
    {
      var previous := Contents().Current();
      affected := ReplaceFactShards(content.shards);
      if incremental {
        affected := affected + RevisionSources(previous, content);
      }
      var obsolete := OpenRevision(content);
      if incremental {
        affected := affected + EnrichmentSources(stored, obsolete);
      }
    }

    /** The same, with sources that cover every change when the refresh is to be incremental. */
    method WriteRevision(content: Content, incremental: bool) returns (affected: Option<set<Entity>>)
      requires Settled(c, Contents()) && Won(Contents().Current().owners, stored, winners)
      requires forall r :: r in content.observations ==> IsDependency(r.relation)
      modifies this`revision, this`manifests, this`shards, this`winners
      ensures Contents() == Publish(old(Contents()), content) && Settled(c, Contents())
      ensures Won(Contents().Current().owners, stored, winners)
      ensures affected.Some? <==> incremental
      ensures affected.Some? ==> Covers(c, old(Contents()), Contents(), affected.value)
    {
      ghost var before := Contents();
      PublishSettled(c, before, content);
      PublishCovered(c, before, content);
      var sources := WriteContent(content, incremental);
      affected := if incremental then Some(sources) else None;
    }

    /** Checks what the transaction is about to commit. */
    method ValidateSelected() returns (fault: Option<Fault>)
      requires Won(Contents().Current().owners, stored, winners)
      ensures fault.None? <==> Accepts(c, Contents())
    {
      ReadIsInputs(c, Contents(), winners);
      AcceptsIsSound(c, Contents());
      var inputs := Read(c, Contents().Current(), shards, stored, winners);
      fault := Validate(SelectedEntities(c, Contents()), EffectiveRows(inputs), Effective(inputs));
    }

    /** Takes back what an aborted transaction has written. */
    method Abort(before: Base, selection: map<FactKey, OwnerId>)
      modifies this`revision, this`manifests, this`shards, this`outputs, this`stored, this`winners
      ensures Contents() == before && winners == selection
    {
      revision, manifests, shards := before.revision, before.manifests, before.shards;
      outputs, stored, winners := before.outputs, before.stored, selection;
    }

    /** The end of a transaction: what it has written is checked and its dependencies are brought
        up to date, or it is all taken back. */
    method Commit(before: Base, selection: map<FactKey, OwnerId>, affected: Option<set<Entity>>)
      returns (fault: Option<Fault>)
      requires Settled(c, Contents()) && Won(Contents().Current().owners, stored, winners)
      requires Rebuilt(c, before, resolved)
      requires affected.Some? ==> Covers(c, before, Contents(), affected.value)
      modifies this`revision, this`manifests, this`shards, this`outputs, this`stored, this`winners,
               this`resolved
      ensures fault.None? <==> Accepts(c, old(Contents()))
      ensures if fault.None?
              then Contents() == old(Contents()) && winners == old(winners) && Consistent(c, Contents())
              else Contents() == before && winners == selection
      ensures Rebuilt(c, Contents(), resolved)
    {
      fault := ValidateSelected();
      if fault.Some? {
        Abort(before, selection);
        return;
      }
      AcceptedIsConsistent(c, Contents());
      if affected.Some? {
        RefreshDependencies(before, affected.value);
      } else {
        RebuildDependencies();
      }
    }

    /** One publication: refreshed incrementally when it has a semantic fingerprint, aborted when
        what it selects is not sound. */
    method PublishContent(content: Content, fingerprint: string, semanticFingerprint: Option<string>)
      returns (fault: Option<Fault>)
      requires Valid() && forall r :: r in content.observations ==> IsDependency(r.relation)
      modifies this
      ensures fault.None? <==> Accepts(c, Publish(old(Contents()), content))
      ensures Valid() && Contents() == if fault.None? then Publish(old(Contents()), content)
                                       else old(Contents())
      ensures fault.None? ==> analysis == Some(fingerprint) && semantic == semanticFingerprint
      ensures fault.Some? ==> analysis == old(analysis) && semantic == old(semantic)
    {
      var before, selection := Contents(), winners;
      var affected := WriteRevision(content, semanticFingerprint.Some?);
      fault := Commit(before, selection, affected);
      if fault.None? {
        analysis, semantic := Some(fingerprint), semanticFingerprint;
      }
    }

    /** New inputs in the current revision, or in a copy of it without the owners they drop. */
    method WriteInputs(inputs: map<InputKey, string>) returns (affected: set<Entity>)
      requires revision in manifests && Won(Contents().Current().owners, stored, winners)
      modifies this`revision, this`manifests, this`winners
      ensures Contents() == ReplaceInputs(old(Contents()), inputs)
      ensures Won(Contents().Current().owners, stored, winners)
      ensures affected == EnrichmentSources(stored, Obsolete(old(Contents()).Current().owners, inputs))
    {
      var m := manifests[revision].(inputs := inputs);
      manifests := manifests[revision := m];
      affected := {};
      if Obsolete(m.owners, inputs) != {} {
        var obsolete := CopyRevision(m);
        affected := EnrichmentSources(stored, obsolete);
      }
    }

    /** A copy of a revision in the next one, without the owners its inputs drop. */
    method CopyRevision(m: Manifest) returns (obsolete: set<OwnerId>)
      requires Won(m.owners, stored, winners)
      modifies this`revision, this`manifests, this`winners
      ensures obsolete == Obsolete(m.owners, m.inputs)
      ensures Contents() == old(Contents()).Write(old(revision) + 1, m.(owners := m.owners - obsolete))
      ensures Won(Contents().Current().owners, stored, winners)
    {
      revision := revision + 1;
      manifests := manifests[revision := m];
      obsolete := RemoveObsolete(m.owners);
    }

    /** New inputs for the current revision, without publishing its content again. */
    method ReplaceRevisionInputs(inputs: map<InputKey, string>)
      requires Valid() && revision in manifests
      modifies this`revision, this`manifests, this`winners, this`resolved
      ensures Contents() == ReplaceInputs(old(Contents()), inputs) && Valid()
    {
      ghost var base := Contents();
      ReplaceSettled(c, base, inputs);
      ReplaceCovered(c, base, inputs);
      ReplaceConsistent(c, base, inputs);
      var affected := WriteInputs(inputs);
      RefreshDependencies(base, affected);
    }

    /** New inputs for the current revision, unless what is left is not sound. */
    method CommitInputs(inputs: map<InputKey, string>) returns (fault: Option<Fault>)
      requires Valid() && revision in manifests
      modifies this`revision, this`manifests, this`shards, this`outputs, this`stored, this`winners,
               this`resolved
      ensures fault.None? <==> Accepts(c, ReplaceInputs(old(Contents()), inputs))
      ensures Contents() == if fault.None? then ReplaceInputs(old(Contents()), inputs)
                            else old(Contents())
      ensures Valid()
    {
      var before, selection := Contents(), winners;
      ReplaceSettled(c, before, inputs);
      ReplaceCovered(c, before, inputs);
      var affected := WriteInputs(inputs);
      fault := Commit(before, selection, Some(affected));
    }

    /** A publication whose semantic fingerprint is the stored one only replaces the inputs; it
        fails when a repository has no selected state or what is left is not sound. */
    method RefreshSemanticNoop(content: Content, fingerprint: string, semanticFingerprint: string)
      returns (noop: Noop)
      requires Valid()
      modifies this
      ensures noop == DecideNoop(c, old(Contents()), content, old(semantic) == Some(semanticFingerprint))
      ensures Valid() && Contents() == if noop.Refreshed?
                                       then ReplaceInputs(old(Contents()), content.inputs)
                                       else old(Contents())
      ensures semantic == old(semantic)
      ensures analysis == if noop.Refreshed? then Some(fingerprint) else old(analysis)
    {
      if semantic != Some(semanticFingerprint) {
        return Differs;
      }
      if !(content.states.Keys <= Contents().Current().states.Keys) {
        return Failed;
      }
      var fault := CommitInputs(content.inputs);
      if fault.Some? {
        return Failed;
      }
      analysis := Some(fingerprint);
      noop := Refreshed;
    }

    /** Publishes a view: a new revision, unless it is known to say what the stored one says. */
    method PublishObservations(content: Content, fingerprint: string,
                               semanticFingerprint: Option<string>, verified: bool)
      returns (accepted: bool)
      requires Valid() && forall r :: r in content.observations ==> IsDependency(r.relation)
      modifies this
      ensures var same := verified && semanticFingerprint.Some? && old(semantic) == semanticFingerprint;
              var noop := DecideNoop(c, old(Contents()), content, same);
              && accepted == (if same then noop.Refreshed?
                              else Accepts(c, Publish(old(Contents()), content)))
              && Contents() == (if !accepted then old(Contents())
                                else if same then ReplaceInputs(old(Contents()), content.inputs)
                                else Publish(old(Contents()), content))
      ensures Valid()
      ensures accepted ==> analysis == Some(fingerprint) && semantic == semanticFingerprint
      ensures !accepted ==> analysis == old(analysis) && semantic == old(semantic)
    {
      if semanticFingerprint.Some? && verified {
        var noop := RefreshSemanticNoop(content, fingerprint, semanticFingerprint.value);
        if !noop.Differs? {
          return noop.Refreshed?;
        }
      }
      var fault := PublishContent(content, fingerprint, semanticFingerprint);
      accepted := fault.None?;
    }

    /** Removes every row of the view. */
    method Delete()
      modifies this
      ensures Contents() == NOTHING && Valid()
    {
      revision, manifests, shards, outputs, stored := 0, map[], map[], {}, {};
      winners, resolved, analysis, semantic := map[], map[], None, None;
      EmptyTables(c);
    }

    method EnsureRevisionInputs(fingerprint: string, inputs: map<InputKey, string>)
      returns (current: bool)
      requires Valid()
      modifies this`revision, this`manifests, this`winners, this`resolved
      ensures current <==> analysis == Some(fingerprint)
      ensures Valid() && Contents() == if current then ReplaceInputs(old(Contents()), inputs)
                                       else old(Contents())
    {
      current := analysis == Some(fingerprint);
      if current {
        ReplaceRevisionInputs(inputs);
      }
    }

    /** Everything of an enrichment publication but the dependency table. */
    method WriteOutput(output: Output) returns (affected: set<Entity>)
      requires Won(Contents().Current().owners, PublishOutput(c, Contents(), output).stored, winners)
      requires SameBids(Contents().Current().owners, NewOwners(Contents().Current().owners, output),
                        ChangedOwners(Contents().Current().owners, output))
      modifies this`revision, this`manifests, this`outputs, this`stored, this`winners
      ensures Contents() == PublishOutput(c, old(Contents()), output)
      ensures Won(Contents().Current().owners, stored, winners)
      ensures affected ==
                EnrichmentSources(stored, ChangedOwners(old(Contents()).Current().owners, output))
    {
      var m := Contents().Current();
      stored := stored + RowsOfOwners(c, output.owners - outputs);
      outputs := outputs + output.owners;
      var changed := ChangedOwners(m.owners, output);
      var owners := NewOwners(m.owners, output);
      revision := revision + 1;
      manifests := manifests[revision := m.(owners := owners)];
      UpdateWinners(m.owners, owners, changed);
      affected := EnrichmentSources(stored, changed);
    }

    /** Selects an output in the next revision, unless what that selects is not sound. */
    method SelectOutput(output: Output) returns (fault: Option<Fault>)
      requires Valid() && Identified(c, output)
      requires IsDue(c, Contents(), output)
      modifies this`revision, this`manifests, this`shards, this`outputs, this`stored, this`winners,
               this`resolved
      ensures fault.None? <==> Decide(c, old(Contents()), output).Published?
      ensures Contents() == Enrich(c, old(Contents()), output) && Valid()
    {
      var before, selection := Contents(), winners;
      MissingUnselected(c, before, output);
      OutputSettled(c, before, output);
      EnrichCovered(c, before, output);
      ChangedOwnersBid(c, before, output);
      StillWon(before.Current().owners, before.stored, PublishOutput(c, before, output).stored,
               winners);
      var affected := WriteOutput(output);
      fault := Commit(before, selection, Some(affected));
    }

    /** Publishes the output of an analyzer for the input it was computed from. */
    method PublishEnrichment(output: Output) returns (outcome: Outcome)
      requires Valid() && Identified(c, output)
      modifies this`revision, this`manifests, this`shards, this`outputs, this`stored, this`winners,
               this`resolved
      ensures outcome == Decide(c, old(Contents()), output)
      ensures Contents() == Enrich(c, old(Contents()), output) && Valid()
    {
      if !InScope(c, output) {
        return Rejected;
      }
      var m := Contents().Current();
      if output.key !in m.inputs {
        return Rejected;
      }
      if m.inputs[output.key] != output.input {
        return Superseded;
      }
      if IsCurrent(m.owners, output) {
        return Unchanged;
      }
      var fault := SelectOutput(output);
      outcome := if fault.None? then Published else Rejected;
    }

    /** One batch of the rows of an owner no revision selects. */
    method SweepOwnerBatch(owner: OwnerId, batch: set<Stored>) returns (removed: bool)
      requires Valid() && forall row :: row in batch ==> row.owner == owner
      modifies this`stored
      ensures Contents() == SweepOwner(old(Contents()), owner, batch) && Valid()
      ensures removed <==> owner !in Contents().Selected()
    {
      if owner in Contents().Selected() {
        return false;
      }
      ghost var base := Contents();
      assert (set row | row in batch && row.owner == owner) == batch;
      SweepSettled(c, base, owner, batch);
      SweepConsistent(c, base, owner, batch);
      CurrentWellformed(c, base, owner);
      StillWon(base.Current().owners, base.stored, base.stored - batch, winners);
      StillRebuilt(c, base, base.(stored := base.stored - batch), resolved);
      stored := stored - batch;
      removed := true;
    }

    method RemoveOwnerOutput(owner: OwnerId)
      requires Valid()
      modifies this`outputs
      ensures Contents() == RemoveOutput(old(Contents()), owner) && Valid()
    {
      SweepSettled(c, Contents(), owner, {});
      SweepConsistent(c, Contents(), owner, {});
      StillRebuilt(c, Contents(), RemoveOutput(Contents(), owner), resolved);
      if owner !in Contents().Selected() {
        outputs := outputs - {owner};
      }
    }

    /** One batch of rows of revisions below one read earlier. */
    method SweepSuperseded(before: nat, batch: set<(nat, RevisionRow)>)
      requires Valid() && before <= revision
      modifies this`manifests
      ensures Contents() == SweepRevisions(old(Contents()), before, batch) && Valid()
    {
      SweepRevisionsSettled(c, Contents(), before, batch);
      FewerIsConsistent(c, Contents(), SweepRevisions(Contents(), before, batch));
      StillRebuilt(c, Contents(), SweepRevisions(Contents(), before, batch), resolved);
      manifests := map n | n in manifests ::
        if n < before then Without(manifests[n], RowsAt(batch, n)) else manifests[n];
    }
  }

  /** How a publication with the stored semantic fingerprint ends. */
  datatype Noop = Differs | Failed | Refreshed

  ghost function DecideNoop(c: Contents, base: Base, content: Content, same: bool): Noop {
    if !same then Differs
    else if !(content.states.Keys <= base.Current().states.Keys)
            || !Accepts(c, ReplaceInputs(base, content.inputs)) then Failed
    else Refreshed
  }

  // ---- proof steps -------------------------------------------------------------------------------------

  lemma EmptyTables(c: Contents)
    ensures Settled(c, NOTHING) && Won(map[], {}, map[]) && Rebuilt(c, NOTHING, map[])
    ensures Consistent(c, NOTHING)
  {
    ConsistentIsAgreeing(c, NOTHING);
    assert BidKeys(map[], {}) == {};
    WonIsWinners(map[], {}, map[]);
    NothingRead(c);
    NothingRebuilt();
    RebuiltIsRebuild(c, NOTHING, map[]);
  }

  lemma NothingRead(c: Contents)
    ensures InputsOf(c, NOTHING) == NO_INPUTS
  {
  }

  lemma NothingRebuilt()
    ensures Rebuild(NO_INPUTS) == map[]
  {
    assert Direct(NO_INPUTS) == {} && Dependent({}) == {} && IdsOf({}) == {};
  }

  /** The rules read what the winners leave. */
  lemma ReadIsInputs(c: Contents, base: Base, winners: map<FactKey, OwnerId>)
    requires Won(base.Current().owners, base.stored, winners)
    ensures Read(c, base.Current(), base.shards, base.stored, winners) == InputsOf(c, base)
  {
    WonIsWinners(base.Current().owners, base.stored, winners);
  }

  lemma RefreshedIsRebuilt(c: Contents, before: Base, after: Base, resolved: Resolved,
                           sources: set<Entity>)
    requires Rebuilt(c, before, resolved) && Covers(c, before, after, sources)
    requires Typed(InputsOf(c, after))
    ensures Rebuilt(c, after, Refresh(resolved, InputsOf(c, after), sources))
  {
    RebuiltIsRebuild(c, before, resolved);
    forall s | s !in sources
      ensures At(InputsOf(c, before), s) == At(InputsOf(c, after), s)
    {
      assert InputsAt(c, before, s) == InputsAt(c, after, s);
    }
    Dependencies.RefreshIsRebuild(InputsOf(c, before), InputsOf(c, after), sources);
    RebuiltIsRebuild(c, after, Refresh(resolved, InputsOf(c, after), sources));
  }

  lemma StillWon(owners: Owners, stored: set<Stored>, other: set<Stored>,
                 winners: map<FactKey, OwnerId>)
    requires Won(owners, stored, winners)
    requires forall row: Stored :: row.owner in owners ==> (row in stored <==> row in other)
    ensures Won(owners, other, winners)
  {
    WonIsWinners(owners, stored, winners);
    WonIsWinners(owners, other, winners);
    SameBidders(owners, stored, other);
  }

  /** What the rules do not read may change. */
  lemma StillRebuilt(c: Contents, before: Base, after: Base, resolved: Resolved)
    requires Rebuilt(c, before, resolved)
    requires after.Current() == before.Current() && after.shards == before.shards
    requires forall row: Stored :: row.owner in before.Current().owners ==>
               (row in before.stored <==> row in after.stored)
    ensures Rebuilt(c, after, resolved)
  {
    RebuiltIsRebuild(c, before, resolved);
    RebuiltIsRebuild(c, after, resolved);
    UnselectedRowsUnseen(before.Current().owners, before.stored, after.stored);
  }

  lemma CurrentTyped(c: Contents, base: Base)
    requires Settled(c, base)
    ensures Typed(InputsOf(c, base))
  {
    CurrentWellformed(c, base, "");
  }

  function RowSources(c: Contents, ids: set<ShardId>): set<Entity> {
    set shard, r | shard in ids && r in Dependent(c.shard(shard)) :: r.from
  }

  function Replaced(current: Shards, incoming: Shards): set<ShardId> {
    set k | k in current && (k !in incoming || incoming[k] != current[k]) :: ShardOf(k, current[k])
  }

  ghost function Installed(current: Shards, incoming: Shards, keys: set<ShardKey>): set<ShardId>
    requires keys <= incoming.Keys
  {
    set k | k in keys && (k !in current || current[k] != incoming[k]) :: ShardOf(k, incoming[k])
  }

  /** The sources of the shards installed when `pending` are still to go. */
  ghost function InstalledSources(c: Contents, current: Shards, incoming: Shards,
                                  pending: set<ShardKey>): set<Entity>
  {
    RowSources(c, Installed(current, incoming, incoming.Keys - pending))
  }

  /** Selections and sources when `pending` are still to go. */
  ghost predicate Installing(c: Contents, current: Shards, incoming: Shards,
                             pending: set<ShardKey>, shards: Shards, affected: set<Entity>)
  {
    && pending <= incoming.Keys && incoming.Keys - pending <= shards.Keys <= incoming.Keys
    && (forall k :: k in shards ==>
          if k in pending then k in current && shards[k] == current[k]
          else shards[k] == incoming[k])
    && (forall k :: k in pending && k in current ==> k in shards)
    && affected == InstalledSources(c, current, incoming, pending)
  }

  lemma InstallOne(c: Contents, current: Shards, incoming: Shards, pending: set<ShardKey>,
                   shards: Shards, affected: set<Entity>, k: ShardKey)
    requires Installing(c, current, incoming, pending, shards, affected) && k in pending
    ensures var sources := Sources(Dependent(c.shard(ShardOf(k, incoming[k]))));
            if k in current && current[k] == incoming[k] then
              Installing(c, current, incoming, pending - {k}, shards, affected)
            else
              Installing(c, current, incoming, pending - {k}, shards[k := incoming[k]],
                         affected + sources)
  {
    OneMoreInstalled(c, current, incoming, pending, k);
  }

  /** Puts every incoming version that is not selected already. */
  method InstallShards(c: Contents, current: Shards, kept: Shards, incoming: Shards)
    returns (shards: Shards, affected: set<Entity>)
    requires kept == map k | k in current && k in incoming :: current[k]
    ensures shards == incoming
    ensures affected == RowSources(c, Installed(current, incoming, incoming.Keys))
  {
    shards, affected := kept, {};
    var pending := incoming.Keys;
    AllInstalled(c, current, incoming);
    while pending != {}
      invariant Installing(c, current, incoming, pending, shards, affected)
      decreases |pending|
    {
      var k :| k in pending;
      InstallOne(c, current, incoming, pending, shards, affected, k);
      if !(k in current && current[k] == incoming[k]) {
        affected := affected + Sources(Dependent(c.shard(ShardOf(k, incoming[k]))));
        shards := shards[k := incoming[k]];
      }
      pending := pending - {k};
    }
  }

  lemma OneMoreInstalled(c: Contents, current: Shards, incoming: Shards, pending: set<ShardKey>,
                         k: ShardKey)
    requires k in pending && pending <= incoming.Keys
    ensures InstalledSources(c, current, incoming, pending - {k}) ==
              InstalledSources(c, current, incoming, pending)
              + if k in current && current[k] == incoming[k] then {}
                else Sources(Dependent(c.shard(ShardOf(k, incoming[k]))))
  {
  }

  lemma AllInstalled(c: Contents, current: Shards, incoming: Shards)
    ensures InstalledSources(c, current, incoming, {})
         == RowSources(c, Installed(current, incoming, incoming.Keys))
    ensures InstalledSources(c, current, incoming, incoming.Keys) == {}
  {
  }

  lemma BothSides(c: Contents, current: Shards, incoming: Shards)
    ensures ShardSources(c, current, incoming) ==
              RowSources(c, Replaced(current, incoming))
              + RowSources(c, Installed(current, incoming, incoming.Keys))
  {
  }
}
