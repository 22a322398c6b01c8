/** The enrichment protocol over whole runs: what a publication of an analyzer's output changes,
    what it leaves alone, and when a selected owner's facts are all there. */
module Enrichments {
  import opened Graph
  import opened Facts
  import opened Winners
  import opened Dependencies
  import opened EntityContract
  import opened Publication

  /** The selected outputs of an analyzer are of this version and of the current input. */
  predicate Matches(base: Base, key: InputKey, version: string) {
    var m := base.Current();
    && key in m.inputs && OwnersOf(m.owners, key) != {}
    && forall o :: o in OwnersOf(m.owners, key) ==>
         m.owners[o].version == version && m.owners[o].input == m.inputs[key]
  }

  lemma IdentityFixesKey(c: Contents, base: Base, output: Output, o: OwnerId)
    requires Settled(c, base) && Identified(c, output)
    requires o in base.Current().owners && o in output.owners
    ensures KeyOfOwner(base.Current().owners[o]) == output.key
    ensures base.Current().owners[o].version == output.version
  {
    assert Wellformed(c, base, base.revision);
  }

  /** A publication raises the revision by one, selects exactly the given owners for its analyzer
      and repository, and leaves every other row and every earlier revision as it was. */
  lemma PublishedChangesOnlyItsKey(c: Contents, base: Base, output: Output)
    requires Settled(c, base) && Identified(c, output)
    requires Decide(c, base, output) == Published
    ensures var (m, after) := (base.Current(), Enrich(c, base, output));
            && after.revision == base.revision + 1
            && (forall n :: n in base.manifests ==>
                  n in after.manifests && after.manifests[n] == base.manifests[n])
            && after.Current() == m.(owners := after.Current().owners)
            && OwnersOf(after.Current().owners, output.key) == output.owners
            && (forall o :: o in m.owners && KeyOfOwner(m.owners[o]) != output.key ==>
                  o in after.Current().owners && after.Current().owners[o] == m.owners[o])
            && (forall o :: o in after.Current().owners && o !in output.owners ==>
                  o in m.owners && after.Current().owners[o] == m.owners[o])
            && after.shards == base.shards
  {
    var m := base.Current();
    forall o | o in m.owners && o in output.owners
      ensures KeyOfOwner(m.owners[o]) == output.key
    {
      IdentityFixesKey(c, base, output, o);
    }
    OnlyItsKey(m.owners, output);
    assert forall n :: n in base.manifests ==> n <= base.revision;
    assert PublishOutput(c, base, output).Current() == m.(owners := NewOwners(m.owners, output));
  }

  lemma OnlyItsKey(owners: Owners, output: Output)
    requires forall o :: o in owners && o in output.owners ==> KeyOfOwner(owners[o]) == output.key
    ensures var after := NewOwners(owners, output);
            && OwnersOf(after, output.key) == output.owners
            && (forall o :: o in owners && KeyOfOwner(owners[o]) != output.key ==>
                  o in after && after[o] == owners[o])
            && (forall o :: o in after && o !in output.owners ==>
                  o in owners && after[o] == owners[o])
  {
  }

  /** After a publication, or when nothing needed publishing, the outputs match. */
  lemma PublishedMatches(c: Contents, base: Base, output: Output)
    requires Settled(c, base) && Identified(c, output) && output.owners != {}
    requires Decide(c, base, output) == Published || Decide(c, base, output) == Unchanged
    ensures Matches(Enrich(c, base, output), output.key, output.version)
  {
  }

  /** Publishing the same output again changes nothing. */
  lemma PublishingAgainIsUnchanged(c: Contents, base: Base, output: Output)
    requires Settled(c, base) && Identified(c, output)
    requires Decide(c, base, output) == Published || Decide(c, base, output) == Unchanged
    ensures Decide(c, Enrich(c, base, output), output) == Unchanged
    ensures Enrich(c, Enrich(c, base, output), output) == Enrich(c, base, output)
  {
    var m := base.Current();
    assert PublishOutput(c, base, output).Current() == m.(owners := NewOwners(m.owners, output));
    if Decide(c, base, output) == Published {
      NewIsCurrent(m.owners, output);
    }
  }

  lemma NewIsCurrent(owners: Owners, output: Output)
    ensures IsCurrent(NewOwners(owners, output), output)
  {
  }

  lemma NewerInputStoresNothing(c: Contents, base: Base, output: Output)
    requires Settled(c, base) && Identified(c, output)
    requires OwnersOf(base.Current().owners, output.key) == output.owners
    ensures PublishOutput(c, base, output).stored == base.stored
    ensures PublishOutput(c, base, output).outputs == base.outputs
    ensures WinnersOf(NewOwners(base.Current().owners, output), base.stored)
         == WinnersOf(base.Current().owners, base.stored)
  {
    var m := base.Current();
    forall o | o in output.owners
      ensures o in base.outputs
    {
      CurrentWellformed(c, base, o);
    }
    assert output.owners - base.outputs == {};
    assert RowsOfOwners(c, output.owners - base.outputs) == {};
    assert ChangedOwners(m.owners, output) == {};
    ChangedOwnersBid(c, base, output);
    Winners.RefreshIsRebuild(m.owners, NewOwners(m.owners, output), base.stored, {});
    NothingAffected(WinnersOf(m.owners, base.stored), NewOwners(m.owners, output), base.stored);
  }

  /** The same outputs for a newer input: a new revision, but no stored row, no winner and no
      dependency changes. */
  lemma NewerInputOnly(c: Contents, base: Base, output: Output)
    requires Settled(c, base) && Identified(c, output)
    requires Decide(c, base, output) == Published
    requires OwnersOf(base.Current().owners, output.key) == output.owners
    ensures var after := Enrich(c, base, output);
            && after.stored == base.stored && after.outputs == base.outputs
            && WinnersOf(after.Current().owners, after.stored)
               == WinnersOf(base.Current().owners, base.stored)
            && InputsOf(c, after) == InputsOf(c, base)
  {
    var m := base.Current();
    NewerInputStoresNothing(c, base, output);
    assert NewOwners(m.owners, output).Keys == m.owners.Keys;
    SameWins(m.owners, NewOwners(m.owners, output), base.stored);
  }

  lemma SameWins(before: Owners, after: Owners, stored: set<Stored>)
    requires before.Keys == after.Keys && WinnersOf(before, stored) == WinnersOf(after, stored)
    ensures EnrichmentRows(before, stored, WinnersOf(before, stored))
         == EnrichmentRows(after, stored, WinnersOf(after, stored))
    ensures EnrichmentOverrides(before, stored, WinnersOf(before, stored))
         == EnrichmentOverrides(after, stored, WinnersOf(after, stored))
  {
  }

  // ---- runs -------------------------------------------------------------------------------------------

  datatype Event =
    | Revised(content: Content)
    | Reread(inputs: map<InputKey, string>)
    | Enriched(output: Output)
    | OwnerSwept(owner: OwnerId, batch: set<Stored>)
    | OutputRemoved(owner: OwnerId)
    | RevisionsSwept(before: nat, rows: set<(nat, RevisionRow)>)
    | Removed

  ghost predicate Possible(c: Contents, base: Base, event: Event) {
    match event
    case Revised(content) => forall r :: r in content.observations ==> IsDependency(r.relation)
    case Enriched(output) => Identified(c, output)
    case RevisionsSwept(before, _) => before <= base.revision
    case _ => true
  }

  ghost function After(c: Contents, base: Base, event: Event): Base
    requires event.RevisionsSwept? ==> event.before <= base.revision
  {
    match event
    case Revised(content) => Republish(c, base, content)
    case Reread(inputs) => ReplaceInputs(base, inputs)
    case Enriched(output) => Enrich(c, base, output)
    case OwnerSwept(owner, batch) => SweepOwner(base, owner, batch)
    case OutputRemoved(owner) => RemoveOutput(base, owner)
    case RevisionsSwept(before, batch) => SweepRevisions(base, before, batch)
    case Removed => NOTHING
  }

  /** The owners some batch took rows of since their output was last written. */
  ghost function Touched(c: Contents, base: Base, touched: set<OwnerId>, event: Event): set<OwnerId> {
    match event
    case Enriched(output) =>
      if Decide(c, base, output) == Published then touched - (output.owners - base.outputs)
      else touched
    case OwnerSwept(owner, batch) =>
      if owner !in base.Selected() && (exists row :: row in batch && row in base.stored
                                                     && row.owner == owner)
      then touched + {owner} else touched
    case _ => touched
  }

  /** Every fact of the owner is stored. */
  ghost predicate IsWhole(c: Contents, base: Base, owner: OwnerId) {
    forall fact :: fact in c.snapshot(owner).facts ==> Stored(owner, fact) in base.stored
  }

  ghost predicate Tracks(c: Contents, base: Base, touched: set<OwnerId>) {
    && Settled(c, base)
    && forall o {:trigger IsWhole(c, base, o)} :: o in base.outputs ==>
         (IsWhole(c, base, o) <==> o !in touched)
  }

  /** The event leads from one state and record of touched owners to the next. */
  ghost predicate Leads(c: Contents, base: Base, touched: set<OwnerId>, event: Event, next: Base,
                        touched': set<OwnerId>)
  {
    && Possible(c, base, event) && next == After(c, base, event)
    && touched' == Touched(c, base, touched, event)
  }

  ghost predicate IsHistory(c: Contents, trace: seq<Base>, touched: seq<set<OwnerId>>,
                            events: seq<Event>)
  {
    && |trace| == |events| + 1 == |touched| && trace[0] == NOTHING && touched[0] == {}
    && forall i {:trigger events[i]} :: 0 <= i < |events| ==>
         Leads(c, trace[i], touched[i], events[i], trace[i + 1], touched[i + 1])
  }

  lemma HistoryGoesOn(c: Contents, trace: seq<Base>, touched: seq<set<OwnerId>>,
                      events: seq<Event>, event: Event, next: Base, touched': set<OwnerId>)
    requires IsHistory(c, trace, touched, events)
    requires Leads(c, trace[|events|], touched[|events|], event, next, touched')
    ensures IsHistory(c, trace + [next], touched + [touched'], events + [event])
  {
    var (states, record, all) := (trace + [next], touched + [touched'], events + [event]);
    forall i | 0 <= i < |all|
      ensures Leads(c, states[i], record[i], all[i], states[i + 1], record[i + 1])
    {
      if i < |events| {
        assert all[i] == events[i];
      }
    }
  }

  lemma EventTracks(c: Contents, base: Base, touched: set<OwnerId>, event: Event)
    requires Tracks(c, base, touched) && Possible(c, base, event)
    ensures Tracks(c, After(c, base, event), Touched(c, base, touched, event))
  {
    match event
    case Revised(content) =>
      PublishSettled(c, base, content);
      SameRowsTracked(c, base, After(c, base, event), touched);
    case Reread(inputs) =>
      ReplaceSettled(c, base, inputs);
      SameRowsTracked(c, base, After(c, base, event), touched);
    case Enriched(output) => EnrichedTracks(c, base, touched, output);
    case OwnerSwept(owner, batch) => SweptTracks(c, base, touched, owner, batch);
    case OutputRemoved(owner) =>
      SweepSettled(c, base, owner, {});
      SameRowsTracked(c, base, After(c, base, event), touched);
    case RevisionsSwept(before, batch) =>
      SweepRevisionsSettled(c, base, before, batch);
      SameRowsTracked(c, base, After(c, base, event), touched);
    case Removed =>
  }

  lemma SameRowsTracked(c: Contents, base: Base, after: Base, touched: set<OwnerId>)
    requires Tracks(c, base, touched) && Settled(c, after)
    requires after.stored == base.stored && after.outputs <= base.outputs
    ensures Tracks(c, after, touched)
  {
    forall o | o in after.outputs
      ensures IsWhole(c, after, o) <==> o !in touched
    {
      assert IsWhole(c, base, o) <==> IsWhole(c, after, o);
    }
  }

  lemma EnrichedTracks(c: Contents, base: Base, touched: set<OwnerId>, output: Output)
    requires Tracks(c, base, touched) && Identified(c, output)
    ensures Tracks(c, Enrich(c, base, output), Touched(c, base, touched, Enriched(output)))
  {
    EnrichSettled(c, base, output);
    var after := Enrich(c, base, output);
    forall o | o in after.outputs
      ensures IsWhole(c, after, o) <==> o !in Touched(c, base, touched, Enriched(output))
    {
      if o in base.outputs {
        assert IsWhole(c, base, o) <==> IsWhole(c, after, o);
      }
    }
  }

  lemma SweptTracks(c: Contents, base: Base, touched: set<OwnerId>, owner: OwnerId,
                    batch: set<Stored>)
    requires Tracks(c, base, touched)
    ensures Tracks(c, SweepOwner(base, owner, batch),
                   Touched(c, base, touched, OwnerSwept(owner, batch)))
  {
    SweepSettled(c, base, owner, batch);
    var after := SweepOwner(base, owner, batch);
    forall o | o in after.outputs
      ensures IsWhole(c, after, o) <==> o !in Touched(c, base, touched, OwnerSwept(owner, batch))
    {
      if o != owner {
        assert IsWhole(c, base, o) <==> IsWhole(c, after, o);
      } else if row :| row in batch && row in base.stored && row.owner == owner
                       && owner !in base.Selected() {
        assert row == Stored(owner, row.fact) && row !in after.stored;
      } else {
        assert after.stored == base.stored;
        assert IsWhole(c, base, o) <==> IsWhole(c, after, o);
      }
    }
  }

  lemma {:induction false} HistoryTracks(c: Contents, trace: seq<Base>,
                                         touched: seq<set<OwnerId>>, events: seq<Event>, i: nat)
    requires IsHistory(c, trace, touched, events) && i < |trace|
    ensures Tracks(c, trace[i], touched[i])
    decreases i
  {
    if i > 0 {
      HistoryTracks(c, trace, touched, events, i - 1);
      EventTracks(c, trace[i - 1], touched[i - 1], events[i - 1]);
    }
  }

  /** In every run, a selected owner has all its facts exactly when no sweep took any of them
      since its output was last written. */
  lemma SelectedIsWhole(c: Contents, trace: seq<Base>, touched: seq<set<OwnerId>>,
                        events: seq<Event>, i: nat, owner: OwnerId)
    requires IsHistory(c, trace, touched, events) && i < |trace|
    requires owner in trace[i].Current().owners
    ensures IsWhole(c, trace[i], owner) <==> owner !in touched[i]
  {
    HistoryTracks(c, trace, touched, events, i);
    CurrentWellformed(c, trace[i], owner);
  }

  // ---- what a superseded publication leaves -----------------------------------------------------------

  function Skip<T>(xs: seq<T>, i: nat): seq<T>
    requires i < |xs|
  {
    xs[..i] + xs[i + 1..]
  }

  /** A publication computed from an input the revision no longer expects might as well not have
      happened: without it the run goes on through the same states. */
  lemma SupersededIsInvisible(c: Contents, trace: seq<Base>, touched: seq<set<OwnerId>>,
                              events: seq<Event>, i: nat)
    requires IsHistory(c, trace, touched, events) && i < |events| && events[i].Enriched?
    requires events[i].output.key in trace[i].Current().inputs
    requires trace[i].Current().inputs[events[i].output.key] != events[i].output.input
    ensures IsHistory(c, Skip(trace, i), Skip(touched, i), Skip(events, i))
    ensures forall j :: i < j < |trace| ==>
              Skip(trace, i)[j - 1] == trace[j] && Skip(touched, i)[j - 1] == touched[j]
  {
    SupersededChangesNothing(c, trace[i], touched[i], events[i], trace[i + 1], touched[i + 1]);
    forall k | 0 <= k < |events| - 1
      ensures Leads(c, Skip(trace, i)[k], Skip(touched, i)[k], Skip(events, i)[k],
                    Skip(trace, i)[k + 1], Skip(touched, i)[k + 1])
    {
      var j := if k < i then k else k + 1;
      SkipAt(events, i, k);
      SkipAt(trace, i, k);
      SkipAt(touched, i, k);
      SkipAt(trace, i, k + 1);
      SkipAt(touched, i, k + 1);
      assert Leads(c, trace[j], touched[j], events[j], trace[j + 1], touched[j + 1]);
    }
  }

  lemma SkipAt<T>(xs: seq<T>, i: nat, k: nat)
    requires i < |xs| && k < |xs| - 1
    ensures Skip(xs, i)[k] == if k < i then xs[k] else xs[k + 1]
  {
  }

  lemma SupersededChangesNothing(c: Contents, base: Base, touched: set<OwnerId>, event: Event,
                                 next: Base, touched': set<OwnerId>)
    requires Leads(c, base, touched, event, next, touched') && event.Enriched?
    requires event.output.key in base.Current().inputs
    requires base.Current().inputs[event.output.key] != event.output.input
    ensures next == base && touched' == touched
  {
  }

  // ---- when a selected owner is whole ---------------------------------------------------------------------

  /** A new output is stored in full; an existing one is not stored again. */
  lemma PublishedIsWhole(c: Contents, base: Base, output: Output, owner: OwnerId)
    requires Decide(c, base, output) == Published && owner in output.owners
    ensures IsWhole(c, Enrich(c, base, output), owner)
       <==> (owner in base.outputs ==> IsWhole(c, base, owner))
  {
    var after := Enrich(c, base, output);
    if owner in base.outputs {
      forall fact
        ensures Stored(owner, fact) in after.stored <==> Stored(owner, fact) in base.stored
      {
      }
    } else {
      forall fact | fact in c.snapshot(owner).facts
        ensures Stored(owner, fact) in after.stored
      {
        assert owner in output.owners - base.outputs;
      }
    }
  }

  /** An existing output survives every batch of its sweep if and only if a revision selects it or
      there is nothing to sweep. */
  lemma SweepSpares(c: Contents, base: Base, owner: OwnerId)
    requires IsWhole(c, base, owner)
    ensures (forall batch :: IsWhole(c, SweepOwner(base, owner, batch), owner))
       <==> owner in base.Selected() || c.snapshot(owner).facts == {}
  {
    if fact :| fact in c.snapshot(owner).facts && owner !in base.Selected() {
      assert !IsWhole(c, SweepOwner(base, owner, {Stored(owner, fact)}), owner);
    }
  }

  /** Every output a publication selects is new or selected by some revision already. */
  ghost predicate SelectsSafely(c: Contents, base: Base, event: Event) {
    event.Enriched? && Decide(c, base, event.output) == Published ==>
      forall o :: o in event.output.owners && o in base.outputs ==> o in base.Selected()
  }

  /** On a run whose publications all do, every owner some revision selects has all its facts. */
  lemma {:induction false} SafelySelectedIsWhole(c: Contents, trace: seq<Base>,
                                                 touched: seq<set<OwnerId>>, events: seq<Event>,
                                                 i: nat, owner: OwnerId)
    requires IsHistory(c, trace, touched, events) && i < |trace|
    requires forall k | 0 <= k < i :: SelectsSafely(c, trace[k], events[k])
    requires owner in trace[i].Selected()
    ensures owner !in touched[i] && IsWhole(c, trace[i], owner)
    decreases i
  {
    HistoryTracks(c, trace, touched, events, i);
    var n :| n in trace[i].manifests && owner in trace[i].manifests[n].owners;
    assert Wellformed(c, trace[i], n);
    if i > 0 {
      var base, event := trace[i - 1], events[i - 1];
      HistoryTracks(c, trace, touched, events, i - 1);
      StillSelected(c, base, event, owner);
      if owner in base.Selected() {
        SafelySelectedIsWhole(c, trace, touched, events, i - 1, owner);
      }
      assert SelectsSafely(c, base, event);
    }
  }

  /** Only a publication selects an owner that no revision selected. */
  lemma StillSelected(c: Contents, base: Base, event: Event, owner: OwnerId)
    requires Settled(c, base) && Possible(c, base, event)
    requires owner in After(c, base, event).Selected()
    ensures owner in base.Selected() ||
            (event.Enriched? && Decide(c, base, event.output) == Published
             && owner in event.output.owners)
  {
    if event.RevisionsSwept? {
      SweepRevisionsSettled(c, base, event.before, event.rows);
    } else {
      CurrentWellformed(c, base, owner);
    }
  }

  // ---- an owner selected again half way through its sweep ------------------------------------------------

  const EXAMPLE_KEY := InputKey("r", "a")

  function FactOf(e: EntityFact): Contribution {
    EntityOf(e.id, e.kind, e.metadata)
  }

  /** A store in which one output describes one entity and another output says nothing. */
  function Example(e: EntityFact): Contents {
    Contents(o => Snapshot("r", "a", "v", if o == "first" then {FactOf(e)} else {}),
             shard => {}, shard => {})
  }

  function ExampleOutput(owner: OwnerId): Output {
    Output(EXAMPLE_KEY, "v", "i", {owner}, [])
  }

  /** The manifest of the example view that selects the given owners. */
  function ExampleManifest(owners: set<OwnerId>): Manifest {
    Manifest(map[], map[EXAMPLE_KEY := "i"],
             map o | o in owners :: Enrichment("r", "a", "v", "i"), {}, {}, {})
  }

  const REVISED := Base(1, map[1 := ExampleManifest({})], map[], {}, {})

  function First(e: EntityFact): Base {
    Base(2, map[1 := ExampleManifest({}), 2 := ExampleManifest({"first"})], map[], {"first"},
         {Stored("first", FactOf(e))})
  }

  function Second(e: EntityFact): Base {
    Base(3, map[1 := ExampleManifest({}), 2 := ExampleManifest({"first"}),
                3 := ExampleManifest({"second"})], map[], {"first", "second"},
         {Stored("first", FactOf(e))})
  }

  function Swept(e: EntityFact): Base {
    Base(3, map[1 := ExampleManifest({}), 2 := ExampleManifest({}),
                3 := ExampleManifest({"second"})], map[], {"first", "second"},
         {Stored("first", FactOf(e))})
  }

  function Halved(e: EntityFact): Base {
    Swept(e).(stored := {})
  }

  function Again(e: EntityFact): Base {
    Base(4, map[1 := ExampleManifest({}), 2 := ExampleManifest({}),
                3 := ExampleManifest({"second"}), 4 := ExampleManifest({"first"})], map[],
         {"first", "second"}, {})
  }

  lemma NothingInForce()
    ensures EffectiveRows(NO_INPUTS) == {} && Effective(NO_INPUTS) == {}
  {
  }

  lemma ExampleInputs(e: EntityFact, base: Base, owners: set<OwnerId>)
    requires base.shards == map[] && base.stored <= {Stored("first", FactOf(e))}
    requires base.Current() == ExampleManifest(owners)
    ensures InputsOf(Example(e), base) == NO_INPUTS
    ensures SelectedEntities(Example(e), base) <= {e}
  {
  }

  /** What describes one entity at most and relates nothing is sound. */
  lemma ExampleIsSound(e: EntityFact, base: Base, owners: set<OwnerId>)
    requires base.shards == map[] && base.stored <= {Stored("first", FactOf(e))}
    requires base.Current() == ExampleManifest(owners)
    ensures Accepts(Example(e), base)
  {
    ExampleInputs(e, base, owners);
    NothingInForce();
    AcceptsIsSound(Example(e), base);
  }

  /** An output of the example published over a manifest that selects others. */
  lemma ExamplePublishes(e: EntityFact, owner: OwnerId, base: Base, others: set<OwnerId>,
                         next: Base)
    requires base.Current() == ExampleManifest(others) && owner !in others
    requires base.shards == map[] && next.stored <= {Stored("first", FactOf(e))}
    requires next == base.(revision := base.revision + 1,
                           manifests := base.manifests[base.revision + 1 := ExampleManifest({owner})],
                           outputs := base.outputs + {owner},
                           stored := base.stored + RowsOfOwners(Example(e), {owner} - base.outputs))
    ensures Decide(Example(e), base, ExampleOutput(owner)) == Published
    ensures Enrich(Example(e), base, ExampleOutput(owner)) == next
  {
    var c, output, m := Example(e), ExampleOutput(owner), base.Current();
    assert owner in output.owners && owner !in OwnersOf(m.owners, output.key);
    assert OwnersOf(m.owners, output.key) == others;
    assert NewOwners(m.owners, output) == ExampleManifest({owner}).owners;
    assert PublishOutput(c, base, output) == next;
    ExampleIsSound(e, next, {owner});
  }

  lemma ExampleRows(e: EntityFact)
    ensures RowsOfOwners(Example(e), {"first"}) == {Stored("first", FactOf(e))}
    ensures RowsOfOwners(Example(e), {"second"}) == {} == RowsOfOwners(Example(e), {})
  {
  }

  const EXAMPLE_CONTENT := Content(map[], map[], {}, {}, {}, map[EXAMPLE_KEY := "i"])

  lemma ExampleBegins(e: EntityFact)
    ensures Leads(Example(e), NOTHING, {}, Revised(EXAMPLE_CONTENT), REVISED, {})
  {
    assert Publish(NOTHING, EXAMPLE_CONTENT) == REVISED;
    ExampleIsSound(e, REVISED, {});
  }

  lemma ExampleEnriched(e: EntityFact, owner: OwnerId, base: Base, others: set<OwnerId>,
                        next: Base, touched: set<OwnerId>)
    requires base.Current() == ExampleManifest(others) && owner !in others
    requires base.shards == map[] && next.stored <= {Stored("first", FactOf(e))}
    requires next == base.(revision := base.revision + 1,
                           manifests := base.manifests[base.revision + 1 := ExampleManifest({owner})],
                           outputs := base.outputs + {owner},
                           stored := base.stored + RowsOfOwners(Example(e), {owner} - base.outputs))
    requires touched !! {owner} - base.outputs
    ensures Leads(Example(e), base, touched, Enriched(ExampleOutput(owner)), next, touched)
  {
    ExamplePublishes(e, owner, base, others, next);
    assert Touched(Example(e), base, touched, Enriched(ExampleOutput(owner))) == touched;
  }

  const EXAMPLE_ROWS: set<(nat, RevisionRow)> := {(2, Owning("first"))}

  lemma ExampleSweepsRevision(e: EntityFact)
    ensures Leads(Example(e), Second(e), {}, RevisionsSwept(3, EXAMPLE_ROWS), Swept(e), {})
  {
    ExampleRemains(e);
    assert SweepRevisions(Second(e), 3, EXAMPLE_ROWS) == Swept(e);
  }

  lemma ExampleRemains(e: EntityFact)
    ensures SweepRevisions(Second(e), 3, EXAMPLE_ROWS).manifests == Swept(e).manifests
  {
    ExampleRowsAt();
    ExampleWithout();
    var after := SweepRevisions(Second(e), 3, EXAMPLE_ROWS).manifests;
    assert after.Keys == {1, 2, 3} == Swept(e).manifests.Keys;
    assert after[1] == ExampleManifest({}) && after[2] == ExampleManifest({});
  }

  lemma ExampleRowsAt()
    ensures RowsAt(EXAMPLE_ROWS, 2) == {Owning("first")} && RowsAt(EXAMPLE_ROWS, 1) == {}
  {
  }

  lemma ExampleWithout()
    ensures Without(ExampleManifest({"first"}), {Owning("first")}) == ExampleManifest({})
    ensures Without(ExampleManifest({}), {}) == ExampleManifest({})
  {
    assert ExampleManifest({"first"}).owners.Keys == {"first"};
  }

  lemma ExampleSweepsOwner(e: EntityFact)
    ensures Leads(Example(e), Swept(e), {}, OwnerSwept("first", {Stored("first", FactOf(e))}),
                  Halved(e), {"first"})
  {
    var row := Stored("first", FactOf(e));
    assert row in Swept(e).stored && "first" !in Swept(e).Selected();
    assert SweepOwner(Swept(e), "first", {row}) == Halved(e);
  }

  /** Both outputs are published, one after the other. */
  lemma BothPublished(e: EntityFact)
    returns (trace: seq<Base>, touched: seq<set<OwnerId>>, events: seq<Event>)
    ensures GotTo(e, trace, touched, events, Second(e), {})
  {
    trace, touched, events := [NOTHING], [{}], [];
    GotToIs(e, trace, touched, events, NOTHING, {});
    ExampleBegins(e);
    trace, touched, events :=
      ExampleStep(e, trace, touched, events, NOTHING, {}, Revised(EXAMPLE_CONTENT), REVISED, {});
    ExampleRows(e);
    ExampleEnriched(e, "first", REVISED, {}, First(e), {});
    trace, touched, events :=
      ExampleStep(e, trace, touched, events, REVISED, {}, Enriched(ExampleOutput("first")),
                  First(e), {});
    ExampleEnriched(e, "second", First(e), {"first"}, Second(e), {});
    trace, touched, events :=
      ExampleStep(e, trace, touched, events, First(e), {}, Enriched(ExampleOutput("second")),
                  Second(e), {});
  }

  /** Then the superseded revision and a batch of the first owner's rows are swept. */
  lemma FirstIsSwept(e: EntityFact)
    returns (trace: seq<Base>, touched: seq<set<OwnerId>>, events: seq<Event>)
    ensures GotTo(e, trace, touched, events, Halved(e), {"first"})
  {
    var fact := FactOf(e);
    trace, touched, events := BothPublished(e);
    ExampleSweepsRevision(e);
    trace, touched, events :=
      ExampleStep(e, trace, touched, events, Second(e), {}, RevisionsSwept(3, EXAMPLE_ROWS),
                  Swept(e), {});
    ExampleSweepsOwner(e);
    trace, touched, events :=
      ExampleStep(e, trace, touched, events, Swept(e), {},
                  OwnerSwept("first", {Stored("first", fact)}), Halved(e), {"first"});
  }

  /** From an empty view: an owner is published and replaced, the revision that selected it is
      swept, then a first batch of its rows, and it is published again. It is selected and lacks
      its fact. */
  lemma ReselectedLacksFact(e: EntityFact)
    returns (trace: seq<Base>, touched: seq<set<OwnerId>>, events: seq<Event>)
    ensures IsHistory(Example(e), trace, touched, events)
    ensures var last := trace[|trace| - 1];
            "first" in last.Current().owners && !IsWhole(Example(e), last, "first")
  {
    trace, touched, events := FirstIsSwept(e);
    ExampleEnriched(e, "first", Halved(e), {"second"}, Again(e), {"first"});
    trace, touched, events :=
      ExampleStep(e, trace, touched, events, Halved(e), {"first"},
                  Enriched(ExampleOutput("first")), Again(e), {"first"});
    GotToIs(e, trace, touched, events, Again(e), {"first"});
    assert FactOf(e) in Example(e).snapshot("first").facts;
    assert Stored("first", FactOf(e)) !in Again(e).stored;
  }

  ghost predicate IsRun(e: EntityFact, trace: seq<Base>, touched: seq<set<OwnerId>>,
                        events: seq<Event>, last: Base, record: set<OwnerId>, run: bool)
  {
    run == (IsHistory(Example(e), trace, touched, events)
            && trace[|events|] == last && touched[|events|] == record)
  }

  /** A history of the example that has got to `last`; said so that it unfolds only on demand. */
  ghost predicate GotTo(e: EntityFact, trace: seq<Base>, touched: seq<set<OwnerId>>,
                        events: seq<Event>, last: Base, record: set<OwnerId>)
  {
    forall run {:trigger IsRun(e, trace, touched, events, last, record, run)} ::
      IsRun(e, trace, touched, events, last, record, run) ==> run
  }

  lemma GotToIs(e: EntityFact, trace: seq<Base>, touched: seq<set<OwnerId>>, events: seq<Event>,
                last: Base, record: set<OwnerId>)
    ensures GotTo(e, trace, touched, events, last, record)
       <==> IsHistory(Example(e), trace, touched, events)
            && trace[|events|] == last && touched[|events|] == record
  {
    assert IsRun(e, trace, touched, events, last, record,
                 IsHistory(Example(e), trace, touched, events)
                 && trace[|events|] == last && touched[|events|] == record);
  }

  lemma ExampleStep(e: EntityFact, trace: seq<Base>, touched: seq<set<OwnerId>>,
                    events: seq<Event>, last: Base, record: set<OwnerId>, event: Event, next: Base,
                    record': set<OwnerId>)
    returns (states: seq<Base>, records: seq<set<OwnerId>>, all: seq<Event>)
    requires GotTo(e, trace, touched, events, last, record)
    requires Leads(Example(e), last, record, event, next, record')
    ensures GotTo(e, states, records, all, next, record')
  {
    GotToIs(e, trace, touched, events, last, record);
    states, records, all := trace + [next], touched + [record'], events + [event];
    HistoryGoesOn(Example(e), trace, touched, events, event, next, record');
    GotToIs(e, states, records, all, next, record');
  }
}
