/** The entity search of a view. Validation keeps one description for each entity, so the layers
    together hold everything the revision selects, and each result is the entity's description. */
module ViewSearch {
  import opened Graph
  import opened Facts
  import opened Winners
  import opened EntityContract
  import opened Publication
  import ViewStore
  import opened EntitySearch

  /** The entities the selected owners contribute, as far as their owner wins them. */
  function WinningEntities(owners: Owners, stored: set<Stored>, winners: map<FactKey, OwnerId>)
    : set<EntityFact>
  {
    set s | s in stored && s.fact.EntityOf? && Wins(winners, owners, s)
      :: EntityFact(s.fact.id, s.fact.kind, s.fact.metadata)
  }

  function LayersOf(c: Contents, base: Base, winners: map<FactKey, OwnerId>): Layers {
    var m := base.Current();
    Layers(StateEntities(m.states), m.entities, ShardEntities(c, base.shards),
           WinningEntities(m.owners, base.stored, winners))
  }

  lemma WonById(owners: Owners, stored: set<Stored>, s: Stored) returns (best: EntityFact)
    requires s in stored && s.owner in owners && s.fact.EntityOf?
    ensures best.id == s.fact.id && best in WinningEntities(owners, stored, WinnersOf(owners, stored))
    ensures best in OwnerEntities(owners, stored)
  {
    var key := EntityKey(s.fact.id);
    assert Contributes(owners, s, key) && key in BidKeys(owners, stored);
    var row := WinnerOutbidsAll(owners, stored, key);
    best := EntityFact(row.fact.id, row.fact.kind, row.fact.metadata);
  }

  /** Where the descriptions agree, nothing is lost with the contributions that did not win. */
  lemma LosersAgree(owners: Owners, stored: set<Stored>)
    requires Agreeing(OwnerEntities(owners, stored))
    ensures WinningEntities(owners, stored, WinnersOf(owners, stored)) == OwnerEntities(owners, stored)
  {
    forall e | e in OwnerEntities(owners, stored)
      ensures e in WinningEntities(owners, stored, WinnersOf(owners, stored))
    {
      var s :| s in stored && s.owner in owners && s.fact.EntityOf?
        && e == EntityFact(s.fact.id, s.fact.kind, s.fact.metadata);
      var best := WonById(owners, stored, s);
      assert best == e;
    }
  }

  /** The four layers hold what validation saw, and an entity has one description in and across
      all of them. */
  lemma LayersAreSelected(c: Contents, base: Base)
    requires Consistent(c, base)
    ensures var winners := WinnersOf(base.Current().owners, base.stored);
            && LayersOf(c, base, winners).All() == SelectedEntities(c, base)
            && Agreeing(LayersOf(c, base, winners).All())
  {
    ConsistentIsAgreeing(c, base);
    var m := base.Current();
    assert OwnerEntities(m.owners, base.stored) <= SelectedEntities(c, base);
    LosersAgree(m.owners, base.stored);
  }

  /** Every result is the one description of a selected entity that matches. The results are the
      first matches of everything the revision selects if and only if a layer shows each of them,
      and they are wherever the scripts derive the service's names. */
  method SearchView(view: ViewStore.View, query: string, limit: nat) returns (matches: seq<EntityFact>)
    requires view.Valid()
    ensures forall m :: m in matches ==>
              m in SelectedEntities(view.c, view.Contents()) && MatchesId(SERVICE, m.id, query)
    ensures forall m, f | m in matches && f in SelectedEntities(view.c, view.Contents()) ::
              f.id == m.id ==> f == m
    ensures var layers := LayersOf(view.c, view.Contents(), view.winners);
            && layers.All() == SelectedEntities(view.c, view.Contents())
            && (IsGlobal(layers, query, limit, matches) <==> BestAreShown(SERVICE, layers, query, limit))
            && (NamedAlike(SERVICE, layers.states + layers.revision + layers.enrichment) ==>
                IsGlobal(layers, query, limit, matches))
  {
    WonIsWinners(view.Contents().Current().owners, view.stored, view.winners);
    LayersAreSelected(view.c, view.Contents());
    var layers := LayersOf(view.c, view.Contents(), view.winners);
    matches := Search(layers, query, limit);
  }
}
