/** The entity search: every layer of the store returns its best rows up to the limit, rows of
    later layers give way to ids already returned, and the service ranks what is left again. */
module EntitySearch {
  import opened Order
  import opened Ranking
  import opened Facts
  import opened EntityContract
  import opened EntityNames

  /** The rows of the selected states, of the revision itself, of the selected fact shards and
      of the winning enrichment contributions. */
  datatype Layers = Layers(
    states: set<EntityFact>,
    revision: set<EntityFact>,
    shards: set<EntityFact>,
    enrichment: set<EntityFact>)
  {
    function All(): set<EntityFact> {
      states + revision + shards + enrichment
    }
  }

  /** The display name the service gives an id, and the names the search scripts derive. */
  datatype Naming = Naming(service: string -> string, script: string -> set<string>)

  /** A ranked row; the rank is 0 for the id itself, 1 for its name and 2 for a prefix. */
  datatype Hit = Hit(fact: EntityFact, rank: nat)

  // ---- the order of the results -------------------------------------------------------------------------

  function RankOf(id: string, names: set<string>, query: string): nat {
    if id == query then 0 else if query in names then 1 else 2
  }

  function SearchRank(names: Naming, id: string, query: string): nat {
    RankOf(id, {names.service(id)}, query)
  }

  predicate FactLess(a: EntityFact, b: EntityFact) {
    StringLess(a.id, b.id) || (a.id == b.id &&
    (StringLess(a.kind, b.kind) || (a.kind == b.kind && StringLess(a.metadata, b.metadata))))
  }

  predicate HitLess(a: Hit, b: Hit) {
    a.rank < b.rank || (a.rank == b.rank && FactLess(a.fact, b.fact))
  }

  predicate IdLess(names: Naming, query: string, a: string, b: string) {
    SearchRank(names, a, query) < SearchRank(names, b, query) ||
    (SearchRank(names, a, query) == SearchRank(names, b, query) && StringLess(a, b))
  }

  function By(names: Naming, query: string): (string, string) -> bool {
    (a, b) => IdLess(names, query, a, b)
  }

  lemma FactLessStrictTotal()
    ensures StrictTotal(FactLess)
  {
    StringLessStrictTotal();
    forall a, b
      ensures a == b || FactLess(a, b) || FactLess(b, a)
    {
    }
  }

  lemma HitLessStrictTotal()
    ensures StrictTotal(HitLess)
  {
    FactLessStrictTotal();
    forall a, b
      ensures a == b || HitLess(a, b) || HitLess(b, a)
    {
    }
  }

  lemma ByStrictTotal(names: Naming, query: string)
    ensures StrictTotal(By(names, query))
  {
    StringLessStrictTotal();
  }

  // ---- one layer ----------------------------------------------------------------------------------------

  /** The names a layer matches: the fact shards store the service's name, the other layers
      derive names in the script. */
  function Names(names: Naming, id: string, stored: bool): set<string> {
    if stored then {names.service(id)} else names.script(id)
  }

  /** Whether the script of a layer finds an id. Only the scripts that derive names look for the
      longest piece of the query first. */
  predicate Finds(names: Naming, stored: bool, query: string, id: string) {
    (stored || Includes(id, Candidate(query))) && Matches(id, Names(names, id, stored), query)
  }

  function HitOf(names: Naming, stored: bool, query: string, fact: EntityFact): Hit {
    Hit(fact, RankOf(fact.id, Names(names, fact.id, stored), query))
  }

  function Matched(names: Naming, facts: set<EntityFact>, stored: bool, query: string): set<Hit> {
    set f | f in facts && Finds(names, stored, query, f.id) :: HitOf(names, stored, query, f)
  }

  function Ordered(hits: set<Hit>): (xs: seq<Hit>)
    ensures forall h :: h in xs <==> h in hits
  {
    HitLessStrictTotal();
    Listing(hits, HitLess)
  }

  function Returned(names: Naming, facts: set<EntityFact>, stored: bool, query: string, limit: nat)
    : (hits: seq<Hit>)
    ensures forall h :: h in hits ==> h in Matched(names, facts, stored, query)
  {
    Take(Ordered(Matched(names, facts, stored, query)), limit)
  }

  function Ids(hits: seq<Hit>): set<string> {
    set h | h in hits :: h.fact.id
  }

  function Without(hits: seq<Hit>, ids: set<string>): (rest: seq<Hit>)
    ensures forall h :: h in rest <==> h in hits && h.fact.id !in ids
  {
    if hits == [] then [] else
      (if hits[0].fact.id in ids then [] else [hits[0]]) + Without(hits[1..], ids)
  }

  // ---- the search over all layers -------------------------------------------------------------------------

  function Baseline(names: Naming, layers: Layers, query: string, limit: nat): seq<Hit> {
    Returned(names, layers.states, false, query, limit)
    + Returned(names, layers.revision, false, query, limit)
  }

  function NewShards(names: Naming, layers: Layers, query: string, limit: nat): seq<Hit> {
    Without(Returned(names, layers.shards, true, query, limit),
            Ids(Baseline(names, layers, query, limit)))
  }

  function NewEnrichment(names: Naming, layers: Layers, query: string, limit: nat): seq<Hit> {
    Without(Returned(names, layers.enrichment, false, query, limit),
            Ids(Baseline(names, layers, query, limit)) + Ids(NewShards(names, layers, query, limit)))
  }

  function Collected(names: Naming, layers: Layers, query: string, limit: nat): seq<Hit> {
    Baseline(names, layers, query, limit) + NewShards(names, layers, query, limit)
    + NewEnrichment(names, layers, query, limit)
  }

  /** What the store returns for the service to rank. */
  method SearchEntityFacts(names: Naming, layers: Layers, query: string, limit: nat)
    returns (rows: seq<Hit>)
    ensures rows == Collected(names, layers, query, limit)
  {
    rows := Returned(names, layers.states, false, query, limit);
    rows := rows + Returned(names, layers.revision, false, query, limit);
    var baseline := Ids(rows);
    var shards := Without(Returned(names, layers.shards, true, query, limit), baseline);
    baseline := baseline + Ids(shards);
    rows := rows + shards;
    rows := rows + Without(Returned(names, layers.enrichment, false, query, limit), baseline);
  }

  /** The entities of the rows; the last row of an id decides. */
  function Entities(rows: seq<Hit>): (entities: map<string, EntityFact>)
    ensures entities.Keys == Ids(rows)
    ensures forall id :: id in entities ==>
              entities[id].id == id && exists h :: h in rows && h.fact == entities[id]
  {
    if rows == [] then map[] else
      var last := rows[|rows| - 1];
      assert rows == rows[..|rows| - 1] + [last];
      Entities(rows[..|rows| - 1])[last.fact.id := last.fact]
  }

  predicate MatchesId(names: Naming, id: string, query: string) {
    query <= id || query <= names.service(id)
  }

  function MatchingIn(names: Naming, ids: set<string>, query: string): set<string> {
    set id | id in ids && MatchesId(names, id, query)
  }

  /** Every stored entity the query matches by id or name. */
  function Matching(names: Naming, layers: Layers, query: string): set<string> {
    MatchingIn(names, Described(layers.All()), query)
  }

  /** The best ids of a set. */
  function Best(names: Naming, ids: set<string>, query: string, limit: nat): (best: seq<string>)
    ensures forall id :: id in best ==> id in ids
  {
    ByStrictTotal(names, query);
    Top(ids, By(names, query), limit)
  }

  function Picked(ids: seq<string>, entities: map<string, EntityFact>): (matches: seq<EntityFact>)
    requires forall id :: id in ids ==> id in entities && entities[id].id == id
    ensures |matches| == |ids|
    ensures forall k :: 0 <= k < |ids| ==> matches[k] == entities[ids[k]]
  {
    seq(|ids|, k requires 0 <= k < |ids| => entities[ids[k]])
  }

  function Ranked(names: Naming, rows: seq<Hit>, query: string, limit: nat): seq<EntityFact> {
    var entities := Entities(rows);
    Picked(Best(names, MatchingIn(names, entities.Keys, query), query, limit), entities)
  }

  /** How the service ranks the rows. */
  method SearchEntities(names: Naming, rows: seq<Hit>, query: string, limit: nat)
    returns (matches: seq<EntityFact>)
    ensures matches == Ranked(names, rows, query, limit)
  {
    var entities: map<string, EntityFact> := map[];
    for k := 0 to |rows|
      invariant entities == Entities(rows[..k])
    {
      assert rows[..k + 1][..k] == rows[..k];
      entities := entities[rows[k].fact.id := rows[k].fact];
    }
    assert rows[..|rows|] == rows;
    matches := Picked(Best(names, MatchingIn(names, entities.Keys, query), query, limit), entities);
  }

  // ---- which ids a layer shows -----------------------------------------------------------------------------

  /** The rows of a layer that sort before one of its facts. */
  function RowsAhead(names: Naming, facts: set<EntityFact>, stored: bool, query: string,
                     fact: EntityFact): set<Hit>
  {
    Ahead(Matched(names, facts, stored, query), HitLess, HitOf(names, stored, query, fact))
  }

  /** The layer's script finds the id, and fewer than `limit` of its rows sort before it. */
  predicate Shows(names: Naming, facts: set<EntityFact>, stored: bool, query: string, limit: nat,
                  id: string)
  {
    Finds(names, stored, query, id) &&
    exists f :: f in facts && f.id == id && |RowsAhead(names, facts, stored, query, f)| < limit
  }

  predicate Shown(names: Naming, layers: Layers, query: string, limit: nat, id: string) {
    Shows(names, layers.states, false, query, limit, id)
    || Shows(names, layers.revision, false, query, limit, id)
    || Shows(names, layers.shards, true, query, limit, id)
    || Shows(names, layers.enrichment, false, query, limit, id)
  }

  lemma IsReturned(names: Naming, facts: set<EntityFact>, stored: bool, query: string, limit: nat,
                   fact: EntityFact)
    requires fact in facts && Finds(names, stored, query, fact.id)
    ensures HitOf(names, stored, query, fact) in Returned(names, facts, stored, query, limit)
       <==> |RowsAhead(names, facts, stored, query, fact)| < limit
  {
    HitLessStrictTotal();
    InTop(Matched(names, facts, stored, query), HitLess, limit, HitOf(names, stored, query, fact));
  }

  lemma ShowsIsReturned(names: Naming, facts: set<EntityFact>, stored: bool, query: string,
                        limit: nat, id: string)
    ensures Shows(names, facts, stored, query, limit, id)
       <==> id in Ids(Returned(names, facts, stored, query, limit))
  {
    var rows := Returned(names, facts, stored, query, limit);
    if Shows(names, facts, stored, query, limit, id) {
      var f :| f in facts && f.id == id && |RowsAhead(names, facts, stored, query, f)| < limit;
      IsReturned(names, facts, stored, query, limit, f);
      assert HitOf(names, stored, query, f) in rows;
    }
    if id in Ids(rows) {
      var h :| h in rows && h.fact.id == id;
      assert h in Matched(names, facts, stored, query);
      IsReturned(names, facts, stored, query, limit, h.fact);
    }
  }

  // ---- the layered search and the global one ----------------------------------------------------------------

  lemma CollectedIds(names: Naming, layers: Layers, query: string, limit: nat, id: string)
    ensures id in Ids(Collected(names, layers, query, limit))
       <==> Shown(names, layers, query, limit, id)
  {
    ShowsIsReturned(names, layers.states, false, query, limit, id);
    ShowsIsReturned(names, layers.revision, false, query, limit, id);
    ShowsIsReturned(names, layers.shards, true, query, limit, id);
    ShowsIsReturned(names, layers.enrichment, false, query, limit, id);
    JoinedIds(Returned(names, layers.states, false, query, limit),
              Returned(names, layers.revision, false, query, limit));
    var baseline, shards := Baseline(names, layers, query, limit), NewShards(names, layers, query, limit);
    JoinedIds(baseline, shards);
    JoinedIds(baseline + shards, NewEnrichment(names, layers, query, limit));
    WithoutIds(Returned(names, layers.shards, true, query, limit), Ids(baseline));
    WithoutIds(Returned(names, layers.enrichment, false, query, limit), Ids(baseline) + Ids(shards));
  }

  lemma JoinedIds(a: seq<Hit>, b: seq<Hit>)
    ensures Ids(a + b) == Ids(a) + Ids(b)
  {
  }

  lemma WithoutIds(hits: seq<Hit>, ids: set<string>)
    ensures Ids(Without(hits, ids)) == Ids(hits) - ids
  {
  }

  lemma ReturnedIsStored(names: Naming, layers: Layers, query: string, limit: nat, h: Hit)
    requires h in Collected(names, layers, query, limit)
    ensures h.fact in layers.All()
  {
    if h in Returned(names, layers.states, false, query, limit) {
      assert h in Matched(names, layers.states, false, query);
    } else if h in Returned(names, layers.revision, false, query, limit) {
      assert h in Matched(names, layers.revision, false, query);
    } else if h in NewShards(names, layers, query, limit) {
      assert h in Matched(names, layers.shards, true, query);
    } else {
      assert h in Matched(names, layers.enrichment, false, query);
    }
  }

  lemma CollectedIsStored(names: Naming, layers: Layers, query: string, limit: nat)
    ensures forall h :: h in Collected(names, layers, query, limit) ==> h.fact in layers.All()
  {
    forall h | h in Collected(names, layers, query, limit)
      ensures h.fact in layers.All()
    {
      ReturnedIsStored(names, layers, query, limit, h);
    }
  }

  lemma PickedIsMatching(names: Naming, rows: seq<Hit>, query: string, limit: nat, m: EntityFact)
    requires m in Ranked(names, rows, query, limit)
    ensures MatchesId(names, m.id, query) && exists h :: h in rows && h.fact == m
  {
    var entities := Entities(rows);
    var best := Best(names, MatchingIn(names, entities.Keys, query), query, limit);
    var k :| 0 <= k < |best| && Picked(best, entities)[k] == m;
    assert best[k] in best;
  }

  /** Nothing is invented: whatever the naming, every result is a stored entity that matches. */
  lemma RankedIsStored(names: Naming, layers: Layers, query: string, limit: nat)
    ensures forall m :: m in Ranked(names, Collected(names, layers, query, limit), query, limit) ==>
              m in layers.All() && MatchesId(names, m.id, query)
  {
    var rows := Collected(names, layers, query, limit);
    CollectedIsStored(names, layers, query, limit);
    forall m | m in Ranked(names, rows, query, limit)
      ensures m in layers.All() && MatchesId(names, m.id, query)
    {
      PickedIsMatching(names, rows, query, limit, m);
    }
  }

  lemma MatchingIsStored(names: Naming, rows: seq<Hit>, facts: set<EntityFact>, query: string)
    requires forall h :: h in rows ==> h.fact in facts
    ensures MatchingIn(names, Ids(rows), query) <= MatchingIn(names, Described(facts), query)
  {
  }

  function IdsOf(matches: seq<EntityFact>): (ids: seq<string>)
    ensures |ids| == |matches| && forall k :: 0 <= k < |ids| ==> ids[k] == matches[k].id
  {
    if matches == [] then [] else [matches[0].id] + IdsOf(matches[1..])
  }

  lemma PickedIds(ids: seq<string>, entities: map<string, EntityFact>)
    requires forall id :: id in ids ==> id in entities && entities[id].id == id
    ensures IdsOf(Picked(ids, entities)) == ids
  {
  }

  lemma RankedIds(names: Naming, rows: seq<Hit>, query: string, limit: nat)
    ensures IdsOf(Ranked(names, rows, query, limit))
         == Best(names, MatchingIn(names, Ids(rows), query), query, limit)
  {
    var entities := Entities(rows);
    PickedIds(Best(names, MatchingIn(names, entities.Keys, query), query, limit), entities);
  }

  lemma BestIsKept(names: Naming, some: set<string>, ids: set<string>, query: string, limit: nat)
    requires some <= ids && forall id :: id in Best(names, ids, query, limit) ==> id in some
    ensures Best(names, some, query, limit) == Best(names, ids, query, limit)
  {
    ByStrictTotal(names, query);
    TopIsKept(some, ids, By(names, query), limit);
  }

  /** Every id among the best is shown by some layer. */
  predicate BestAreShown(names: Naming, layers: Layers, query: string, limit: nat) {
    forall id :: id in Best(names, Matching(names, layers, query), query, limit) ==>
      Shown(names, layers, query, limit, id)
  }

  /** The layered search answers like one search of all layers, the first `limit` matching ids in
      order, if and only if each of those is shown by some layer. */
  lemma SearchIsGlobal(names: Naming, layers: Layers, query: string, limit: nat)
    ensures IdsOf(Ranked(names, Collected(names, layers, query, limit), query, limit))
            == Best(names, Matching(names, layers, query), query, limit)
       <==> BestAreShown(names, layers, query, limit)
  {
    var rows := Collected(names, layers, query, limit);
    var some, all := MatchingIn(names, Ids(rows), query), Matching(names, layers, query);
    RankedIds(names, rows, query, limit);
    CollectedIsStored(names, layers, query, limit);
    MatchingIsStored(names, rows, layers.All(), query);
    forall id | id in Best(names, all, query, limit)
      ensures id in some <==> Shown(names, layers, query, limit, id)
    {
      CollectedIds(names, layers, query, limit, id);
      assert MatchesId(names, id, query);
    }
    if BestAreShown(names, layers, query, limit) {
      BestIsKept(names, some, all, query, limit);
    }
    if Best(names, some, query, limit) == Best(names, all, query, limit) {
      forall id | id in Best(names, all, query, limit)
        ensures id in some
      {
      }
    }
  }

  // ---- where the scripts name entities like the service -------------------------------------------------------

  /** The longest piece of a query that an id or its name starts with occurs in the id. */
  ghost predicate HasPieces(names: Naming) {
    forall id, query {:trigger Includes(id, Candidate(query))} ::
      MatchesId(names, id, query) ==> Includes(id, Candidate(query))
  }

  /** The scripts derive the service's name for every id they are asked for. */
  predicate NamedAlike(names: Naming, facts: set<EntityFact>) {
    forall f :: f in facts ==> names.script(f.id) == {names.service(f.id)}
  }

  /** An id has one description, and outside the shards, which store the service's name, the
      scripts derive it. */
  predicate IsRegular(names: Naming, layers: Layers) {
    Agreeing(layers.All())
    && NamedAlike(names, layers.states + layers.revision + layers.enrichment)
  }

  predicate NamesAgree(names: Naming, facts: set<EntityFact>, stored: bool) {
    forall f :: f in facts ==> Names(names, f.id, stored) == {names.service(f.id)}
  }

  function HitIds(hits: set<Hit>): set<string> {
    set h | h in hits :: h.fact.id
  }

  /** Rows of different entities are as many as their ids. */
  lemma {:induction false} AsManyIds(hits: set<Hit>)
    requires forall g, h :: g in hits && h in hits && g.fact.id == h.fact.id ==> g == h
    ensures |HitIds(hits)| == |hits|
    decreases |hits|
  {
    if hits == {} {
      assert HitIds(hits) == {};
    } else {
      var h :| h in hits;
      AsManyIds(hits - {h});
      assert HitIds(hits) == HitIds(hits - {h}) + {h.fact.id};
    }
  }

  /** What sorts before a row of a layer sorts before its id among all that match. */
  lemma RowAhead(names: Naming, facts: set<EntityFact>, stored: bool, query: string,
                 ids: set<string>, f: EntityFact, h: Hit)
    requires Agreeing(facts) && NamesAgree(names, facts, stored) && f in facts
    requires MatchingIn(names, Described(facts), query) <= ids
    requires h in RowsAhead(names, facts, stored, query, f)
    ensures h == HitOf(names, stored, query, h.fact) && h.fact in facts
    ensures h.fact.id in Ahead(ids, By(names, query), f.id)
  {
    var g :| g in facts && Finds(names, stored, query, g.id) && h == HitOf(names, stored, query, g);
    assert MatchesId(names, g.id, query) && g.id in Described(facts);
    HitLessStrictTotal();
    assert !HitLess(h, h) && (g.id == f.id ==> g == f);
    assert IdLess(names, query, g.id, f.id);
  }

  lemma FewRowsAhead(names: Naming, facts: set<EntityFact>, stored: bool, query: string,
                     ids: set<string>, f: EntityFact)
    requires Agreeing(facts) && NamesAgree(names, facts, stored) && f in facts
    requires MatchingIn(names, Described(facts), query) <= ids
    ensures |RowsAhead(names, facts, stored, query, f)| <= |Ahead(ids, By(names, query), f.id)|
  {
    var rows := RowsAhead(names, facts, stored, query, f);
    forall h | h in rows
      ensures h == HitOf(names, stored, query, h.fact) && h.fact in facts
      ensures h.fact.id in Ahead(ids, By(names, query), f.id)
    {
      RowAhead(names, facts, stored, query, ids, f, h);
    }
    AsManyIds(rows);
    NotMore(HitIds(rows), Ahead(ids, By(names, query), f.id));
  }

  lemma LayerShows(names: Naming, facts: set<EntityFact>, stored: bool, query: string, limit: nat,
                   ids: set<string>, id: string)
    requires HasPieces(names) && Agreeing(facts) && NamesAgree(names, facts, stored)
    requires MatchingIn(names, Described(facts), query) <= ids
    requires id in Described(facts) && id in Best(names, ids, query, limit)
    requires MatchesId(names, id, query)
    ensures Shows(names, facts, stored, query, limit, id)
  {
    var f :| f in facts && f.id == id;
    ByStrictTotal(names, query);
    InTop(ids, By(names, query), limit, id);
    FewRowsAhead(names, facts, stored, query, ids, f);
    assert names.service(id) in Names(names, id, stored);
  }

  /** In a regular store the layered search misses nothing. */
  lemma RegularIsShown(names: Naming, layers: Layers, query: string, limit: nat)
    requires HasPieces(names) && IsRegular(names, layers)
    ensures BestAreShown(names, layers, query, limit)
  {
    var ids := Matching(names, layers, query);
    forall id | id in Best(names, ids, query, limit)
      ensures Shown(names, layers, query, limit, id)
    {
      assert id in ids;
      if id in Described(layers.states) {
        LayerShows(names, layers.states, false, query, limit, ids, id);
      } else if id in Described(layers.revision) {
        LayerShows(names, layers.revision, false, query, limit, ids, id);
      } else if id in Described(layers.shards) {
        LayerShows(names, layers.shards, true, query, limit, ids, id);
      } else {
        LayerShows(names, layers.enrichment, false, query, limit, ids, id);
      }
    }
  }

  // ---- the names of the service and its scripts ----------------------------------------------------------------

  const SERVICE := Naming(id => EntityName(id), id => Display(id))

  lemma ServiceHasPieces()
    ensures HasPieces(SERVICE)
  {
    forall id, query | MatchesId(SERVICE, id, query)
      ensures Includes(id, Candidate(query))
    {
      PrefilterIsLossless(id, query);
    }
  }

  /** The first `limit` matching ids of all layers, in order. */
  ghost predicate IsGlobal(layers: Layers, query: string, limit: nat, matches: seq<EntityFact>) {
    IdsOf(matches) == Best(SERVICE, Matching(SERVICE, layers, query), query, limit)
  }

  method Search(layers: Layers, query: string, limit: nat) returns (matches: seq<EntityFact>)
    ensures forall m :: m in matches ==> m in layers.All() && MatchesId(SERVICE, m.id, query)
    ensures IsGlobal(layers, query, limit, matches) <==> BestAreShown(SERVICE, layers, query, limit)
    ensures IsRegular(SERVICE, layers) ==> IsGlobal(layers, query, limit, matches)
  {
    var rows := SearchEntityFacts(SERVICE, layers, query, limit);
    matches := SearchEntities(SERVICE, rows, query, limit);
    RankedIsStored(SERVICE, layers, query, limit);
    SearchIsGlobal(SERVICE, layers, query, limit);
    if IsRegular(SERVICE, layers) {
      ServiceHasPieces();
      RegularIsShown(SERVICE, layers, query, limit);
    }
  }

  // ---- what the scripts miss -------------------------------------------------------------------------------------

  function OnlyState(id: string, kind: string): Layers {
    Layers({EntityFact(id, kind, "")}, {}, {}, {})
  }

  /** An entity that no script names like the query is not shown, though it matches. */
  lemma UnnamedIsMissed(names: Naming, id: string, kind: string, query: string, limit: nat)
    requires query <= names.service(id) && !Matches(id, names.script(id), query)
    ensures id in Matching(names, OnlyState(id, kind), query)
    ensures Ranked(names, Collected(names, OnlyState(id, kind), query, limit), query, limit) == []
  {
    var layers := OnlyState(id, kind);
    assert EntityFact(id, kind, "") in layers.All();
    NothingMatched(names, layers, query, limit);
  }

  lemma NothingMatched(names: Naming, layers: Layers, query: string, limit: nat)
    requires Matched(names, layers.states, false, query) == {}
    requires layers.revision == layers.shards == layers.enrichment == {}
    ensures Ranked(names, Collected(names, layers, query, limit), query, limit) == []
  {
    assert Matched(names, {}, false, query) == {} && Matched(names, {}, true, query) == {};
    assert Collected(names, layers, query, limit) == [];
  }

  /** A gRPC method with a nested path, searched by its full name: it is stored and matches, but
      no script derives its name, so the search does not return it. */
  lemma NestedMethodIsMissed(id: string, kind: string, limit: nat)
    requires IsNestedMethod(id)
    ensures var layers, query := OnlyState(id, kind), SERVICE.service(id);
            && id in Matching(SERVICE, layers, query)
            && Ranked(SERVICE, Collected(SERVICE, layers, query, limit), query, limit) == []
  {
    NestedMethodIsUnnamed(id);
    UnnamedIsMissed(SERVICE, id, kind, SERVICE.service(id), limit);
  }
}
