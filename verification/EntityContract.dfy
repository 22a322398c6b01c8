/** What entities, observations and overrides owe each other: an entity is described once, and
    whatever a relationship touches is described. */
module EntityContract {
  import opened Order
  import opened Graph
  import opened Facts
  import opened Winners
  import opened Dependencies

  /** Facts of one entity agree completely. */
  predicate Agreeing(entities: set<EntityFact>) {
    forall a, b :: a in entities && b in entities && a.id == b.id ==> a == b
  }

  function Described(entities: set<EntityFact>): set<Entity> {
    set e | e in entities :: e.id
  }

  function Endpoints(observations: set<Row>, overrides: set<Override>): set<Entity> {
    (set r | r in observations :: r.from) + (set r | r in observations :: r.to)
    + (set o | o in overrides :: o.from) + (set o | o in overrides :: o.resolved)
  }

  datatype Fault = Conflicting(id: Entity) | Missing(id: Entity)

  /** The facts seen so far, by id. */
  ghost predicate Collects(seen: set<EntityFact>, selected: map<Entity, EntityFact>) {
    && selected.Keys == Described(seen) && Agreeing(seen)
    && forall id :: id in selected ==> selected[id] in seen && selected[id].id == id
  }

  lemma SelectOne(seen: set<EntityFact>, selected: map<Entity, EntityFact>, e: EntityFact)
    requires Collects(seen, selected)
    ensures e.id !in selected ==> Collects(seen + {e}, selected[e.id := e])
    ensures e.id in selected && selected[e.id] == e ==> Collects(seen + {e}, selected)
    ensures e.id in selected && selected[e.id] != e ==> !Agreeing(seen + {e})
  {
    if e.id in selected && selected[e.id] != e {
      assert selected[e.id] in seen + {e} && e in seen + {e};
    }
    assert Described(seen + {e}) == Described(seen) + {e.id};
    assert forall f :: f in seen && f.id == e.id ==> f.id in selected && selected[f.id] == f;
  }

  ghost predicate Conflict(entities: set<EntityFact>, id: Entity) {
    exists a, b :: a in entities && b in entities && a != b && a.id == b.id == id
  }

  method SelectAll(entities: set<EntityFact>)
    returns (selected: map<Entity, EntityFact>, conflict: Option<Entity>)
    ensures conflict.None? ==> Collects(entities, selected)
    ensures conflict.Some? ==> Conflict(entities, conflict.value)
  {
    selected, conflict := map[], None;
    var rest := entities;
    while rest != {}
      invariant rest <= entities && Collects(entities - rest, selected)
      decreases |rest|
    {
      var e :| e in rest;
      SelectOne(entities - rest, selected, e);
      assert entities - (rest - {e}) == (entities - rest) + {e};
      if e.id in selected && selected[e.id] != e {
        assert selected[e.id] in entities && e in entities;
        return selected, Some(e.id);
      }
      selected := if e.id in selected then selected else selected[e.id := e];
      rest := rest - {e};
    }
    assert entities - {} == entities;
  }

  /** A conflict, or the least endpoint without a fact. */
  method Validate(entities: set<EntityFact>, observations: set<Row>, overrides: set<Override>)
    returns (fault: Option<Fault>)
    ensures fault.None? <==>
              Agreeing(entities) && Endpoints(observations, overrides) <= Described(entities)
    ensures fault.Some? && fault.value.Conflicting? ==> Conflict(entities, fault.value.id)
    ensures fault.Some? && fault.value.Missing? ==>
              && Agreeing(entities)
              && IsLeast(Endpoints(observations, overrides) - Described(entities), StringLess,
                         fault.value.id)
  {
    var selected, conflict := SelectAll(entities);
    if conflict.Some? {
      return Some(Conflicting(conflict.value));
    }
    var missing := Endpoints(observations, overrides) - selected.Keys;
    if missing != {} {
      StringLessStrictTotal();
      var id := Least(missing, StringLess);
      assert id in Endpoints(observations, overrides) && id !in Described(entities);
      return Some(Missing(id));
    }
    assert forall id :: id in Endpoints(observations, overrides) ==> id !in missing;
    fault := None;
  }

  /** Where the observations and overrides in force are described, so are the ends of every
      dependency edge. */
  lemma EdgesAreDescribed(i: Inputs, entities: set<EntityFact>, edge: EdgeId)
    requires Endpoints(EffectiveRows(i), Effective(i)) <= Described(entities)
    requires edge in Rebuild(i)
    ensures edge.from in Described(entities) && edge.to in Described(entities)
  {
    var r :| r in Dependent(Direct(i)) && Dependencies.IdOf(r) == edge;
    var ends := Endpoints(EffectiveRows(i), Effective(i));
    if r in EffectiveRows(i) {
      assert r.from in ends && r.to in ends;
    } else {
      assert r in OverrideRows(i.baseOverrides)
             || r in OverrideRows(Redirecting(i.enrichmentOverrides, Baseline(i), BaseTargets(i)));
      var o :| o in Effective(i) && o.Row() == r;
      assert o.from in ends && o.resolved in ends;
    }
  }
}
