/** The published dependency relation, its traversal directions and its repository targets. */
module Graph {
  import opened Order

  type Entity = string

  datatype Option<+T> = None | Some(value: T)

  /** In declaration order, which is the order the ordered edge map uses. */
  datatype Relation =
    | BindsContract | Calls | CallsGraphql | CallsRpc | ConsumedBy | Defines | FieldOf
    | Implements | ImplementedBy | Imports | Publishes | Requires | RequestType
    | ResolvedBy | Selects | ResponseType | Uses
  {
    function Name(): string {
      match this
      case BindsContract => "binds_contract"
      case Calls => "calls"
      case CallsGraphql => "calls_graphql"
      case CallsRpc => "calls_rpc"
      case ConsumedBy => "consumed_by"
      case Defines => "defines"
      case FieldOf => "field_of"
      case Implements => "implements"
      case ImplementedBy => "implemented_by"
      case Imports => "imports"
      case Publishes => "publishes"
      case Requires => "requires"
      case RequestType => "request_type"
      case ResolvedBy => "resolved_by"
      case Selects => "selects"
      case ResponseType => "response_type"
      case Uses => "uses"
    }

    function Rank(): nat {
      match this
      case BindsContract => 0
      case Calls => 1
      case CallsGraphql => 2
      case CallsRpc => 3
      case ConsumedBy => 4
      case Defines => 5
      case FieldOf => 6
      case Implements => 7
      case ImplementedBy => 8
      case Imports => 9
      case Publishes => 10
      case Requires => 11
      case RequestType => 12
      case ResolvedBy => 13
      case Selects => 14
      case ResponseType => 15
      case Uses => 16
    }
  }

  /** One materialized row of `analysis_resolved_dependency` in one view. */
  datatype Row = Row(from: Entity, to: Entity, relation: Relation, evidence: string,
                     confidence: real, provenance: string)
  {
    function Key(): EdgeKey {
      EdgeKey(from, to, relation)
    }
  }

  /** The identity under which evidence of parallel rows is merged into one edge. */
  datatype EdgeKey = EdgeKey(from: Entity, to: Entity, relation: Relation)
  {
    /** The node an edge leaves in a traversal. Dependents traversal walks edges backwards,
        except that it keeps following a gRPC operation forward to its implementation. */
    function Source(direction: Direction): Entity {
      if direction.Outgoing? || IsGrpcStep(this) then from else to
    }

    function Target(direction: Direction): Entity {
      if direction.Outgoing? || IsGrpcStep(this) then to else from
    }
  }

  datatype Direction = Outgoing | Incoming

  predicate IsGrpcStep(key: EdgeKey) {
    key.relation.ImplementedBy? && "grpc://" <= key.from
  }

  predicate IsRepositoryOwned(id: Entity) {
    "repo://" <= id
  }

  function Keys(rows: set<Row>): set<EdgeKey> {
    set row | row in rows :: row.Key()
  }

  // ---- orders -------------------------------------------------------------------------

  predicate EvidenceLess(a: Row, b: Row) {
    StringLess(a.evidence, b.evidence) || (a.evidence == b.evidence && (
    a.confidence < b.confidence || (a.confidence == b.confidence &&
    StringLess(a.provenance, b.provenance))))
  }

  predicate RelationLess(a: Relation, b: Relation) {
    StringLess(a.Name(), b.Name())
  }

  predicate RowLess(a: Row, b: Row) {
    StringLess(a.from, b.from) || (a.from == b.from && (
    StringLess(a.to, b.to) || (a.to == b.to && (
    RelationLess(a.relation, b.relation) || (a.relation == b.relation && EvidenceLess(a, b))))))
  }

  predicate KeyLess(a: EdgeKey, b: EdgeKey) {
    StringLess(a.from, b.from) || (a.from == b.from && (
    StringLess(a.to, b.to) || (a.to == b.to && a.relation.Rank() < b.relation.Rank())))
  }

  lemma EvidenceLessTotal(a: Row, b: Row)
    ensures (a.evidence == b.evidence && a.confidence == b.confidence
             && a.provenance == b.provenance) || EvidenceLess(a, b) || EvidenceLess(b, a)
    ensures !EvidenceLess(a, a)
  {
    StringLessTotal(a.evidence, b.evidence);
    StringLessTotal(a.provenance, b.provenance);
    StringLessTotal(a.evidence, a.evidence);
    StringLessTotal(a.provenance, a.provenance);
  }

  lemma RelationLessTotal(a: Relation, b: Relation)
    ensures a == b || RelationLess(a, b) || RelationLess(b, a)
    ensures !RelationLess(a, a)
  {
    StringLessTotal(a.Name(), b.Name());
    StringLessTotal(a.Name(), a.Name());
    NamesDiffer(a, b);
  }

  lemma NamesDiffer(a: Relation, b: Relation)
    ensures a.Name() == b.Name() ==> a == b
  {
  }

  lemma RowLessTotal(a: Row, b: Row)
    ensures a == b || RowLess(a, b) || RowLess(b, a)
    ensures !RowLess(a, a)
  {
    StringLessTotal(a.from, b.from);
    StringLessTotal(a.to, b.to);
    RelationLessTotal(a.relation, b.relation);
    EvidenceLessTotal(a, b);
    StringLessTotal(a.from, a.from);
    StringLessTotal(a.to, a.to);
    RelationLessTotal(a.relation, a.relation);
    EvidenceLessTotal(a, a);
  }

  lemma StringLessChain(a: string, b: string, c: string)
    ensures StringLess(a, b) && StringLess(b, c) ==> StringLess(a, c)
  {
    if StringLess(a, b) && StringLess(b, c) {
      StringLessTransitive(a, b, c);
    }
  }

  lemma RowLessTransitive(a: Row, b: Row, c: Row)
    requires RowLess(a, b) && RowLess(b, c)
    ensures RowLess(a, c)
  {
    StringLessChain(a.from, b.from, c.from);
    StringLessChain(a.to, b.to, c.to);
    StringLessChain(a.relation.Name(), b.relation.Name(), c.relation.Name());
    StringLessChain(a.evidence, b.evidence, c.evidence);
    StringLessChain(a.provenance, b.provenance, c.provenance);
  }

  lemma RowLessStrictTotal()
    ensures StrictTotal(RowLess)
  {
    forall x, y
      ensures x == y || RowLess(x, y) || RowLess(y, x)
      ensures !RowLess(x, x)
    {
      RowLessTotal(x, y);
    }
    forall x, y, z | RowLess(x, y) && RowLess(y, z)
      ensures RowLess(x, z)
    {
      RowLessTransitive(x, y, z);
    }
  }

  lemma KeyLessTotal(a: EdgeKey, b: EdgeKey)
    ensures a == b || KeyLess(a, b) || KeyLess(b, a)
    ensures !KeyLess(a, a)
  {
    StringLessTotal(a.from, b.from);
    StringLessTotal(a.to, b.to);
    StringLessTotal(a.from, a.from);
    StringLessTotal(a.to, a.to);
  }

  lemma KeyLessStrictTotal()
    ensures StrictTotal(KeyLess)
  {
    forall x, y
      ensures x == y || KeyLess(x, y) || KeyLess(y, x)
      ensures !KeyLess(x, x)
    {
      KeyLessTotal(x, y);
    }
    forall x, y, z | KeyLess(x, y) && KeyLess(y, z)
      ensures KeyLess(x, z)
    {
      StringLessChain(x.from, y.from, z.from);
      StringLessChain(x.to, y.to, z.to);
    }
  }

  // ---- repository targets -------------------------------------------------------------

  function TargetPrefix(repository: string): string {
    "repo://" + repository + "/"
  }

  /** The first target, in string order, whose prefix the identifier carries. */
  predicate IsOwner(id: Entity, targets: set<string>, owner: Option<string>) {
    match owner
    case None => forall t :: t in targets ==> !(TargetPrefix(t) <= id)
    case Some(o) =>
      o in targets && TargetPrefix(o) <= id &&
      forall t :: t in targets && TargetPrefix(t) <= id ==> t == o || StringLess(o, t)
  }

  lemma OwnerExists(id: Entity, targets: set<string>)
    ensures exists owner :: IsOwner(id, targets, owner)
  {
    var owners := set t | t in targets && TargetPrefix(t) <= id;
    if owners == {} {
      assert forall t :: t in targets && TargetPrefix(t) <= id ==> t in owners;
      assert IsOwner(id, targets, None);
    } else {
      StringLessStrictTotal();
      var o := Least(owners, StringLess);
      assert forall t :: t in targets && TargetPrefix(t) <= id ==> t in owners;
      assert IsOwner(id, targets, Some(o));
    }
  }

  lemma OwnerUnique(id: Entity, targets: set<string>, a: Option<string>, b: Option<string>)
    requires IsOwner(id, targets, a) && IsOwner(id, targets, b)
    ensures a == b
  {
    if a.Some? && b.Some? {
      StringLessTotal(a.value, b.value);
    }
  }

  function TargetRepository(id: Entity, targets: set<string>): (owner: Option<string>)
    ensures IsOwner(id, targets, owner)
  {
    OwnerExists(id, targets);
    assert forall a, b :: IsOwner(id, targets, a) && IsOwner(id, targets, b) ==> a == b by {
      forall a, b | IsOwner(id, targets, a) && IsOwner(id, targets, b)
        ensures a == b
      {
        OwnerUnique(id, targets, a, b);
      }
    }
    var owner :| IsOwner(id, targets, owner);
    owner
  }
}
