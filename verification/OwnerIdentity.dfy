/** What an enrichment owner identifier is the hash of: analyzer and repository, version, the
    fact shard it is about if it is about one, and the normalized rows of the output. */
module OwnerIdentity {
  import opened Graph
  import opened Order
  import opened Framing

  datatype Kind = EntityRow | ObservationRow | OverrideRow | DiagnosticRow | ReplacementRow

  /** One row of an output: as many fields as its kind has. */
  datatype PayloadRow = PayloadRow(kind: Kind, fields: seq<Text>)

  function Arity(kind: Kind): nat {
    match kind
    case EntityRow => 3
    case ObservationRow => 6
    case OverrideRow => 7
    case DiagnosticRow => 6
    case ReplacementRow => 2
  }

  /** The texts that say which kind of row, or of output, follows. */
  datatype Tags = Tags(entity: Text, observation: Text, override: Text, diagnostic: Text,
                       replacement: Text, shard: Text)
  {
    function Of(kind: Kind): Text {
      match kind
      case EntityRow => entity
      case ObservationRow => observation
      case OverrideRow => override
      case DiagnosticRow => diagnostic
      case ReplacementRow => replacement
    }

    ghost predicate Distinct() {
      (forall a, b :: Of(a) == Of(b) ==> a == b) && forall kind :: Of(kind) != shard
    }
  }

  /** "entity", "observation", "override", "diagnostic", "diagnostic-replacement", "fact-shard" */
  function TheTags(): Tags {
    Tags([101, 110, 116, 105, 116, 121],
         [111, 98, 115, 101, 114, 118, 97, 116, 105, 111, 110],
         [111, 118, 101, 114, 114, 105, 100, 101],
         [100, 105, 97, 103, 110, 111, 115, 116, 105, 99],
         [100, 105, 97, 103, 110, 111, 115, 116, 105, 99, 45, 114, 101, 112, 108, 97, 99, 101, 109,
          101, 110, 116],
         [102, 97, 99, 116, 45, 115, 104, 97, 114, 100])
  }

  lemma DistinctByLength(t: Tags)
    requires |t.entity| == 6 && |t.observation| == 11 && |t.override| == 8
    requires |t.diagnostic| == 10 && |t.replacement| == 22
    requires |t.shard| == 10 && t.diagnostic != t.shard
    ensures t.Distinct()
  {
    forall a, b | t.Of(a) == t.Of(b)
      ensures a == b
    {
      assert |t.Of(a)| == |t.Of(b)|;
    }
    forall kind: Kind
      ensures t.Of(kind) != t.shard
    {
      assert |t.Of(kind)| == 10 ==> kind == DiagnosticRow;
    }
  }

  lemma TheTagsAreDistinct()
    ensures TheTags().Distinct()
  {
    assert TheTags().diagnostic[0] == 100 && TheTags().shard[0] == 102;
    DistinctByLength(TheTags());
  }

  datatype Identity = Identity(analyzer: Text, repository: Text, version: Text,
                               unit: Option<Text>, rows: set<PayloadRow>)
  {
    ghost predicate Valid() {
      (forall row :: row in rows ==> |row.fields| == Arity(row.kind))
      && |OwnerKey(analyzer, repository)| < WORD
    }
  }

  // ---- the owner key ------------------------------------------------------------------------------------

  const COLON: Byte := 58

  function Digits(n: nat): (digits: seq<Byte>)
    ensures forall d :: d in digits ==> 48 <= d < 58
  {
    if n < 10 then [48 + n] else Digits(n / 10) + [48 + n % 10]
  }

  function Number(digits: seq<Byte>): int {
    if digits == [] then 0
    else
      var last: int := digits[|digits| - 1];
      10 * Number(digits[..|digits| - 1]) + (last - 48)
  }

  lemma {:induction false} NumberOfDigits(n: nat)
    ensures Number(Digits(n)) == n
    decreases n
  {
    if n >= 10 {
      NumberOfDigits(n / 10);
      assert Digits(n)[..|Digits(n)| - 1] == Digits(n / 10);
    } else {
      assert Digits(n)[..0] == [];
    }
  }

  /** The length of the analyzer keeps `ab` + `c` apart from `a` + `bc`. */
  function OwnerKey(analyzer: Text, repository: Text): seq<Byte> {
    Digits(|analyzer|) + [COLON] + analyzer + repository
  }

  function FirstColon(bytes: seq<Byte>): (i: nat)
    ensures i <= |bytes|
  {
    if bytes == [] || bytes[0] == COLON then 0 else 1 + FirstColon(bytes[1..])
  }

  lemma {:induction false} FirstColonAfter(digits: seq<Byte>, rest: seq<Byte>)
    requires COLON !in digits
    ensures FirstColon(digits + [COLON] + rest) == |digits|
    decreases |digits|
  {
    if digits != [] {
      assert (digits + [COLON] + rest)[1..] == digits[1..] + [COLON] + rest;
      FirstColonAfter(digits[1..], rest);
    } else {
      assert (digits + [COLON] + rest)[0] == COLON;
    }
  }

  function SplitKey(key: Text): Option<(Text, Text)> {
    var i := FirstColon(key);
    var n := Number(key[..i]);
    if i == |key| || n < 0 || |key| < i + 1 + n then None
    else Some((key[i + 1..i + 1 + n], key[i + 1 + n..]))
  }

  lemma SplitOwnerKey(analyzer: Text, repository: Text)
    requires |OwnerKey(analyzer, repository)| < WORD
    ensures SplitKey(OwnerKey(analyzer, repository)) == Some((analyzer, repository))
  {
    var digits, key := Digits(|analyzer|), OwnerKey(analyzer, repository);
    assert key == digits + [COLON] + (analyzer + repository);
    FirstColonAfter(digits, analyzer + repository);
    NumberOfDigits(|analyzer|);
    assert key[..|digits|] == digits;
    assert key[|digits| + 1..|digits| + 1 + |analyzer|] == analyzer;
    assert key[|digits| + 1 + |analyzer|..] == repository;
  }

  // ---- rows ---------------------------------------------------------------------------------------------

  function Cells(t: Tags, row: PayloadRow): seq<Text> {
    [t.Of(row.kind)] + row.fields
  }

  function Flatten(t: Tags, rows: seq<PayloadRow>): seq<Text> {
    if rows == [] then [] else Cells(t, rows[0]) + Flatten(t, rows[1..])
  }

  function KindOf(t: Tags, tag: Text): Option<Kind> {
    if tag == t.entity then Some(EntityRow)
    else if tag == t.observation then Some(ObservationRow)
    else if tag == t.override then Some(OverrideRow)
    else if tag == t.diagnostic then Some(DiagnosticRow)
    else if tag == t.replacement then Some(ReplacementRow)
    else None
  }

  lemma KindOfTag(t: Tags, kind: Kind)
    requires t.Distinct()
    ensures KindOf(t, t.Of(kind)) == Some(kind)
  {
    assert t.entity == t.Of(EntityRow) && t.observation == t.Of(ObservationRow)
        && t.override == t.Of(OverrideRow) && t.diagnostic == t.Of(DiagnosticRow)
        && t.replacement == t.Of(ReplacementRow);
  }

  function ReadRows(t: Tags, cells: seq<Text>): Option<seq<PayloadRow>>
    decreases |cells|
  {
    if cells == [] then Some([])
    else
      match KindOf(t, cells[0])
      case None => None
      case Some(kind) =>
        var n := 1 + Arity(kind);
        if |cells| < n then None
        else
          match ReadRows(t, cells[n..])
          case None => None
          case Some(rows) => Some([PayloadRow(kind, cells[1..n])] + rows)
  }

  lemma {:induction false} ReadFlatten(t: Tags, rows: seq<PayloadRow>)
    requires t.Distinct()
    requires forall row :: row in rows ==> |row.fields| == Arity(row.kind)
    ensures ReadRows(t, Flatten(t, rows)) == Some(rows)
    decreases |rows|
  {
    if rows != [] {
      var row, rest := rows[0], Flatten(t, rows[1..]);
      KindOfTag(t, row.kind);
      assert Flatten(t, rows)[0] == t.Of(row.kind);
      assert Flatten(t, rows)[1..1 + Arity(row.kind)] == row.fields;
      assert Flatten(t, rows)[1 + Arity(row.kind)..] == rest;
      ReadFlatten(t, rows[1..]);
      assert [row] + rows[1..] == rows;
    }
  }

  lemma FirstCell(t: Tags, rows: seq<PayloadRow>)
    requires t.Distinct() && rows != []
    ensures Flatten(t, rows) != [] && Flatten(t, rows)[0] != t.shard
  {
    assert Flatten(t, rows)[0] == t.Of(rows[0].kind);
  }

  // ---- the order of rows --------------------------------------------------------------------------------

  /** Ordered collections compare element by element. */
  predicate LexLess<T(==)>(less: (T, T) -> bool, a: seq<T>, b: seq<T>) {
    b != [] && (a == [] || less(a[0], b[0]) || (a[0] == b[0] && LexLess(less, a[1..], b[1..])))
  }

  lemma {:induction false} LexTotal<T(!new)>(less: (T, T) -> bool, a: seq<T>, b: seq<T>)
    requires StrictTotal(less)
    ensures a == b || LexLess(less, a, b) || LexLess(less, b, a)
    ensures !LexLess(less, a, a)
    decreases |a|
  {
    if a != [] {
      LexTotal(less, a[1..], a[1..]);
      if b != [] {
        LexTotal(less, a[1..], b[1..]);
        assert a == [a[0]] + a[1..] && b == [b[0]] + b[1..];
      }
    }
  }

  lemma {:induction false} LexTransitive<T(!new)>(less: (T, T) -> bool, a: seq<T>, b: seq<T>,
                                                  c: seq<T>)
    requires StrictTotal(less) && LexLess(less, a, b) && LexLess(less, b, c)
    ensures LexLess(less, a, c)
    decreases |a|
  {
    if a != [] && a[0] == b[0] && b[0] == c[0] && !less(a[0], a[0]) {
      LexTransitive(less, a[1..], b[1..], c[1..]);
    }
  }

  predicate ByteLess(a: Byte, b: Byte) {
    a < b
  }

  predicate TextLess(a: Text, b: Text) {
    LexLess(ByteLess, a, b)
  }

  lemma TextLessStrictTotal()
    ensures StrictTotal(TextLess)
  {
    assert StrictTotal(ByteLess);
    forall a: Text, b: Text
      ensures a == b || TextLess(a, b) || TextLess(b, a)
      ensures !TextLess(a, a)
    {
      LexTotal(ByteLess, a, b);
    }
    forall a: Text, b: Text, c: Text | TextLess(a, b) && TextLess(b, c)
      ensures TextLess(a, c)
    {
      LexTransitive(ByteLess, a, b, c);
    }
  }

  predicate RowBefore(t: Tags, a: PayloadRow, b: PayloadRow) {
    LexLess(TextLess, Cells(t, a), Cells(t, b))
  }

  lemma RowBeforeStrictTotal(t: Tags)
    requires t.Distinct()
    ensures StrictTotal((a, b) => RowBefore(t, a, b))
  {
    TextLessStrictTotal();
    forall a: PayloadRow, b: PayloadRow
      ensures a == b || RowBefore(t, a, b) || RowBefore(t, b, a)
      ensures !RowBefore(t, a, a)
    {
      LexTotal(TextLess, Cells(t, a), Cells(t, b));
      LexTotal(TextLess, Cells(t, a), Cells(t, a));
      assert Cells(t, a)[0] == t.Of(a.kind) && Cells(t, a)[1..] == a.fields;
      assert Cells(t, b)[0] == t.Of(b.kind) && Cells(t, b)[1..] == b.fields;
    }
    forall a: PayloadRow, b: PayloadRow, c: PayloadRow | RowBefore(t, a, b) && RowBefore(t, b, c)
      ensures RowBefore(t, a, c)
    {
      LexTransitive(TextLess, Cells(t, a), Cells(t, b), Cells(t, c));
    }
  }

  function Sorted(t: Tags, rows: set<PayloadRow>): (listing: seq<PayloadRow>)
    requires t.Distinct()
    ensures forall row :: row in listing <==> row in rows
  {
    RowBeforeStrictTotal(t);
    Listing(rows, (a, b) => RowBefore(t, a, b))
  }

  // ---- the hashed stream ----------------------------------------------------------------------------------

  function UnitFields(t: Tags, unit: Option<Text>): seq<Text> {
    match unit
    case None => []
    case Some(text) => [t.shard, text]
  }

  function Fields(t: Tags, id: Identity): seq<Text>
    requires t.Distinct() && id.Valid()
  {
    [OwnerKey(id.analyzer, id.repository), id.version] + UnitFields(t, id.unit)
    + Flatten(t, Sorted(t, id.rows))
  }

  function Preimage(t: Tags, id: Identity): seq<Byte>
    requires t.Distinct() && id.Valid()
  {
    Frames(Fields(t, id))
  }

  function ReadFields(t: Tags, fields: seq<Text>): Option<Identity> {
    if |fields| < 2 then None
    else
      var (unit, cells) := if |fields| >= 4 && fields[2] == t.shard
                           then (Some(fields[3]), fields[4..]) else (None, fields[2..]);
      match (SplitKey(fields[0]), ReadRows(t, cells))
      case (Some((analyzer, repository)), Some(rows)) =>
        Some(Identity(analyzer, repository, fields[1], unit, set row | row in rows))
      case _ => None
  }

  function Read(t: Tags, bytes: seq<Byte>): Option<Identity> {
    match UnframeAll(bytes)
    case None => None
    case Some(fields) => ReadFields(t, fields)
  }

  /** The hashed bytes give back analyzer, repository, version, unit and rows. */
  lemma ReadPreimage(t: Tags, id: Identity)
    requires t.Distinct() && id.Valid()
    ensures Read(t, Preimage(t, id)) == Some(id)
  {
    var rows, fields := Sorted(t, id.rows), Fields(t, id);
    UnframeAllFrames(fields);
    SplitOwnerKey(id.analyzer, id.repository);
    ReadFlatten(t, rows);
    assert (set row | row in rows) == id.rows;
    var cells := Flatten(t, rows);
    if id.unit.Some? {
      assert fields[2] == t.shard && fields[3] == id.unit.value && fields[4..] == cells;
    } else {
      assert fields[2..] == cells;
      if rows != [] {
        FirstCell(t, rows);
        assert fields[2] == cells[0];
      }
    }
  }

  /** Different outputs hash different bytes. */
  lemma PreimageIsInjective(a: Identity, b: Identity)
    requires a.Valid() && b.Valid()
    requires Preimage(TheTags(), a) == Preimage(TheTags(), b)
    ensures a == b
  {
    TheTagsAreDistinct();
    ReadPreimage(TheTags(), a);
    ReadPreimage(TheTags(), b);
  }

  // ---- writing it -------------------------------------------------------------------------------------------

  lemma {:induction false} FlattenJoin(t: Tags, a: seq<PayloadRow>, b: seq<PayloadRow>)
    ensures Flatten(t, a + b) == Flatten(t, a) + Flatten(t, b)
    decreases |a|
  {
    if a == [] {
      assert a + b == b;
    } else {
      FlattenJoin(t, a[1..], b);
      assert (a + b)[1..] == a[1..] + b;
    }
  }

  lemma FlattenOne(t: Tags, row: PayloadRow)
    ensures Flatten(t, [row]) == Cells(t, row)
  {
    assert Flatten(t, [row]) == Cells(t, row) + Flatten(t, []);
  }

  lemma OneMoreRow(t: Tags, rows: seq<PayloadRow>, i: nat)
    requires i < |rows|
    ensures Frames(Flatten(t, rows[..i + 1])) ==
              Frames(Flatten(t, rows[..i])) + Frames(Cells(t, rows[i]))
  {
    assert rows[..i + 1] == rows[..i] + [rows[i]];
    FlattenJoin(t, rows[..i], [rows[i]]);
    FlattenOne(t, rows[i]);
    FramesJoin(Flatten(t, rows[..i]), Cells(t, rows[i]));
  }

  method FeedRows(digest: Digest, t: Tags, rows: seq<PayloadRow>)
    modifies digest
    ensures digest.preimage == old(digest.preimage) + Frames(Flatten(t, rows))
  {
    for i := 0 to |rows|
      invariant digest.preimage == old(digest.preimage) + Frames(Flatten(t, rows[..i]))
    {
      OneMoreRow(t, rows, i);
      digest.FramedAll(Cells(t, rows[i]));
    }
    assert rows[..|rows|] == rows;
  }

  /** The stream in the order it is fed. */
  lemma PreimageParts(t: Tags, id: Identity)
    requires t.Distinct() && id.Valid()
    ensures Preimage(t, id) == Frames([OwnerKey(id.analyzer, id.repository), id.version])
                               + Frames(UnitFields(t, id.unit))
                               + Frames(Flatten(t, Sorted(t, id.rows)))
  {
    var head: seq<Text> := [OwnerKey(id.analyzer, id.repository), id.version];
    FramesJoin(head, UnitFields(t, id.unit));
    FramesJoin(head + UnitFields(t, id.unit), Flatten(t, Sorted(t, id.rows)));
  }

  method SnapshotId(t: Tags, id: Identity) returns (digest: Digest)
    requires t.Distinct() && id.Valid()
    ensures digest.preimage == Preimage(t, id)
  {
    digest := new Digest();
    digest.FramedAll([OwnerKey(id.analyzer, id.repository), id.version]);
    digest.FramedAll(UnitFields(t, id.unit));
    FeedRows(digest, t, Sorted(t, id.rows));
    PreimageParts(t, id);
  }
}
