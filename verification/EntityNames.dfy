/** The display name of an entity and the substring prefilter of the entity search: a piece of
    the query that the name shows is also a piece of the entity's id. */
module EntityNames {

  const USIZE_LIMIT: nat := 0x1_0000_0000_0000_0000

  predicate IsSeparator(c: char) {
    c == '.' || c == '/' || c == ':'
  }

  predicate IsSolid(s: string) {
    forall i :: 0 <= i < |s| ==> !IsSeparator(s[i])
  }

  /** Whether `part` occurs in `s` at some position. */
  predicate Includes(s: string, part: string) {
    exists i :: 0 <= i <= |s| && part <= s[i..]
  }

  // Splitting at the last or the first occurrence.

  /** What follows the last `c`, the whole text if there is none. */
  function AfterLast(s: string, c: char): (r: string)
    ensures |r| <= |s| && r == s[|s| - |r|..] && c !in r
    ensures |r| < |s| ==> s[|s| - |r| - 1] == c
    ensures c in s <==> |r| < |s|
  {
    if s == [] || s[|s| - 1] == c then [] else
      var r := AfterLast(s[..|s| - 1], c) + [s[|s| - 1]];
      assert s == s[..|s| - 1] + [s[|s| - 1]];
      r
  }

  function BeforeLast(s: string, c: char): (r: string)
    requires c in s
    ensures s == r + [c] + AfterLast(s, c)
  {
    s[..|s| - |AfterLast(s, c)| - 1]
  }

  /** What precedes the first `c`, the whole text if there is none. */
  function BeforeFirst(s: string, c: char): (r: string)
    ensures r <= s && c !in r
    ensures |r| < |s| ==> s[|r|] == c
    ensures c in s <==> |r| < |s|
  {
    if s == [] || s[0] == c then [] else [s[0]] + BeforeFirst(s[1..], c)
  }

  function AfterFirst(s: string, c: char): (r: string)
    requires c in s
    ensures s == BeforeFirst(s, c) + [c] + r
  {
    s[|BeforeFirst(s, c)| + 1..]
  }

  /** The last position up to `i` at which `text` occurs, or -1. */
  function FindLast(s: string, text: string, i: nat): (r: int)
    requires i <= |s|
    ensures -1 <= r <= i
    ensures r >= 0 ==> text <= s[r..]
    ensures forall j :: r < j <= i ==> !(text <= s[j..])
  {
    if text <= s[i..] then i
    else if i == 0 then -1
    else FindLast(s, text, i - 1)
  }

  // The name of an entity.

  predicate IsDigits(s: string) {
    forall i :: 0 <= i < |s| ==> '0' <= s[i] <= '9'
  }

  function NumberIn(s: string): nat
    requires IsDigits(s)
  {
    if s == [] then 0 else 10 * NumberIn(s[..|s| - 1]) + (s[|s| - 1] as int - '0' as int)
  }

  /** Whether the text reads as a 64-bit unsigned number; a leading plus sign is accepted. */
  predicate IsArity(s: string) {
    var digits := if |s| > 1 && s[0] == '+' then s[1..] else s;
    digits != [] && IsDigits(digits) && NumberIn(digits) < USIZE_LIMIT
  }

  function LastPart(s: string): string {
    AfterLast(AfterLast(s, '/'), ':')
  }

  /** The last non-empty segment between slashes and colons; empty when there is none. */
  function LastSegment(s: string): (r: string)
    ensures Includes(s, r)
  {
    if s == [] then
      assert [] <= s[0..];
      []
    else
      var rest := s[..|s| - 1];
      if s[|s| - 1] in {'/', ':'} then
        IncludedInPrefix(rest, s, LastSegment(rest));
        LastSegment(rest)
      else
        assert LastPart(s) <= s[|s| - |LastPart(s)|..];
        LastPart(s)
  }

  lemma IncludedInPrefix(shorter: string, s: string, part: string)
    requires shorter <= s && Includes(shorter, part)
    ensures Includes(s, part)
  {
    var i :| 0 <= i <= |shorter| && part <= shorter[i..];
    assert shorter[i..] <= s[i..];
  }

  const MODULE := "elixir-module://"
  const CALL := "elixir-call://"
  const PROTO := "proto-method://"
  const GRPC := "grpc://"
  const SOURCE := "/elixir/"

  predicate IsCall(id: string) {
    CALL <= id && var symbol := id[|CALL|..];
    '/' in symbol && IsArity(AfterLast(symbol, '/'))
  }

  function CallName(id: string): string
    requires CALL <= id && '/' in id[|CALL|..]
  {
    var symbol := id[|CALL|..];
    var path, arity := BeforeLast(symbol, '/'), AfterLast(symbol, '/');
    if '/' in path
    then BeforeLast(path, '/') + ['.'] + (AfterLast(path, '/') + ['/'] + arity)
    else path + ['/'] + arity
  }

  function Method(id: string): string {
    if PROTO <= id then id[|PROTO|..] else if GRPC <= id then id[|GRPC|..] else ""
  }

  /** The last part of the service, a dot, and everything behind the first slash. */
  function NameOfMethod(rest: string): string
    requires '/' in rest
  {
    AfterLast(BeforeFirst(rest, '/'), '.') + ['.'] + AfterFirst(rest, '/')
  }

  /** The symbol behind the last `/elixir/`, or the empty text. */
  function Symbol(id: string): string {
    var at := FindLast(id, SOURCE, |id|);
    if at < 0 then "" else id[at + |SOURCE|..]
  }

  predicate IsSourceSymbol(id: string) {
    '/' in Symbol(id) && IsArity(AfterLast(Symbol(id), '/'))
  }

  function SourceName(id: string): string
    requires '/' in Symbol(id)
  {
    AfterLast(BeforeLast(Symbol(id), '/'), '/') + ['/'] + AfterLast(Symbol(id), '/')
  }

  function EntityName(id: string): string {
    if MODULE <= id then id[|MODULE|..]
    else if IsCall(id) then CallName(id)
    else if '/' in Method(id) then NameOfMethod(Method(id))
    else if IsSourceSymbol(id) then SourceName(id)
    else if LastSegment(id) != "" then LastSegment(id)
    else id
  }

  // The names the search scripts derive from an id.

  /** `elixir-call://` with a scope, a function and an arity. */
  predicate IsScopedCall(id: string) {
    CALL <= id && var symbol := id[|CALL|..];
    '/' in symbol && IsNumeral(AfterLast(symbol, '/')) && var path := BeforeLast(symbol, '/');
    '/' in path && BeforeLast(path, '/') != "" && AfterLast(path, '/') != ""
  }

  predicate IsLocalCall(id: string) {
    CALL <= id && var symbol := id[|CALL|..];
    '/' in symbol && IsNumeral(AfterLast(symbol, '/')) && var path := BeforeLast(symbol, '/');
    '/' !in path && path != ""
  }

  predicate IsPlainMethod(id: string) {
    '/' in Method(id) && BeforeFirst(Method(id), '/') != "" && AfterFirst(Method(id), '/') != "" &&
    '/' !in AfterFirst(Method(id), '/')
  }

  /** Somewhere below `/elixir/`, ending in a function and an arity. */
  predicate IsSourceCall(id: string) {
    '/' in id && IsNumeral(AfterLast(id, '/')) && var path := BeforeLast(id, '/');
    '/' in path && AfterLast(path, '/') != "" && Includes(BeforeLast(path, '/') + ['/'], SOURCE)
  }

  function SourceCallName(id: string): string
    requires '/' in id
  {
    AfterLast(BeforeLast(id, '/'), '/') + ['/'] + AfterLast(id, '/')
  }

  predicate IsNumeral(s: string) {
    s != [] && IsDigits(s)
  }

  predicate IsSpecial(id: string) {
    MODULE <= id || IsScopedCall(id) || IsLocalCall(id) || IsPlainMethod(id) || IsSourceCall(id)
  }

  function WithoutSlash(id: string): (r: string)
    ensures r == id || id == r + ['/']
  {
    if id != [] && id[|id| - 1] == '/' then id[..|id| - 1] else id
  }

  /** The last segment, in front of at most one closing slash, if something separates it. */
  function SegmentName(id: string): string {
    var s := WithoutSlash(id);
    var segment := LastPart(s);
    if segment != "" && |segment| < |s| then segment else id
  }

  /** The display names of an id; an id of two special forms has two. */
  function Display(id: string): set<string> {
    (if MODULE <= id then {id[|MODULE|..]} else {}) +
    (if IsScopedCall(id) || IsLocalCall(id) then {CallName(id)} else {}) +
    (if IsPlainMethod(id)
     then {if AfterLast(BeforeFirst(Method(id), '/'), '.') != "" then NameOfMethod(Method(id)) else id}
     else {}) +
    (if IsSourceCall(id) then {SourceCallName(id)} else {}) +
    (if IsSpecial(id) then {} else {SegmentName(id)})
  }

  /** Whether an id ends in a segment that nothing but one slash follows; an id of a single
      segment must not close with a slash either. */
  predicate EndsPlainly(id: string) {
    var s := WithoutSlash(id);
    LastPart(s) != "" && (s == id || |LastPart(s)| < |s|)
  }

  predicate EndsOpen(s: string) {
    s != [] && (s[|s| - 1] == '/' || s[|s| - 1] == ':')
  }

  lemma LastPartEnds(s: string)
    ensures !EndsOpen(LastPart(s))
    ensures LastPart(s) == [] <==> s == [] || EndsOpen(s)
  {
  }

  lemma {:induction false} LastSegmentEnds(s: string)
    ensures !EndsOpen(LastSegment(s))
    decreases |s|
  {
    if s != [] {
      if EndsOpen(s) {
        LastSegmentEnds(s[..|s| - 1]);
      } else {
        LastPartEnds(s);
      }
    }
  }

  lemma PlainSegments(id: string)
    ensures WithoutSlash(id) == id || EndsOpen(id)
    ensures !EndsOpen(id) && id != [] ==> LastSegment(id) == LastPart(id)
    ensures WithoutSlash(id) != id ==> LastSegment(id) == LastSegment(WithoutSlash(id))
  {
  }

  lemma SegmentsAgree(id: string)
    ensures SegmentName(id) == (if LastSegment(id) != "" then LastSegment(id) else id)
      <==> LastSegment(id) == "" || EndsPlainly(id)
  {
    var s := WithoutSlash(id);
    PlainSegments(id);
    LastSegmentEnds(id);
    LastPartEnds(s);
    if s != id && LastPart(s) != "" {
      PlainSegments(s);
      assert |LastPart(s)| <= |s| < |id|;
    }
  }

  lemma PlainEntityName(id: string)
    requires !(MODULE <= id) && !IsCall(id) && '/' !in Method(id) && !IsSourceSymbol(id)
    ensures EntityName(id) == (if LastSegment(id) != "" then LastSegment(id) else id)
  {
  }

  lemma PlainDisplay(id: string)
    requires !IsSpecial(id)
    ensures Display(id) == {SegmentName(id)}
  {
  }

  /** For the ids without a special form the scripts and the service agree on the name exactly
      when the id ends plainly or consists of slashes and colons alone. */
  lemma PlainNamesAgree(id: string)
    requires !IsSpecial(id)
    requires !IsCall(id) && '/' !in Method(id) && !IsSourceSymbol(id)
    ensures Display(id) == {EntityName(id)} <==> LastSegment(id) == "" || EndsPlainly(id)
  {
    PlainEntityName(id);
    PlainDisplay(id);
    SegmentsAgree(id);
    assert SegmentName(id) in Display(id);
  }

  /** A gRPC method whose path has more than one segment. */
  predicate IsNestedMethod(id: string) {
    GRPC <= id && '/' in id[|GRPC|..] && '/' in AfterFirst(id[|GRPC|..], '/')
  }

  lemma NestedMethodName(id: string)
    requires IsNestedMethod(id)
    ensures Method(id) == id[|GRPC|..] && EntityName(id) == NameOfMethod(Method(id))
    ensures !(MODULE <= id) && !IsScopedCall(id) && !IsLocalCall(id) && !IsPlainMethod(id)
  {
    assert id[0] == GRPC[0] == 'g' && MODULE[0] == 'e' && CALL[0] == 'e' && PROTO[0] == 'p';
  }

  lemma NestedMethodDisplay(id: string, name: string)
    requires IsNestedMethod(id) && name in Display(id)
    ensures name == SegmentName(id) || (IsSourceCall(id) && name == SourceCallName(id))
  {
    NestedMethodName(id);
  }

  lemma LongerThan(short: string, path: string)
    requires '/' in path
    ensures '/' in short + ['.'] + path
    ensures forall name :: |name| <= |path| ==> !(short + ['.'] + path <= name)
  {
  }

  lemma NotAPrefix(id: string, short: string, path: string)
    requires GRPC <= id && '/' !in short
    ensures !(short + ['.'] + path <= id)
  {
    var name := short + ['.'] + path;
    assert name[|short|] == '.';
    assert GRPC[5] == '/' == id[5];
    assert |short| > 5 ==> name[5] == short[5];
  }

  lemma LastIsShort(head: string, tail: string)
    ensures |AfterLast(head + ['/'] + tail, '/')| <= |tail|
  {
    var s := head + ['/'] + tail;
    var r := AfterLast(s, '/');
    assert s[|head|] == '/';
    assert forall k | 0 <= k < |r| :: r[k] == s[|s| - |r| + k];
  }

  lemma LastIsUnique(s: string, head: string, tail: string)
    requires s == head + ['/'] + tail && '/' !in tail
    ensures AfterLast(s, '/') == tail && BeforeLast(s, '/') == head
  {
    LastIsShort(head, tail);
    var r := AfterLast(s, '/');
    assert s[|head|] == '/';
    assert forall k | 0 <= k < |tail| :: tail[k] == s[|head| + 1 + k];
  }

  lemma SourceNameIsShort(id: string, head: string, path: string)
    requires id == head + ['/'] + path && '/' in path
    ensures '/' in id && |SourceCallName(id)| <= |path|
  {
    var rest, tail := BeforeLast(path, '/'), AfterLast(path, '/');
    assert id == (head + ['/'] + rest) + ['/'] + tail;
    LastIsUnique(id, head + ['/'] + rest, tail);
    LastIsShort(head, rest);
  }

  lemma SegmentHasNoSlash(id: string, name: string)
    requires '/' in name && !(name <= id)
    ensures !(name <= SegmentName(id))
  {
  }

  lemma NestedMethodParts(id: string) returns (head: string, short: string, path: string)
    requires IsNestedMethod(id)
    ensures id == head + ['/'] + path && '/' in path && '/' !in short
    ensures EntityName(id) == short + ['.'] + path
  {
    NestedMethodName(id);
    var rest := id[|GRPC|..];
    var service := BeforeFirst(rest, '/');
    head, short, path := GRPC + service, AfterLast(service, '.'), AfterFirst(rest, '/');
    SplitMethod(id, GRPC, rest, service, path);
  }

  lemma SplitMethod(id: string, scheme: string, rest: string, service: string, path: string)
    requires scheme <= id && rest == id[|scheme|..] && rest == service + ['/'] + path
    ensures id == scheme + service + ['/'] + path
  {
    assert id == scheme + rest;
  }

  /** Neither a last segment nor a source name of the id starts with the full name. */
  lemma FullNameIsLonger(id: string, head: string, short: string, path: string, name: string)
    requires GRPC <= id && id == head + ['/'] + path && '/' in path && '/' !in short
    requires name == id || name == SegmentName(id) || (IsSourceCall(id) && name == SourceCallName(id))
    ensures !(short + ['.'] + path <= name)
  {
    NotAPrefix(id, short, path);
    LongerThan(short, path);
    if name == SegmentName(id) {
      SegmentHasNoSlash(id, short + ['.'] + path);
    } else {
      SourceNameIsShort(id, head, path);
    }
  }

  /** The service names such a method by its last service segment and the whole path; no script
      does, and the id does not start with that name. */
  lemma NestedMethodsDiffer(id: string, name: string)
    requires IsNestedMethod(id) && (name == id || name in Display(id))
    ensures !(EntityName(id) <= name)
  {
    var head, short, path := NestedMethodParts(id);
    if name != id {
      NestedMethodDisplay(id, name);
    }
    FullNameIsLonger(id, head, short, path, name);
  }

  predicate Matches(id: string, names: set<string>, query: string) {
    query <= id || exists name :: name in names && query <= name
  }

  lemma NestedMethodIsUnnamed(id: string)
    requires IsNestedMethod(id)
    ensures !Matches(id, Display(id), EntityName(id))
  {
    NestedMethodsDiffer(id, id);
    if Matches(id, Display(id), EntityName(id)) {
      var name :| name in Display(id) && EntityName(id) <= name;
      NestedMethodsDiffer(id, name);
    }
  }

  // The prefilter.

  /** The query cut at dots, slashes and colons. */
  function Pieces(query: string): (pieces: seq<string>)
    ensures pieces != []
  {
    if query == [] then [[]]
    else if IsSeparator(query[0]) then [[]] + Pieces(query[1..])
    else var rest := Pieces(query[1..]); [[query[0]] + rest[0]] + rest[1..]
  }

  /** The longest piece, the last of several. */
  function Longest(pieces: seq<string>): (piece: string)
    requires pieces != []
    ensures piece in pieces
    ensures forall p :: p in pieces ==> |p| <= |piece|
  {
    if |pieces| == 1 then pieces[0] else
      var rest := Longest(pieces[1..]);
      if |pieces[0]| > |rest| then pieces[0] else rest
  }

  function Candidate(query: string): string {
    Longest(Pieces(query))
  }

  lemma IncludesThrough(s: string, middle: string, part: string)
    requires Includes(s, middle) && Includes(middle, part)
    ensures Includes(s, part)
  {
    var i :| 0 <= i <= |s| && middle <= s[i..];
    var j :| 0 <= j <= |middle| && part <= middle[j..];
    assert middle[j..] <= s[i..][j..];
    assert s[i..][j..] == s[i + j..];
  }

  lemma {:induction false} PieceIsSolid(query: string, k: nat)
    requires k < |Pieces(query)|
    ensures IsSolid(Pieces(query)[k]) && Includes(query, Pieces(query)[k])
    ensures k == 0 ==> Pieces(query)[0] <= query
  {
    if query == [] {
      assert [] <= query[0..];
    } else {
      var rest := Pieces(query[1..]);
      if IsSeparator(query[0]) {
        if k == 0 {
          assert [] <= query[0..];
        } else {
          PieceIsSolid(query[1..], k - 1);
          assert query[1..] <= query[1..];
          IncludesThrough(query, query[1..], rest[k - 1]);
        }
      } else {
        PieceIsSolid(query[1..], k);
        if k == 0 {
          assert [query[0]] + rest[0] <= query;
          assert query == query[0..];
        } else {
          assert query[1..] <= query[1..];
          IncludesThrough(query, query[1..], rest[k]);
        }
      }
    }
  }

  /** A text without separators that occurs in two texts joined by a separator occurs in one of
      them. */
  lemma SolidStaysWhole(left: string, separator: char, right: string, part: string)
    requires IsSeparator(separator) && IsSolid(part)
    requires Includes(left + [separator] + right, part)
    ensures Includes(left, part) || Includes(right, part)
  {
    var joined := left + [separator] + right;
    var i :| 0 <= i <= |joined| && part <= joined[i..];
    if i > |left| {
      assert joined[i..] == right[i - |left| - 1..];
    } else {
      assert forall k | 0 <= k < |part| :: part[k] == joined[i + k];
      assert joined[i + (|left| - i)] == separator;
      assert part == joined[i..i + |part|] == left[i..i + |part|];
      assert part <= left[i..];
    }
  }

  lemma JoinedIsCut(id: string, left: string, separator: char, right: string, part: string)
    requires IsSeparator(separator) && IsSolid(part)
    requires Includes(left + [separator] + right, part)
    requires Includes(id, left) && Includes(id, right)
    ensures Includes(id, part)
  {
    SolidStaysWhole(left, separator, right, part);
    if Includes(left, part) {
      IncludesThrough(id, left, part);
    } else {
      IncludesThrough(id, right, part);
    }
  }

  lemma LastCutIncluded(s: string, c: char)
    ensures Includes(s, AfterLast(s, c))
    ensures c in s ==> Includes(s, BeforeLast(s, c))
  {
    var tail := AfterLast(s, c);
    assert tail <= s[|s| - |tail|..];
    if c in s {
      assert BeforeLast(s, c) <= s[0..];
    }
  }

  lemma FirstCutIncluded(s: string, c: char)
    ensures Includes(s, BeforeFirst(s, c))
    ensures c in s ==> Includes(s, AfterFirst(s, c))
  {
    assert BeforeFirst(s, c) <= s[0..];
    if c in s {
      assert AfterFirst(s, c) <= s[|BeforeFirst(s, c)| + 1..];
    }
  }

  lemma TailIncluded(id: string, i: nat)
    requires i <= |id|
    ensures Includes(id, id[i..])
  {
  }

  lemma CallNameIsCut(id: string, part: string)
    requires CALL <= id && '/' in id[|CALL|..]
    requires IsSolid(part) && Includes(CallName(id), part)
    ensures Includes(id, part)
  {
    var symbol := id[|CALL|..];
    var path, arity := BeforeLast(symbol, '/'), AfterLast(symbol, '/');
    TailIncluded(id, |CALL|);
    LastCutIncluded(symbol, '/');
    IncludesThrough(id, symbol, path);
    IncludesThrough(id, symbol, arity);
    if '/' in path {
      var scope, name := BeforeLast(path, '/'), AfterLast(path, '/');
      LastCutIncluded(path, '/');
      IncludesThrough(id, path, scope);
      IncludesThrough(id, path, name);
      SolidStaysWhole(scope, '.', name + ['/'] + arity, part);
      if Includes(scope, part) {
        IncludesThrough(id, scope, part);
      } else {
        JoinedIsCut(id, name, '/', arity, part);
      }
    } else {
      JoinedIsCut(id, path, '/', arity, part);
    }
  }

  lemma MethodIncluded(id: string)
    ensures Includes(id, Method(id))
  {
    var rest := Method(id);
    assert rest <= id[|id| - |rest|..];
  }

  lemma MethodNameIsCut(id: string, rest: string, part: string)
    requires Includes(id, rest) && '/' in rest
    requires IsSolid(part) && Includes(NameOfMethod(rest), part)
    ensures Includes(id, part)
  {
    var service, name := BeforeFirst(rest, '/'), AfterFirst(rest, '/');
    FirstCutIncluded(rest, '/');
    LastCutIncluded(service, '.');
    IncludesThrough(id, rest, service);
    IncludesThrough(id, rest, name);
    IncludesThrough(id, service, AfterLast(service, '.'));
    JoinedIsCut(id, AfterLast(service, '.'), '.', name, part);
  }

  lemma SourceNameIsCut(id: string, part: string)
    requires '/' in Symbol(id) && IsSolid(part) && Includes(SourceName(id), part)
    ensures Includes(id, part)
  {
    var symbol := Symbol(id);
    TailIncluded(id, |id| - |symbol|);
    var path, arity := BeforeLast(symbol, '/'), AfterLast(symbol, '/');
    LastCutIncluded(symbol, '/');
    LastCutIncluded(path, '/');
    IncludesThrough(id, symbol, path);
    IncludesThrough(id, symbol, arity);
    IncludesThrough(id, path, AfterLast(path, '/'));
    JoinedIsCut(id, AfterLast(path, '/'), '/', arity, part);
  }

  lemma NameIsCut(id: string, part: string)
    requires IsSolid(part) && Includes(EntityName(id), part)
    ensures Includes(id, part)
  {
    if MODULE <= id {
      TailIncluded(id, |MODULE|);
      IncludesThrough(id, EntityName(id), part);
    } else if IsCall(id) {
      CallNameIsCut(id, part);
    } else if '/' in Method(id) {
      MethodIncluded(id);
      MethodNameIsCut(id, Method(id), part);
    } else if IsSourceSymbol(id) {
      SourceNameIsCut(id, part);
    } else if LastSegment(id) != "" {
      IncludesThrough(id, LastSegment(id), part);
    }
  }

  /** The prefilter loses no match: whatever the id or the name of an entity starts with, its
      longest piece occurs in the id. */
  lemma PrefilterIsLossless(id: string, query: string)
    requires query <= id || query <= EntityName(id)
    ensures Includes(id, Candidate(query))
  {
    var pieces := Pieces(query);
    var k :| 0 <= k < |pieces| && pieces[k] == Longest(pieces);
    PieceIsSolid(query, k);
    if query <= id {
      assert query <= id[0..];
      IncludesThrough(id, query, pieces[k]);
    } else {
      assert query <= EntityName(id)[0..];
      IncludesThrough(EntityName(id), query, pieces[k]);
      NameIsCut(id, pieces[k]);
    }
  }
}
