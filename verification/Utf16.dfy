/** Source positions: bytes of UTF-8 on one side, lines and UTF-16 code units on the other. */
module Utf16 {
  import opened Graph
  import opened Framing

  /** A decoded character and how many bytes it took; a byte that starts none counts by itself. */
  datatype Rune = Rune(value: nat, width: nat)

  const REPLACEMENT := Rune(0xFFFD, 1)

  /** A Unicode scalar value: any code point that is no surrogate. */
  type Scalar = c: int | 0 <= c < 0xD800 || 0xE000 <= c < 0x110000

  function Encode(c: Scalar): (bytes: seq<Byte>)
    ensures 1 <= |bytes| <= 4
  {
    if c < 0x80 then [c]
    else if c < 0x800 then [0xC0 + c / 64, 0x80 + c % 64]
    else if c < 0x10000 then [0xE0 + c / 4096, 0x80 + c / 64 % 64, 0x80 + c % 64]
    else
      assert c < 0x110000 && c / 262144 <= 4;
      [0xF0 + c / 262144, 0x80 + c / 4096 % 64, 0x80 + c / 64 % 64, 0x80 + c % 64]
  }

  function EncodeAll(scalars: seq<Scalar>): seq<Byte> {
    if scalars == [] then [] else Encode(scalars[0]) + EncodeAll(scalars[1..])
  }

  predicate Continues(b: Byte) {
    0x80 <= b < 0xC0
  }

  predicate SecondOfThree(first: Byte, b: Byte) {
    if first == 0xE0 then 0xA0 <= b < 0xC0
    else if first == 0xED then 0x80 <= b < 0xA0
    else Continues(b)
  }

  predicate SecondOfFour(first: Byte, b: Byte) {
    if first == 0xF0 then 0x90 <= b < 0xC0
    else if first == 0xF4 then 0x80 <= b < 0x90
    else Continues(b)
  }

  /** What a byte adds over the mark it carries. */
  function Over(b: Byte, mark: nat): nat
    requires mark <= b
  {
    var value: int := b;
    value - mark
  }

  function Decode(bytes: seq<Byte>): (rune: Rune)
    requires bytes != []
    ensures 1 <= rune.width <= |bytes|
  {
    var b := bytes[0];
    if b < 0x80 then Rune(b, 1)
    else if 0xC2 <= b < 0xE0 && |bytes| >= 2 && Continues(bytes[1])
    then Rune(Over(b, 0xC0) * 64 + Over(bytes[1], 0x80), 2)
    else if 0xE0 <= b < 0xF0 && |bytes| >= 3 && SecondOfThree(b, bytes[1]) && Continues(bytes[2])
    then Rune(Over(b, 0xE0) * 4096 + Over(bytes[1], 0x80) * 64 + Over(bytes[2], 0x80), 3)
    else if 0xF0 <= b < 0xF5 && |bytes| >= 4 && SecondOfFour(b, bytes[1])
            && Continues(bytes[2]) && Continues(bytes[3])
    then Rune(Over(b, 0xF0) * 262144 + Over(bytes[1], 0x80) * 4096 + Over(bytes[2], 0x80) * 64
              + Over(bytes[3], 0x80), 4)
    else REPLACEMENT
  }

  function Runes(bytes: seq<Byte>): seq<Rune> {
    if bytes == [] then [] else [Decode(bytes)] + Runes(bytes[Decode(bytes).width..])
  }

  /** Code units of one character. */
  function RuneLen(value: nat): nat {
    if value < 0x10000 then 1 else 2
  }

  function Units(runes: seq<Rune>): nat {
    if runes == [] then 0 else Units(runes[..|runes| - 1]) + RuneLen(runes[|runes| - 1].value)
  }

  function Width(runes: seq<Rune>): nat {
    if runes == [] then 0 else Width(runes[..|runes| - 1]) + runes[|runes| - 1].width
  }

  // ---- decoding what was encoded --------------------------------------------------------------------------

  lemma TwoBytes(c: Scalar)
    requires 0x80 <= c < 0x800
    ensures 0xC2 <= 0xC0 + c / 64 < 0xE0 && c / 64 * 64 + c % 64 == c
  {
  }

  lemma ThreeBytes(c: Scalar)
    requires 0x800 <= c < 0x10000
    ensures c / 4096 < 16 && c / 64 % 64 < 64
    ensures c / 4096 * 4096 + c / 64 % 64 * 64 + c % 64 == c
    ensures c / 4096 == 0 ==> 0x20 <= c / 64 % 64
    ensures c / 4096 == 13 ==> c / 64 % 64 < 0x20
  {
  }

  lemma FourBytes(c: Scalar)
    requires 0x10000 <= c
    ensures c / 262144 <= 4 && c / 4096 % 64 < 64 && c / 64 % 64 < 64
    ensures c / 262144 * 262144 + c / 4096 % 64 * 4096 + c / 64 % 64 * 64 + c % 64 == c
    ensures c / 262144 == 0 ==> 0x10 <= c / 4096 % 64
    ensures c / 262144 == 4 ==> c / 4096 % 64 < 0x10
  {
    assert c < 0x110000;
    assert c / 64 / 64 == c / 4096 && c / 4096 / 64 == c / 262144;
    assert c / 64 == c / 4096 * 64 + c / 64 % 64;
    assert c / 4096 == c / 262144 * 64 + c / 4096 % 64;
  }

  lemma DecodeEncode(c: Scalar, rest: seq<Byte>)
    ensures Decode(Encode(c) + rest) == Rune(c, |Encode(c)|)
  {
    var bytes := Encode(c) + rest;
    assert forall i :: 0 <= i < |Encode(c)| ==> bytes[i] == Encode(c)[i];
    if c < 0x80 {
    } else if c < 0x800 {
      TwoBytes(c);
    } else if c < 0x10000 {
      ThreeBytes(c);
    } else {
      FourBytes(c);
    }
  }

  function Decoded(scalars: seq<Scalar>): (runes: seq<Rune>)
    ensures |runes| == |scalars|
  {
    if scalars == [] then []
    else [Rune(scalars[0], |Encode(scalars[0])|)] + Decoded(scalars[1..])
  }

  lemma {:induction false} RunesOfEncoded(scalars: seq<Scalar>)
    ensures Runes(EncodeAll(scalars)) == Decoded(scalars)
    decreases |scalars|
  {
    if scalars != [] {
      var rest := EncodeAll(scalars[1..]);
      DecodeEncode(scalars[0], rest);
      RunesOfEncoded(scalars[1..]);
      assert EncodeAll(scalars)[|Encode(scalars[0])|..] == rest;
    }
  }

  lemma {:induction false} WidthJoin(a: seq<Rune>, b: seq<Rune>)
    ensures Width(a + b) == Width(a) + Width(b)
    ensures Units(a + b) == Units(a) + Units(b)
    decreases |b|
  {
    if b == [] {
      assert a + b == a;
    } else {
      WidthJoin(a, b[..|b| - 1]);
      assert (a + b)[..|a + b| - 1] == a + b[..|b| - 1];
    }
  }

  lemma {:induction false} WidthOfDecoded(scalars: seq<Scalar>)
    ensures Width(Decoded(scalars)) == |EncodeAll(scalars)|
    decreases |scalars|
  {
    if scalars != [] {
      var one := [Rune(scalars[0], |Encode(scalars[0])|)];
      WidthOfDecoded(scalars[1..]);
      WidthJoin(one, Decoded(scalars[1..]));
      assert one[..0] == [] && Width(one) == |Encode(scalars[0])|;
    }
  }

  // ---- from code units to bytes -------------------------------------------------------------------------

  datatype Offset = At(byte: nat) | Splits | Outside

  /** `units` is where the first `i` characters end. */
  predicate EndsAt(runes: seq<Rune>, units: int, i: int) {
    0 <= i <= |runes| && Units(runes[..i]) == units
  }

  predicate Passes(runes: seq<Rune>, units: int) {
    units > Units(runes) || (units < 0 && runes == [])
  }

  /** The byte where exactly so many units end; failing that, whether they pass the end. */
  ghost predicate IsOffset(runes: seq<Rune>, units: int, offset: Offset) {
    match offset
    case At(byte) => exists i :: EndsAt(runes, units, i) && byte == Width(runes[..i])
    case Splits => (forall i :: !EndsAt(runes, units, i)) && !Passes(runes, units)
    case Outside => (forall i :: !EndsAt(runes, units, i)) && Passes(runes, units)
  }

  /** A scan that has read `seen` and not met the position yet. */
  ghost predicate Scanning(line: seq<Byte>, units: int, index: nat, count: nat, seen: seq<Rune>) {
    && index <= |line| && Runes(line) == seen + Runes(line[index..])
    && count == Units(seen) && index == Width(seen)
    && (count <= units || seen == [])
  }

  lemma {:induction false} UnitsGrow(runes: seq<Rune>, i: nat, j: nat)
    requires i < j <= |runes|
    ensures Units(runes[..i]) < Units(runes[..j])
    decreases j
  {
    assert runes[..j][..j - 1] == runes[..j - 1];
    if i < j - 1 {
      UnitsGrow(runes, i, j - 1);
    }
  }

  lemma OneMoreRune(seen: seq<Rune>, rune: Rune)
    ensures Units(seen + [rune]) == Units(seen) + RuneLen(rune.value)
    ensures Width(seen + [rune]) == Width(seen) + rune.width
  {
  }

  lemma Regroup<T>(all: seq<T>, seen: seq<T>, next: T, rest: seq<T>)
    requires all == seen + ([next] + rest)
    ensures all == seen + [next] + rest
    ensures all[..|seen|] == seen && all[..|seen| + 1] == seen + [next] && |seen| < |all|
  {
  }

  lemma NextRunes(line: seq<Byte>, index: nat)
    requires index < |line|
    ensures var rune := Decode(line[index..]);
            Runes(line[index..]) == [rune] + Runes(line[index + rune.width..])
  {
    var rune := Decode(line[index..]);
    assert line[index..][rune.width..] == line[index + rune.width..];
  }

  lemma ScanFound(line: seq<Byte>, units: int, index: nat, count: nat, seen: seq<Rune>)
    requires Scanning(line, units, index, count, seen) && count == units
    ensures IsOffset(Runes(line), units, At(index))
  {
    assert Runes(line)[..|seen|] == seen;
    assert EndsAt(Runes(line), units, |seen|);
  }

  lemma ScanRune(line: seq<Byte>, units: int, index: nat, count: nat, seen: seq<Rune>, rune: Rune)
    requires Scanning(line, units, index, count, seen) && count != units
    requires index + rune.width <= |line|
    requires Runes(line[index..]) == [rune] + Runes(line[index + rune.width..])
    ensures if count + RuneLen(rune.value) > units then IsOffset(Runes(line), units, Splits)
            else Scanning(line, units, index + rune.width, count + RuneLen(rune.value),
                          seen + [rune])
  {
    OneMoreRune(seen, rune);
    Regroup(Runes(line), seen, rune, Runes(line[index + rune.width..]));
    if count + RuneLen(rune.value) > units {
      SplitHere(Runes(line), units, |seen|);
    }
  }

  lemma ScanEnds(line: seq<Byte>, units: int, count: nat, seen: seq<Rune>)
    requires Scanning(line, units, |line|, count, seen) && count != units
    ensures IsOffset(Runes(line), units, Outside)
  {
    assert line[|line|..] == [] && Runes(line) == seen;
    forall i | 0 <= i <= |seen|
      ensures Units(Runes(line)[..i]) != units
    {
      TotalUnits(seen, i);
    }
  }

  /** The byte where the given number of code units ends. */
  method Utf16ByteOffset(line: seq<Byte>, units: int) returns (offset: Offset)
    ensures IsOffset(Runes(line), units, offset)
    ensures offset.At? ==> offset.byte <= |line|
  {
    var count: nat, index: nat := 0, 0;
    ghost var seen: seq<Rune> := [];
    assert line[0..] == line;
    while index < |line|
      invariant Scanning(line, units, index, count, seen)
      decreases |line| - index
    {
      if count == units {
        ScanFound(line, units, index, count, seen);
        return At(index);
      }
      var rune := Decode(line[index..]);
      NextRunes(line, index);
      ScanRune(line, units, index, count, seen, rune);
      count := count + RuneLen(rune.value);
      if count > units {
        return Splits;
      }
      index, seen := index + rune.width, seen + [rune];
    }
    if count == units {
      ScanFound(line, units, index, count, seen);
      return At(|line|);
    }
    ScanEnds(line, units, count, seen);
    offset := Outside;
  }

  lemma TotalUnits(runes: seq<Rune>, i: nat)
    requires i <= |runes|
    ensures Units(runes[..i]) <= Units(runes)
  {
    assert runes[..|runes|] == runes;
    if i < |runes| {
      UnitsGrow(runes, i, |runes|);
    }
  }

  /** Between the ends of two neighbouring characters nothing ends. */
  lemma SplitHere(runes: seq<Rune>, units: int, i: nat)
    requires i < |runes| && units < Units(runes[..i + 1])
    requires Units(runes[..i]) < units || (i == 0 && units != 0)
    ensures forall j :: !EndsAt(runes, units, j)
    ensures !Passes(runes, units)
  {
    TotalUnits(runes, i + 1);
    forall j | 0 <= j <= |runes|
      ensures Units(runes[..j]) != units
    {
      if j < i {
        UnitsGrow(runes, j, i);
      } else if j > i + 1 {
        UnitsGrow(runes, i + 1, j);
      }
    }
  }

  /** There is one answer for every position. */
  lemma OffsetIsUnique(runes: seq<Rune>, units: int, a: Offset, b: Offset)
    requires IsOffset(runes, units, a) && IsOffset(runes, units, b)
    ensures a == b
  {
    if a.At? && b.At? {
      var i :| EndsAt(runes, units, i) && a.byte == Width(runes[..i]);
      var j :| EndsAt(runes, units, j) && b.byte == Width(runes[..j]);
      if i < j {
        UnitsGrow(runes, i, j);
      } else if j < i {
        UnitsGrow(runes, j, i);
      }
    }
  }

  // ---- positions ----------------------------------------------------------------------------------------

  const NEWLINE: Byte := 10

  function Split(bytes: seq<Byte>): (lines: seq<seq<Byte>>)
    ensures lines != []
  {
    if bytes == [] then [[]]
    else if bytes[|bytes| - 1] == NEWLINE then Split(bytes[..|bytes| - 1]) + [[]]
    else
      var before := Split(bytes[..|bytes| - 1]);
      before[|before| - 1 := before[|before| - 1] + [bytes[|bytes| - 1]]]
  }

  function LineStart(prefix: seq<Byte>): (start: nat)
    ensures start <= |prefix|
  {
    if prefix == [] then 0
    else if prefix[|prefix| - 1] == NEWLINE then |prefix|
    else LineStart(prefix[..|prefix| - 1])
  }

  function Newlines(bytes: seq<Byte>): nat {
    if bytes == [] then 0
    else Newlines(bytes[..|bytes| - 1]) + if bytes[|bytes| - 1] == NEWLINE then 1 else 0
  }

  datatype Position = Position(line: nat, character: nat)

  const MAX_U32 := 0xFFFF_FFFF

  function Saturate(n: nat): nat {
    if n <= MAX_U32 then n else MAX_U32
  }

  /** Line and character of a byte, counted in what precedes it. */
  function BytePosition(source: seq<Byte>, byte: nat): Position
    requires byte <= |source|
  {
    var prefix := source[..byte];
    var start := LineStart(prefix);
    Position(Saturate(Newlines(prefix[..start])), Saturate(Units(Runes(prefix[start..]))))
  }

  lemma {:induction false} LastLine(bytes: seq<Byte>)
    ensures |Split(bytes)| == Newlines(bytes) + 1
    ensures Newlines(bytes[..LineStart(bytes)]) == Newlines(bytes)
    ensures Split(bytes)[|Split(bytes)| - 1] == bytes[LineStart(bytes)..]
    decreases |bytes|
  {
    if bytes != [] {
      var front := bytes[..|bytes| - 1];
      LastLine(front);
      if bytes[|bytes| - 1] == NEWLINE {
        assert bytes[..|bytes|] == bytes;
      } else {
        assert bytes[..LineStart(bytes)] == front[..LineStart(front)];
        assert bytes[LineStart(bytes)..] == front[LineStart(front)..] + [bytes[|bytes| - 1]];
      }
    }
  }

  /** More bytes only extend the last line and add lines after it. */
  lemma {:induction false} SplitExtends(prefix: seq<Byte>, rest: seq<Byte>)
    ensures var (lines, all) := (Split(prefix), Split(prefix + rest));
            && |lines| <= |all| && all[..|lines| - 1] == lines[..|lines| - 1]
            && lines[|lines| - 1] <= all[|lines| - 1]
    decreases |rest|
  {
    if rest == [] {
      assert prefix + rest == prefix;
    } else {
      SplitExtends(prefix, rest[..|rest| - 1]);
      assert (prefix + rest)[..|prefix + rest| - 1] == prefix + rest[..|rest| - 1];
    }
  }

  lemma {:induction false} EncodeAllJoin(a: seq<Scalar>, b: seq<Scalar>)
    ensures EncodeAll(a + b) == EncodeAll(a) + EncodeAll(b)
    decreases |a|
  {
    if a == [] {
      assert a + b == b;
    } else {
      EncodeAllJoin(a[1..], b);
      assert (a + b)[1..] == a[1..] + b && (a + b)[0] == a[0];
      Associate(Encode(a[0]), EncodeAll(a[1..]), EncodeAll(b));
    }
  }

  lemma Associate<T>(a: seq<T>, b: seq<T>, c: seq<T>)
    ensures a + b + c == a + (b + c)
    ensures (a + (b + c))[|a|..] == b + c
  {
  }

  lemma FirstRune(bytes: seq<Byte>, rune: Rune, after: seq<Byte>)
    requires bytes != [] && Decode(bytes) == rune && bytes[rune.width..] == after
    ensures Runes(bytes) == [rune] + Runes(after)
  {
  }

  lemma {:induction false} RunesOfValid(scalars: seq<Scalar>, rest: seq<Byte>)
    ensures Runes(EncodeAll(scalars) + rest) == Decoded(scalars) + Runes(rest)
    decreases |scalars|
  {
    if scalars == [] {
      assert EncodeAll(scalars) + rest == rest;
    } else {
      var code, after := Encode(scalars[0]), EncodeAll(scalars[1..]) + rest;
      Associate(code, EncodeAll(scalars[1..]), rest);
      DecodeEncode(scalars[0], after);
      RunesOfValid(scalars[1..], rest);
      FirstRune(code + after, Rune(scalars[0], |code|), after);
    }
  }

  /** Only the newline character has a newline byte. */
  lemma NewlineByte(c: Scalar)
    ensures c != 10 ==> NEWLINE !in Encode(c)
    ensures c == 10 ==> Encode(c) == [NEWLINE]
  {
  }

  lemma {:induction false} LineStartSkips(prefix: seq<Byte>, tail: seq<Byte>)
    requires NEWLINE !in tail
    ensures LineStart(prefix + tail) == LineStart(prefix)
    decreases |tail|
  {
    if tail == [] {
      assert prefix + tail == prefix;
    } else {
      LineStartSkips(prefix, tail[..|tail| - 1]);
      assert (prefix + tail)[..|prefix + tail| - 1] == prefix + tail[..|tail| - 1];
    }
  }

  /** The last line of valid text is valid text. */
  lemma {:induction false} LastLineIsValid(scalars: seq<Scalar>) returns (line: seq<Scalar>)
    ensures EncodeAll(scalars)[LineStart(EncodeAll(scalars))..] == EncodeAll(line)
    decreases |scalars|
  {
    if scalars == [] {
      line := [];
    } else {
      var front, last := scalars[..|scalars| - 1], scalars[|scalars| - 1];
      EncodeAllJoin(front, [last]);
      assert front + [last] == scalars;
      OneScalar(last);
      NewlineByte(last);
      if last == 10 {
        line := [];
      } else {
        var before := LastLineIsValid(front);
        LastLineGrows(EncodeAll(front), Encode(last));
        EncodeAllJoin(before, [last]);
        line := before + [last];
      }
    }
  }

  lemma LastLineGrows(bytes: seq<Byte>, code: seq<Byte>)
    requires NEWLINE !in code
    ensures (bytes + code)[LineStart(bytes + code)..] == bytes[LineStart(bytes)..] + code
  {
    LineStartSkips(bytes, code);
  }

  lemma OneScalar(c: Scalar)
    ensures EncodeAll([c]) == Encode(c)
  {
  }

  /** The position of a character boundary leads back to it: its line is the line it is on, and
      its character offset ends at its byte, whatever follows it in the source. */
  lemma PositionLeadsBack(source: seq<Byte>, byte: nat, before: seq<Scalar>)
    requires byte <= |source| <= MAX_U32 && source[..byte] == EncodeAll(before)
    ensures var position := BytePosition(source, byte);
            && position.line < |Split(source)|
            && IsOffset(Runes(Split(source)[position.line]), position.character,
                        At(byte - LineStart(source[..byte])))
  {
    var prefix := source[..byte];
    var scalars := LastLineIsValid(before);
    var more := LineHolds(source, byte);
    SmallCounts(prefix, LineStart(prefix));
    BoundaryIsOffset(scalars, more);
  }

  /** What precedes a byte on its line is the front of that line of the whole source. */
  lemma LineHolds(source: seq<Byte>, byte: nat) returns (more: seq<Byte>)
    requires byte <= |source|
    ensures Newlines(source[..byte]) < |Split(source)|
    ensures Split(source)[Newlines(source[..byte])]
         == source[..byte][LineStart(source[..byte])..] + more
    ensures Newlines(source[..byte][..LineStart(source[..byte])]) == Newlines(source[..byte])
  {
    var prefix := source[..byte];
    assert prefix + source[byte..] == source;
    LastLine(prefix);
    SplitExtends(prefix, source[byte..]);
    var current, line := prefix[LineStart(prefix)..], Split(source)[Newlines(prefix)];
    more := line[|current|..];
  }

  /** Valid text at the front of a line ends at its own length. */
  lemma BoundaryIsOffset(scalars: seq<Scalar>, more: seq<Byte>)
    ensures IsOffset(Runes(EncodeAll(scalars) + more), Units(Runes(EncodeAll(scalars))),
                     At(|EncodeAll(scalars)|))
  {
    RunesOfEncoded(scalars);
    WidthOfDecoded(scalars);
    RunesOfValid(scalars, more);
    FrontEndsAt(Decoded(scalars), Runes(more));
  }

  lemma FrontEndsAt(front: seq<Rune>, rest: seq<Rune>)
    ensures IsOffset(front + rest, Units(front), At(Width(front)))
  {
    assert (front + rest)[..|front|] == front;
    assert EndsAt(front + rest, Units(front), |front|);
  }

  lemma {:induction false} CountsBounded(bytes: seq<Byte>)
    ensures Newlines(bytes) <= |bytes|
    decreases |bytes|
  {
    if bytes != [] {
      CountsBounded(bytes[..|bytes| - 1]);
    }
  }

  lemma {:induction false} UnitsBounded(bytes: seq<Byte>)
    ensures Units(Runes(bytes)) <= |bytes|
    decreases |bytes|
  {
    if bytes != [] {
      var rune := Decode(bytes);
      var rest := Runes(bytes[rune.width..]);
      UnitsBounded(bytes[rune.width..]);
      WidthJoin([rune], rest);
      assert [rune][..0] == [];
      assert rune.width < 4 ==> rune.value < 0x10000;
    }
  }

  lemma SmallCounts(prefix: seq<Byte>, start: nat)
    requires start <= |prefix| <= MAX_U32
    ensures Saturate(Newlines(prefix[..start])) == Newlines(prefix[..start])
    ensures Saturate(Units(Runes(prefix[start..]))) == Units(Runes(prefix[start..]))
  {
    CountsBounded(prefix[..start]);
    UnitsBounded(prefix[start..]);
  }

  /** What two character offsets of a line pick out of it. */
  ghost predicate Picks(line: seq<Byte>, from: nat, to: nat, text: Option<seq<Byte>>) {
    exists a, b {:trigger IsOffset(Runes(line), from, a), IsOffset(Runes(line), to, b)} ::
      && IsOffset(Runes(line), from, a) && IsOffset(Runes(line), to, b)
      && text == if a.At? && b.At? && a.byte <= b.byte <= |line| then Some(line[a.byte..b.byte])
                 else None
  }

  /** The bytes between two positions of one line, and nothing for any other range. */
  ghost predicate IsSelection(content: seq<Byte>, start: Position, end: Position,
                              text: Option<seq<Byte>>)
  {
    if start.line != end.line || start.line >= |Split(content)| then text == None
    else Picks(Split(content)[start.line], start.character, end.character, text)
  }

  method SelectedText(content: seq<Byte>, start: Position, end: Position)
    returns (text: Option<seq<Byte>>)
    ensures IsSelection(content, start, end, text)
  {
    if start.line != end.line {
      return None;
    }
    var lines := Split(content);
    if start.line >= |lines| {
      return None;
    }
    var line := lines[start.line];
    var first := Utf16ByteOffset(line, start.character);
    var last := Utf16ByteOffset(line, end.character);
    if !first.At? || !last.At? || last.byte < first.byte {
      return None;
    }
    text := Some(line[first.byte..last.byte]);
  }

  /** The positions of two boundaries on one line select exactly the bytes between them. */
  lemma SelectionLeadsBack(source: seq<Byte>, from: nat, to: nat, before: seq<Scalar>,
                           beforeEnd: seq<Scalar>, text: Option<seq<Byte>>)
    requires from <= to <= |source| <= MAX_U32
    requires source[..from] == EncodeAll(before) && source[..to] == EncodeAll(beforeEnd)
    requires LineStart(source[..from]) == LineStart(source[..to])
    requires IsSelection(source, BytePosition(source, from), BytePosition(source, to), text)
    ensures text == Some(source[from..to])
  {
    var start := LineStart(source[..to]);
    var first, last := BytePosition(source, from), BytePosition(source, to);
    PositionLeadsBack(source, from, before);
    PositionLeadsBack(source, to, beforeEnd);
    var more := SameLine(source, from, to);
    var line := Split(source)[first.line];
    LineSlice(source, line, more, start, from, to);
    PicksBetween(line, first.character, last.character, from - start, to - start, text);
  }

  lemma PicksBetween(line: seq<Byte>, from: nat, to: nat, x: nat, y: nat,
                     text: Option<seq<Byte>>)
    requires Picks(line, from, to, text) && x <= y <= |line|
    requires IsOffset(Runes(line), from, At(x)) && IsOffset(Runes(line), to, At(y))
    ensures text == Some(line[x..y])
  {
    var a, b :| && IsOffset(Runes(line), from, a) && IsOffset(Runes(line), to, b)
                && text == if a.At? && b.At? && a.byte <= b.byte <= |line|
                           then Some(line[a.byte..b.byte]) else None;
    OffsetIsUnique(Runes(line), from, a, At(x));
    OffsetIsUnique(Runes(line), to, b, At(y));
  }

  lemma LineSlice<T>(source: seq<T>, line: seq<T>, more: seq<T>, start: nat, from: nat, to: nat)
    requires start <= from <= to <= |source| && line == source[..to][start..] + more
    ensures to - start <= |line| && line[from - start..to - start] == source[from..to]
  {
  }

  lemma SameLine(source: seq<Byte>, from: nat, to: nat) returns (more: seq<Byte>)
    requires from <= to <= |source| <= MAX_U32
    requires LineStart(source[..from]) == LineStart(source[..to])
    ensures BytePosition(source, from).line == BytePosition(source, to).line
    ensures BytePosition(source, to).line < |Split(source)|
    ensures Split(source)[BytePosition(source, to).line]
         == source[..to][LineStart(source[..to])..] + more
  {
    var start := LineStart(source[..to]);
    assert source[..from][..start] == source[..to][..start];
    more := LineHolds(source, to);
    SmallCounts(source[..to], start);
  }
}
