/** The byte streams that identifiers are hashes of: every field is preceded by its length, so the
    fields can be read back. */
module Framing {
  import opened Graph

  type Byte = b: int | 0 <= b < 256

  const WORD: int := 0x1_0000_0000_0000_0000

  /** A string or byte slice: its length fits a 64-bit word. */
  type Text = t: seq<Byte> | |t| < WORD

  /** The bytes of a text of ASCII characters. */
  function Ascii(text: string): (bytes: seq<Byte>)
    ensures |bytes| == |text|
  {
    if text == "" then [] else [text[0] as int % 256] + Ascii(text[1..])
  }

  function LittleEndian(n: nat, width: nat): (bytes: seq<Byte>)
    ensures |bytes| == width
  {
    if width == 0 then [] else [n % 256] + LittleEndian(n / 256, width - 1)
  }

  function Value(bytes: seq<Byte>): nat {
    if bytes == [] then 0 else bytes[0] + 256 * Value(bytes[1..])
  }

  function Power(width: nat): nat {
    if width == 0 then 1 else 256 * Power(width - 1)
  }

  lemma {:induction false} ValueOfLittleEndian(n: nat, width: nat)
    requires n < Power(width)
    ensures Value(LittleEndian(n, width)) == n
    decreases width
  {
    if width > 0 {
      ValueOfLittleEndian(n / 256, width - 1);
    }
  }

  lemma {:induction false} ValueBelow(bytes: seq<Byte>)
    ensures Value(bytes) < Power(|bytes|)
    decreases |bytes|
  {
    if bytes != [] {
      ValueBelow(bytes[1..]);
    }
  }

  lemma EightBytes()
    ensures Power(8) == WORD
  {
  }

  function Frame(text: Text): seq<Byte> {
    LittleEndian(|text|, 8) + text
  }

  /** The first field of a stream and the rest of it. */
  function Unframe(bytes: seq<Byte>): Option<(Text, seq<Byte>)> {
    if |bytes| < 8 then None
    else
      var n := Value(bytes[..8]);
      if |bytes| < 8 + n then None
      else
        EightBytes();
        ValueBelow(bytes[..8]);
        Some((bytes[8..8 + n], bytes[8 + n..]))
  }

  lemma UnframeFrame(text: Text, rest: seq<Byte>)
    ensures Unframe(Frame(text) + rest) == Some((text, rest))
  {
    var bytes := Frame(text) + rest;
    EightBytes();
    ValueOfLittleEndian(|text|, 8);
    assert bytes[..8] == LittleEndian(|text|, 8);
    assert bytes[8..8 + |text|] == text;
    assert bytes[8 + |text|..] == rest;
  }

  function Frames(texts: seq<Text>): seq<Byte> {
    if texts == [] then [] else Frame(texts[0]) + Frames(texts[1..])
  }

  function UnframeAll(bytes: seq<Byte>): Option<seq<Text>>
    decreases |bytes|
  {
    if bytes == [] then Some([])
    else
      match Unframe(bytes)
      case None => None
      case Some((text, rest)) =>
        match UnframeAll(rest)
        case None => None
        case Some(texts) => Some([text] + texts)
  }

  lemma {:induction false} UnframeAllFrames(texts: seq<Text>)
    ensures UnframeAll(Frames(texts)) == Some(texts)
    decreases |texts|
  {
    if texts != [] {
      UnframeFrame(texts[0], Frames(texts[1..]));
      UnframeAllFrames(texts[1..]);
      assert [texts[0]] + texts[1..] == texts;
    }
  }

  lemma {:induction false} FramesJoin(a: seq<Text>, b: seq<Text>)
    ensures Frames(a + b) == Frames(a) + Frames(b)
    decreases |a|
  {
    if a == [] {
      assert a + b == b;
    } else {
      FramesJoin(a[1..], b);
      assert (a + b)[1..] == a[1..] + b && (a + b)[0] == a[0];
      ConcatAssociates(Frame(a[0]), Frames(a[1..]), Frames(b));
    }
  }

  lemma ConcatAssociates(a: seq<Byte>, b: seq<Byte>, c: seq<Byte>)
    ensures a + (b + c) == (a + b) + c
  {
  }

  lemma FramesOne(text: Text)
    ensures Frames([text]) == Frame(text)
  {
  }

  lemma FramesUpTo(texts: seq<Text>, i: nat)
    requires i < |texts|
    ensures Frames(texts[..i + 1]) == Frames(texts[..i]) + Frame(texts[i])
  {
    assert texts[..i + 1] == texts[..i] + [texts[i]];
    FramesJoin(texts[..i], [texts[i]]);
    FramesOne(texts[i]);
  }

  /** A hash under construction: the bytes it has been fed. */
  class Digest {
    var preimage: seq<Byte>

    constructor ()
      ensures preimage == []
    {
      preimage := [];
    }

    method Update(bytes: seq<Byte>)
      modifies this
      ensures preimage == old(preimage) + bytes
    {
      preimage := preimage + bytes;
    }

    method Framed(text: Text)
      modifies this
      ensures preimage == old(preimage) + Frame(text)
    {
      Update(LittleEndian(|text|, 8));
      Update(text);
    }

    method FramedAll(texts: seq<Text>)
      modifies this
      ensures preimage == old(preimage) + Frames(texts)
    {
      for i := 0 to |texts|
        invariant preimage == old(preimage) + Frames(texts[..i])
      {
        FramesUpTo(texts, i);
        Framed(texts[i]);
      }
      assert texts[..|texts|] == texts;
    }
  }
}
