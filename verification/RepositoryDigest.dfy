/** The fingerprint of a repository state: a version mark, the repository, its head if it has one,
    and the path, kind and content hash of every input. */
module RepositoryDigest {
  import opened Graph
  import opened Framing

  datatype Input = Input(path: Text, kind: Byte, content: Text)

  datatype Repository = Repository(identity: Text, head: Option<Text>, inputs: seq<Input>)

  function HeadBytes(head: Option<Text>): seq<Byte> {
    match head
    case None => [0]
    case Some(text) => [1] + Frame(text)
  }

  function InputBytes(input: Input): seq<Byte> {
    Frame(input.path) + [input.kind] + Frame(input.content)
  }

  function InputsBytes(inputs: seq<Input>): seq<Byte> {
    if inputs == [] then [] else InputBytes(inputs[0]) + InputsBytes(inputs[1..])
  }

  /** What is hashed after a mark, which says what kind of fingerprint this is. */
  function Preimage(mark: seq<Byte>, repository: Repository): seq<Byte> {
    mark + Frame(repository.identity) + HeadBytes(repository.head)
    + InputsBytes(repository.inputs)
  }

  // ---- reading it back ------------------------------------------------------------------------------

  function ReadHead(bytes: seq<Byte>): Option<(Option<Text>, seq<Byte>)> {
    if bytes == [] then None
    else if bytes[0] == 0 then Some((None, bytes[1..]))
    else if bytes[0] != 1 then None
    else
      match Unframe(bytes[1..])
      case None => None
      case Some((text, rest)) => Some((Some(text), rest))
  }

  function ReadInput(bytes: seq<Byte>): (read: Option<(Input, seq<Byte>)>)
    ensures read.Some? ==> |read.value.1| < |bytes|
  {
    match Unframe(bytes)
    case None => None
    case Some((path, rest)) =>
      if rest == [] then None
      else
        match Unframe(rest[1..])
        case None => None
        case Some((content, after)) => Some((Input(path, rest[0], content), after))
  }

  function ReadInputs(bytes: seq<Byte>): Option<seq<Input>>
    decreases |bytes|
  {
    if bytes == [] then Some([])
    else
      match ReadInput(bytes)
      case None => None
      case Some((input, rest)) =>
        match ReadInputs(rest)
        case None => None
        case Some(inputs) => Some([input] + inputs)
  }

  function Read(mark: seq<Byte>, bytes: seq<Byte>): Option<Repository> {
    if !(mark <= bytes) then None
    else
      match Unframe(bytes[|mark|..])
      case None => None
      case Some((identity, afterIdentity)) =>
        match ReadHead(afterIdentity)
        case None => None
        case Some((head, afterHead)) =>
          match ReadInputs(afterHead)
          case None => None
          case Some(inputs) => Some(Repository(identity, head, inputs))
  }

  lemma ReadHeadBytes(head: Option<Text>, rest: seq<Byte>)
    ensures ReadHead(HeadBytes(head) + rest) == Some((head, rest))
  {
    if head.Some? {
      UnframeFrame(head.value, rest);
      ReadHeadText(head.value, Frame(head.value), rest);
    } else {
      assert ([0] + rest)[1..] == rest;
    }
  }

  lemma ReadHeadText(text: Text, field: seq<Byte>, rest: seq<Byte>)
    requires Unframe(field + rest) == Some((text, rest))
    ensures ReadHead([1] + field + rest) == Some((Some(text), rest))
  {
    assert ([1] + field + rest)[1..] == field + rest;
  }

  lemma ReadInputBytes(input: Input, rest: seq<Byte>)
    ensures ReadInput(InputBytes(input) + rest) == Some((input, rest))
  {
    var afterPath := [input.kind] + Frame(input.content) + rest;
    assert InputBytes(input) + rest == Frame(input.path) + afterPath;
    UnframeFrame(input.path, afterPath);
    assert afterPath[1..] == Frame(input.content) + rest;
    UnframeFrame(input.content, rest);
  }

  lemma {:induction false} ReadInputsBytes(inputs: seq<Input>)
    ensures ReadInputs(InputsBytes(inputs)) == Some(inputs)
    decreases |inputs|
  {
    if inputs != [] {
      ReadInputBytes(inputs[0], InputsBytes(inputs[1..]));
      ReadInputsBytes(inputs[1..]);
      ReadOneMore(inputs[0], InputBytes(inputs[0]), InputsBytes(inputs[1..]), inputs[1..]);
      assert [inputs[0]] + inputs[1..] == inputs;
    }
  }

  lemma ReadOneMore(input: Input, bytes: seq<Byte>, rest: seq<Byte>, inputs: seq<Input>)
    requires ReadInput(bytes + rest) == Some((input, rest)) && bytes + rest != []
    requires ReadInputs(rest) == Some(inputs)
    ensures ReadInputs(bytes + rest) == Some([input] + inputs)
  {
  }

  /** The fingerprinted bytes give back the repository they were made of. */
  lemma ReadPreimage(mark: seq<Byte>, repository: Repository)
    ensures Read(mark, Preimage(mark, repository)) == Some(repository)
  {
    var inputs := InputsBytes(repository.inputs);
    var afterIdentity := HeadBytes(repository.head) + inputs;
    assert Preimage(mark, repository)[|mark|..] == Frame(repository.identity) + afterIdentity;
    UnframeFrame(repository.identity, afterIdentity);
    ReadHeadBytes(repository.head, inputs);
    ReadInputsBytes(repository.inputs);
  }

  /** Repository states with different content hash different bytes. */
  lemma PreimageIsInjective(mark: seq<Byte>, a: Repository, b: Repository)
    requires Preimage(mark, a) == Preimage(mark, b)
    ensures a == b
  {
    ReadPreimage(mark, a);
    ReadPreimage(mark, b);
  }

  // ---- writing it -----------------------------------------------------------------------------------

  lemma {:induction false} InputsBytesJoin(a: seq<Input>, b: seq<Input>)
    ensures InputsBytes(a + b) == InputsBytes(a) + InputsBytes(b)
    decreases |a|
  {
    if a == [] {
      assert a + b == b;
    } else {
      InputsBytesJoin(a[1..], b);
      assert (a + b)[1..] == a[1..] + b;
      Together(InputBytes(a[0]), InputsBytes(a[1..]), InputsBytes(b));
    }
  }

  lemma Together(a: seq<Byte>, b: seq<Byte>, c: seq<Byte>)
    ensures (a + b) + c == a + (b + c)
  {
  }

  lemma InputsUpTo(inputs: seq<Input>, i: nat)
    requires i < |inputs|
    ensures InputsBytes(inputs[..i + 1]) == InputsBytes(inputs[..i]) + InputBytes(inputs[i])
  {
    assert inputs[..i + 1] == inputs[..i] + [inputs[i]];
    InputsBytesJoin(inputs[..i], [inputs[i]]);
    InputsBytesOne(inputs[i]);
  }

  lemma InputsBytesOne(input: Input)
    ensures InputsBytes([input]) == InputBytes(input)
  {
  }

  method FeedInput(digest: Digest, input: Input)
    modifies digest
    ensures digest.preimage == old(digest.preimage) + InputBytes(input)
  {
    digest.Framed(input.path);
    digest.Update([input.kind]);
    digest.Framed(input.content);
  }

  method FeedInputs(digest: Digest, inputs: seq<Input>)
    modifies digest
    ensures digest.preimage == old(digest.preimage) + InputsBytes(inputs)
  {
    for i := 0 to |inputs|
      invariant digest.preimage == old(digest.preimage) + InputsBytes(inputs[..i])
    {
      InputsUpTo(inputs, i);
      FeedInput(digest, inputs[i]);
    }
    assert inputs[..|inputs|] == inputs;
  }

  method FeedHead(digest: Digest, head: Option<Text>)
    modifies digest
    ensures digest.preimage == old(digest.preimage) + HeadBytes(head)
  {
    digest.Update([if head.Some? then 1 else 0]);
    if head.Some? {
      digest.Framed(head.value);
    }
  }

  method Feed(digest: Digest, mark: seq<Byte>, repository: Repository)
    requires digest.preimage == []
    modifies digest
    ensures digest.preimage == Preimage(mark, repository)
  {
    digest.Update(mark);
    assert digest.preimage == mark;
    digest.Framed(repository.identity);
    FeedHead(digest, repository.head);
    FeedInputs(digest, repository.inputs);
  }

  function Mark(): seq<Byte> {
    Ascii("beholder-repository-content-v1")
  }

  method Fingerprint(identity: Text, head: Option<Text>, inputs: seq<Input>)
    returns (digest: Digest)
    ensures digest.preimage == Preimage(Mark(), Repository(identity, head, inputs))
  {
    digest := new Digest();
    var mark := Mark();
    Feed(digest, mark, Repository(identity, head, inputs));
  }
}
