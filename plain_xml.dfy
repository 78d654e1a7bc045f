/** Text of a plain XML document: the trimmed character data of the document, each
    non-blank piece followed by one space. */
module PlainXml {
  import opened Bytes
  import opened Wrappers
  import opened Strings
  import opened XmlTokens
  import opened Sources

  const Space: byte := 32

  /** What one token adds: its trimmed character data and a space, when that is not
      empty. */
  function Word(t: Token): seq<byte> {
    if t.CharData? && TrimSpace(t.data) != [] then TrimSpace(t.data) + [Space] else []
  }

  /** The text built from `tokens`, token by token. */
  function XmlWords(tokens: seq<Token>): seq<byte> {
    Concat(Word, tokens)
  }

  /** The text of the XML file at `path`, or the error of opening it. */
  function XmlFileText(fs: FileSystem, path: seq<byte>): Result<seq<byte>> {
    match fs.openXml(path)
    case Err(e) => Err(e)
    case Ok(stream) => Ok(XmlWords(stream.tokens))
  }

  /** Only an open failure is an error; a stream that ends in a decode error still
      gives the text of the tokens before it. */
  lemma {:induction false} XmlOutcome(fs: FileSystem, path: seq<byte>)
    ensures XmlFileText(fs, path).Err? <==> fs.openXml(path).Err?
    ensures fs.openXml(path).Err? ==> XmlFileText(fs, path) == Err(fs.openXml(path).error)
    ensures fs.openXml(path).Ok? ==> XmlFileText(fs, path) == Ok(XmlWords(fs.openXml(path).value.tokens))
  {
  }

  /** `xmlExt.Extract`: an open failure is an error; a decode error ends the text
      early but is not reported. */
  method Extract(fs: FileSystem, path: seq<byte>) returns (r: Result<seq<byte>>)
    ensures r == XmlFileText(fs, path)
  {
    var f := fs.openXml(path);
    if f.Err? {
      return Err(f.error);
    }
    var stream := f.value;
    var sb: seq<byte> := [];
    var i := 0;
    while true
      invariant 0 <= i <= |stream.tokens|
      invariant sb == XmlWords(stream.tokens[..i])
      decreases |stream.tokens| - i
    {
      if i == |stream.tokens| {
        assert stream.tokens[..i] == stream.tokens;
        if !stream.failed {
          break;
        }
        return Ok(sb);
      }
      var tok := stream.tokens[i];
      assert stream.tokens[..i + 1][..i] == stream.tokens[..i];
      if tok.CharData? {
        var txt := TrimSpace(tok.data);
        if txt != [] {
          sb := sb + txt;
          sb := sb + [Space];
        }
      }
      i := i + 1;
    }
    r := Ok(sb);
  }

  /** The trimmed texts of the non-blank character data of `tokens`, in stream order. */
  function Pieces(tokens: seq<Token>): (ps: seq<seq<byte>>)
    ensures forall k :: 0 <= k < |ps| ==> ps[k] != []
    decreases |tokens|
  {
    if tokens == [] then []
    else
      var t := tokens[|tokens| - 1];
      Pieces(tokens[..|tokens| - 1]) + (if t.CharData? && TrimSpace(t.data) != [] then [TrimSpace(t.data)] else [])
  }

  /** The text is the non-blank pieces joined by single spaces, with one space after
      the last; tokens other than character data, and blank character data, add
      nothing. */
  lemma {:induction false} WordsArePieces(tokens: seq<Token>)
    ensures XmlWords(tokens) == if Pieces(tokens) == [] then [] else Join(Pieces(tokens), [Space]) + [Space]
    decreases |tokens|
  {
    if tokens != [] {
      var init, t := tokens[..|tokens| - 1], tokens[|tokens| - 1];
      WordsArePieces(init);
      var ps := Pieces(init);
      if t.CharData? && TrimSpace(t.data) != [] {
        var w := TrimSpace(t.data);
        assert Pieces(tokens) == ps + [w];
        if ps == [] {
          assert ps + [w] == [w];
        } else {
          JoinSnoc(ps, w, [Space]);
        }
      } else {
        assert Pieces(tokens) == ps;
      }
    }
  }

  /** A non-empty text ends with exactly one space, after a byte that is not white space. */
  lemma {:induction false} EndsWithOneSpace(tokens: seq<Token>)
    requires XmlWords(tokens) != []
    ensures var r := XmlWords(tokens);
            |r| >= 2 && r[|r| - 1] == Space && !IsSpace(r[|r| - 2])
    decreases |tokens|
  {
    var init, t := tokens[..|tokens| - 1], tokens[|tokens| - 1];
    if Word(t) == [] {
      EndsWithOneSpace(init);
    } else {
      TrimSpaceSlice(t.data);
    }
  }

  /** A decoder that fails after the first `k` tokens yields a prefix of the text of
      the whole document. */
  lemma {:induction false} DecodeErrorGivesPrefix(tokens: seq<Token>, k: nat)
    requires k <= |tokens|
    ensures HasPrefix(XmlWords(tokens), XmlWords(tokens[..k]))
  {
    ConcatPrefix(Word, tokens, k);
  }
}
