/** The token stream of Go's `encoding/xml` Decoder, as far as the extractors look at
    it, and the way the decoder splits a qualified element name. */
module XmlTokens {
  import opened Bytes
  import opened Strings

  const Colon: byte := 58

  /** One result of `Decoder.Token`. Element names are kept as written in the
      document (`w:p`); what the decoder reports as `Name.Local` is `LocalName`. */
  datatype Token =
    | StartElement(qname: seq<byte>)
    | EndElement(qname: seq<byte>)
    | CharData(data: seq<byte>)   // text and CDATA sections
    | Comment
    | ProcInst
    | Directive

  /** The tokens a decoder delivers before `Token` returns an error: `io.EOF` when
      `failed` is false, a syntax or read error when it is true. */
  datatype TokenStream = TokenStream(tokens: seq<Token>, failed: bool)

  /** `Name.Local` for an element written as `qname`: the part after the colon of a
      `prefix:local` name with both parts non-empty, else the whole name. A name with
      two or more colons is rejected by the decoder and never reaches a token; the
      whole name stands for it here. */
  function LocalName(qname: seq<byte>): (local: seq<byte>)
    ensures |local| <= |qname| && local == qname[|qname| - |local|..]
  {
    match IndexAny(qname, {Colon})
    case None => qname
    case Some(i) =>
      if IndexAny(qname[i + 1..], {Colon}).Some? then qname
      else if i == 0 || i == |qname| - 1 then qname
      else qname[i + 1..]
  }

  /** A prefixed name `prefix:local` is reported with `local` alone. */
  lemma {:induction false} LocalOfPrefixed(prefix: seq<byte>, local: seq<byte>)
    requires prefix != [] && local != []
    requires Colon !in prefix && Colon !in local
    ensures LocalName(prefix + [Colon] + local) == local
  {
    var q := prefix + [Colon] + local;
    assert forall j :: 0 <= j < |prefix| ==> q[j] == prefix[j];
    IndexAnyAt(q, {Colon}, |prefix|);
    assert q[|prefix| + 1..] == local;
  }

  /** No element name, whatever it is, is reported with a prefixed local name: the
      decoder never hands out `Name.Local == "prefix:local"`. */
  lemma {:induction false} LocalNeverPrefixed(qname: seq<byte>, prefix: seq<byte>, local: seq<byte>)
    requires prefix != [] && local != []
    requires Colon !in prefix && Colon !in local
    ensures LocalName(qname) != prefix + [Colon] + local
  {
    var target := prefix + [Colon] + local;
    assert target[|prefix|] == Colon;
    assert target[0] == prefix[0] && target[|target| - 1] == local[|local| - 1];
    match IndexAny(qname, {Colon})
    case None =>
      assert Colon !in qname;
    case Some(i) =>
      var rest := qname[i + 1..];
      if IndexAny(rest, {Colon}).Some? {
        var j := IndexAny(rest, {Colon}).value;
        assert qname[i + 1 + j] == Colon;
        assert forall k :: 0 <= k < |target| && target[k] == Colon ==> k == |prefix|;
      } else if i == 0 || i == |qname| - 1 {
      } else {
        assert Colon !in rest;
      }
  }

  /** The text a token sequence yields when each token `t` contributes `f(t)`. */
  function Concat(f: Token -> seq<byte>, tokens: seq<Token>): seq<byte>
    decreases |tokens|
  {
    if tokens == [] then [] else Concat(f, tokens[..|tokens| - 1]) + f(tokens[|tokens| - 1])
  }

  /** The text of consecutive token runs is the concatenation of their texts. */
  lemma {:induction false} ConcatAppend(f: Token -> seq<byte>, a: seq<Token>, b: seq<Token>)
    ensures Concat(f, a + b) == Concat(f, a) + Concat(f, b)
    decreases |b|
  {
    if b == [] {
      assert a + b == a;
    } else {
      var b', t := b[..|b| - 1], b[|b| - 1];
      assert (a + b)[..|a + b| - 1] == a + b';
      assert (a + b)[|a + b| - 1] == t;
      ConcatAppend(f, a, b');
      calc {
        Concat(f, a + b);
        Concat(f, a + b') + f(t);
        Concat(f, a) + Concat(f, b') + f(t);
        Concat(f, a) + (Concat(f, b') + f(t));
      }
    }
  }

  /** A decoder that fails after the first `k` tokens of a document yields a prefix of
      the text of the whole document. */
  lemma {:induction false} ConcatPrefix(f: Token -> seq<byte>, tokens: seq<Token>, k: nat)
    requires k <= |tokens|
    ensures HasPrefix(Concat(f, tokens), Concat(f, tokens[..k]))
  {
    assert tokens == tokens[..k] + tokens[k..];
    ConcatAppend(f, tokens[..k], tokens[k..]);
  }
}
