/** Text of word-processing (.docx) and slide (.pptx) packages: the XML parts are read
    from the zip archive and their character data is concatenated, with a line break
    after every paragraph. */
module OfficeXml {
  import opened Bytes
  import opened Wrappers
  import opened Strings
  import opened FilePath
  import opened XmlTokens
  import opened Sources

  const Newline: byte := 10

  /** The tag arguments as written at the two call sites. */
  const WordText: seq<byte> := Ascii("w:t")
  const WordParagraph: seq<byte> := Ascii("w:p")
  const SlideText: seq<byte> := Ascii("a:t")
  const SlideParagraph: seq<byte> := Ascii("a:p")

  /** The local name of a paragraph element, which is what `Name.Local` holds for both
      `</w:p>` and `</a:p>`. */
  const ParagraphTag: seq<byte> := Ascii("p")

  const DocumentPart: seq<byte> := Ascii("word/document.xml")
  const SlidesDir: seq<byte> := Ascii("ppt/slides")
  const XmlSuffix: seq<byte> := Ascii(".xml")
  const NoDocumentPart: seq<byte> := Ascii("docx: ") + Wide("找不到") + Ascii(" word/document.xml")

  /** What one token adds to the text: its character data, or a line break for an end
      element whose local name is `endTag`. */
  function Piece(t: Token, endTag: seq<byte>): seq<byte> {
    match t
    case CharData(d) => d
    case EndElement(q) => if LocalName(q) == endTag then [Newline] else []
    case _ => []
  }

  /** The text built from `tokens`, token by token. */
  function XmlText(tokens: seq<Token>, endTag: seq<byte>): seq<byte> {
    Concat(t => Piece(t, endTag), tokens)
  }

  /** `extractTextFromXML(raw, textTag, endTag)` for the stream the decoder yields on
      `raw`. Reaching the end of the stream and a decode error both return the text
      built so far; `textTag` plays no part in the result. */
  method ExtractTextFromXml(stream: TokenStream, textTag: seq<byte>, endTag: seq<byte>)
      returns (text: seq<byte>)
    ensures text == XmlText(stream.tokens, endTag)
  {
    text := [];
    var i := 0;
    while true
      invariant 0 <= i <= |stream.tokens|
      invariant text == XmlText(stream.tokens[..i], endTag)
      decreases |stream.tokens| - i
    {
      if i == |stream.tokens| {
        assert stream.tokens[..i] == stream.tokens;
        if stream.failed {
          return;
        }
        break;
      }
      var tok := stream.tokens[i];
      assert stream.tokens[..i + 1][..i] == stream.tokens[..i];
      match tok {
        case CharData(d) =>
          text := text + d;
        case EndElement(q) =>
          if LocalName(q) == endTag {
            text := text + [Newline];
          }
        case _ =>
      }
      i := i + 1;
    }
  }

  /** A decoder that fails after the first `k` tokens of a document yields a prefix of
      the text of the whole document. */
  lemma {:induction false} DecodeErrorGivesPrefix(tokens: seq<Token>, k: nat, endTag: seq<byte>)
    requires k <= |tokens|
    ensures HasPrefix(XmlText(tokens, endTag), XmlText(tokens[..k], endTag))
  {
    ConcatPrefix(t => Piece(t, endTag), tokens, k);
  }

  /** The character data of `tokens`, in stream order. */
  function CharDataText(tokens: seq<Token>): seq<byte>
    decreases |tokens|
  {
    if tokens == [] then []
    else
      var t := tokens[|tokens| - 1];
      CharDataText(tokens[..|tokens| - 1]) + (if t.CharData? then t.data else [])
  }

  predicate ClosesWith(t: Token, endTag: seq<byte>) {
    t.EndElement? && LocalName(t.qname) == endTag
  }

  /** The number of end elements in `tokens` whose local name is `endTag`. */
  function MatchingEnds(tokens: seq<Token>, endTag: seq<byte>): nat
    decreases |tokens|
  {
    if tokens == [] then 0
    else MatchingEnds(tokens[..|tokens| - 1], endTag) + (if ClosesWith(tokens[|tokens| - 1], endTag) then 1 else 0)
  }

  function Occurrences(s: seq<byte>, b: byte): nat {
    if s == [] then 0 else (if s[0] == b then 1 else 0) + Occurrences(s[1..], b)
  }

  lemma {:induction false} OccurrencesAppend(s: seq<byte>, t: seq<byte>, b: byte)
    ensures Occurrences(s + t, b) == Occurrences(s, b) + Occurrences(t, b)
  {
    if s == [] {
      assert s + t == t;
    } else {
      assert (s + t)[0] == s[0];
      assert (s + t)[1..] == s[1..] + t;
      OccurrencesAppend(s[1..], t, b);
    }
  }

  /** Line breaks in the text are those of the character data plus exactly one per end
      element named `endTag`. */
  lemma {:induction false} LineBreaksPerParagraph(tokens: seq<Token>, endTag: seq<byte>)
    ensures Occurrences(XmlText(tokens, endTag), Newline)
            == Occurrences(CharDataText(tokens), Newline) + MatchingEnds(tokens, endTag)
    decreases |tokens|
  {
    if tokens != [] {
      var init, t := tokens[..|tokens| - 1], tokens[|tokens| - 1];
      LineBreaksPerParagraph(init, endTag);
      OccurrencesAppend(XmlText(init, endTag), Piece(t, endTag), Newline);
      OccurrencesAppend(CharDataText(init), if t.CharData? then t.data else [], Newline);
    }
  }

  /** With no end element named `endTag`, the text is the character data alone. */
  lemma {:induction false} TextWithoutMatches(tokens: seq<Token>, endTag: seq<byte>)
    requires forall i :: 0 <= i < |tokens| ==> !ClosesWith(tokens[i], endTag)
    ensures XmlText(tokens, endTag) == CharDataText(tokens)
    decreases |tokens|
  {
    if tokens != [] {
      var init := tokens[..|tokens| - 1];
      assert forall i :: 0 <= i < |init| ==> init[i] == tokens[i];
      TextWithoutMatches(init, endTag);
    }
  }

  lemma {:induction false} PrefixedTags()
    ensures WordParagraph == [119] + [Colon] + [112]
    ensures SlideParagraph == [97] + [Colon] + [112]
    ensures ParagraphTag == [112]
  {
  }

  /** As written, docx and pptx pass the prefixed names "w:p" and "a:p" as `endTag`.
      No end element's local name is ever prefixed, so no line break is written and
      the text is the character data alone. */
  lemma {:induction false} AsWrittenTagNeverMatches(tokens: seq<Token>)
    ensures XmlText(tokens, WordParagraph) == CharDataText(tokens)
    ensures XmlText(tokens, SlideParagraph) == CharDataText(tokens)
  {
    PrefixedTags();
    forall i | 0 <= i < |tokens|
      ensures !ClosesWith(tokens[i], WordParagraph) && !ClosesWith(tokens[i], SlideParagraph)
    {
      if tokens[i].EndElement? {
        LocalNeverPrefixed(tokens[i].qname, [119], [112]);
        LocalNeverPrefixed(tokens[i].qname, [97], [112]);
      }
    }
    TextWithoutMatches(tokens, WordParagraph);
    TextWithoutMatches(tokens, SlideParagraph);
  }

  /** With the local name "p" as `endTag`, every `</w:p>` and every `</a:p>` closes a
      paragraph and is followed by exactly one line break. */
  lemma {:induction false} CorrectedTagBreaksParagraphs(tokens: seq<Token>)
    ensures LocalName(WordParagraph) == ParagraphTag && LocalName(SlideParagraph) == ParagraphTag
    ensures Occurrences(XmlText(tokens, ParagraphTag), Newline)
            == Occurrences(CharDataText(tokens), Newline) + MatchingEnds(tokens, ParagraphTag)
  {
    PrefixedTags();
    LocalOfPrefixed([119], [112]);
    LocalOfPrefixed([97], [112]);
    LineBreaksPerParagraph(tokens, ParagraphTag);
  }

  /** One paragraph `<w:p>a</w:p>`: as written its text is "a"; with the local name
      as `endTag` it is "a" and a line break. */
  lemma {:induction false} OneParagraph()
    ensures var tokens := [StartElement(WordParagraph), CharData([97]), EndElement(WordParagraph)];
            XmlText(tokens, WordParagraph) == [97] &&
            XmlText(tokens, ParagraphTag) == [97, Newline]
  {
    PrefixedTags();
    LocalOfPrefixed([119], [112]);
    var t1 := [StartElement(WordParagraph)];
    var t2 := t1 + [CharData([97])];
    var t3 := t2 + [EndElement(WordParagraph)];
    assert t1[..0] == [] && t2[..1] == t1 && t3[..2] == t2;
    assert LocalName(WordParagraph) == [112] != WordParagraph;
    forall e | e == WordParagraph || e == ParagraphTag
      ensures XmlText(t2, e) == [97]
    {
      assert XmlText(t1, e) == XmlText([], e) + Piece(StartElement(WordParagraph), e) == [];
      assert XmlText(t2, e) == XmlText(t1, e) + Piece(CharData([97]), e);
    }
    assert t3 == [StartElement(WordParagraph), CharData([97]), EndElement(WordParagraph)];
    assert XmlText(t3, WordParagraph) == XmlText(t2, WordParagraph) + [];
    assert XmlText(t3, ParagraphTag) == XmlText(t2, ParagraphTag) + [Newline];
  }

  /** The index of the first entry called `name`, if any. */
  function FirstNamed(entries: seq<ZipEntry>, name: seq<byte>): (r: Option<nat>)
    ensures r.Some? ==> r.value < |entries| && entries[r.value].name == name
    ensures r.Some? ==> forall j :: 0 <= j < r.value ==> entries[j].name != name
    ensures r.None? ==> forall j :: 0 <= j < |entries| ==> entries[j].name != name
  {
    if entries == [] then None
    else if entries[0].name == name then Some(0)
    else match FirstNamed(entries[1..], name)
      case None => None
      case Some(k) => Some(k + 1)
  }

  /** The text of the document part of `entries`, with paragraphs closed by `endTag`. */
  function DocumentText(entries: seq<ZipEntry>, decode: seq<byte> -> TokenStream, endTag: seq<byte>)
    : Result<seq<byte>>
  {
    match FirstNamed(entries, DocumentPart)
    case None => Err(NoDocumentPart)
    case Some(i) =>
      match entries[i].content
      case Err(e) => Err(e)
      case Ok(raw) => Ok(XmlText(decode(raw).tokens, endTag))
  }

  /** The text of a word-processing package with paragraphs closed by `endTag`. */
  function DocxText(fs: FileSystem, path: seq<byte>, endTag: seq<byte>): Result<seq<byte>> {
    match fs.openZip(path)
    case Err(e) => Err(e)
    case Ok(entries) => DocumentText(entries, fs.decodeXml, endTag)
  }

  /** `docx.Extract`: the first entry named exactly word/document.xml is read and its
      text extracted; a missing entry and every open or read error are errors. */
  method DocxExtract(fs: FileSystem, path: seq<byte>) returns (r: Result<seq<byte>>)
    ensures r == DocxText(fs, path, WordParagraph)
  {
    var archive := fs.openZip(path);
    if archive.Err? {
      return Err(archive.error);
    }
    var entries := archive.value;
    var i := 0;
    while i < |entries|
      invariant 0 <= i <= |entries|
      invariant forall j :: 0 <= j < i ==> entries[j].name != DocumentPart
    {
      if entries[i].name == DocumentPart {
        break;
      }
      i := i + 1;
    }
    if i == |entries| {
      return Err(NoDocumentPart);
    }
    assert FirstNamed(entries, DocumentPart) == Some(i);
    var content := entries[i].content;
    if content.Err? {
      return Err(content.error);
    }
    var text := ExtractTextFromXml(fs.decodeXml(content.value), WordText, WordParagraph);
    r := Ok(text);
  }

  /** What a docx extraction fails on, and what it returns otherwise. */
  lemma {:induction false} DocxOutcome(fs: FileSystem, path: seq<byte>, endTag: seq<byte>)
    ensures DocxText(fs, path, endTag).Err? <==>
              fs.openZip(path).Err? ||
              FirstNamed(fs.openZip(path).value, DocumentPart).None? ||
              fs.openZip(path).value[FirstNamed(fs.openZip(path).value, DocumentPart).value].content.Err?
    ensures fs.openZip(path).Ok? && FirstNamed(fs.openZip(path).value, DocumentPart).None? ==>
              DocxText(fs, path, endTag) == Err(NoDocumentPart)
  {
  }

  /** A slide part: an entry directly inside ppt/slides with extension .xml. */
  predicate IsSlide(name: seq<byte>) {
    Dir(name) == SlidesDir && Ext(name) == XmlSuffix
  }

  /** Every `ppt/slides/<name>.xml` is a slide part. */
  lemma {:induction false} SlidePartIsSlide(name: seq<byte>)
    requires Slash !in name && Dot !in name
    ensures IsSlide(SlidesDir + [Slash] + name + XmlSuffix)
  {
    ExtOfSuffix(SlidesDir + [Slash] + name, XmlSuffix);
    assert SlidesDir + [Slash] + name + XmlSuffix == SlidesDir + [Slash] + (name + XmlSuffix);
    DirOfChild(SlidesDir, name + XmlSuffix);
  }

  /** No entry of a sub-directory of ppt/slides, such as `ppt/slides/_rels/slide1.xml.rels`,
      is a slide part. */
  lemma {:induction false} NestedPartIsNotSlide(sub: seq<byte>, name: seq<byte>)
    requires sub != [] && Slash !in sub && Slash !in name
    ensures !IsSlide(SlidesDir + [Slash] + sub + [Slash] + name)
  {
    var dir := SlidesDir + [Slash] + sub;
    assert dir[|dir| - 1] == sub[|sub| - 1];
    DirOfChild(dir, name);
  }

  /** The slide entries of an archive, in archive order. */
  function Slides(entries: seq<ZipEntry>): (s: seq<ZipEntry>)
    ensures |s| <= |entries|
    ensures forall k :: 0 <= k < |s| ==> IsSlide(s[k].name)
    decreases |entries|
  {
    if entries == [] then []
    else
      var f := entries[|entries| - 1];
      Slides(entries[..|entries| - 1]) + (if IsSlide(f.name) then [f] else [])
  }

  /** The slide texts so far, after the loop has looked at entry `f`. */
  function AddSlide(texts: Result<seq<seq<byte>>>, f: ZipEntry, decode: seq<byte> -> TokenStream,
                    endTag: seq<byte>): Result<seq<seq<byte>>>
  {
    match texts
    case Err(e) => Err(e)
    case Ok(ts) =>
      if !IsSlide(f.name) then Ok(ts)
      else match f.content
        case Err(e) => Err(e)
        case Ok(raw) => Ok(ts + [XmlText(decode(raw).tokens, endTag)])
  }

  /** The texts of the slides in archive order, or the first open or read error. */
  function SlideTexts(entries: seq<ZipEntry>, decode: seq<byte> -> TokenStream, endTag: seq<byte>)
    : Result<seq<seq<byte>>>
    decreases |entries|
  {
    if entries == [] then Ok([])
    else AddSlide(SlideTexts(entries[..|entries| - 1], decode, endTag), entries[|entries| - 1], decode, endTag)
  }

  /** The first open or read error ends the loop: no later entry changes it. */
  lemma {:induction false} SlideErrorPersists(entries: seq<ZipEntry>, k: nat,
                                              decode: seq<byte> -> TokenStream, endTag: seq<byte>)
    requires k <= |entries| && SlideTexts(entries[..k], decode, endTag).Err?
    ensures SlideTexts(entries, decode, endTag) == SlideTexts(entries[..k], decode, endTag)
    decreases |entries|
  {
    if k < |entries| {
      var init := entries[..|entries| - 1];
      assert init[..k] == entries[..k];
      SlideErrorPersists(init, k, decode, endTag);
    } else {
      assert entries[..k] == entries;
    }
  }

  /** The text of a slide package with paragraphs closed by `endTag`. */
  function PptxText(fs: FileSystem, path: seq<byte>, endTag: seq<byte>): Result<seq<byte>> {
    match fs.openZip(path)
    case Err(e) => Err(e)
    case Ok(entries) =>
      match SlideTexts(entries, fs.decodeXml, endTag)
      case Err(e) => Err(e)
      case Ok(texts) => Ok(Join(texts, [Newline]))
  }

  /** `pptx.Extract`: the texts of the slide entries, in archive order, joined with
      line breaks; the first open or read error is returned instead. */
  method PptxExtract(fs: FileSystem, path: seq<byte>) returns (r: Result<seq<byte>>)
    ensures r == PptxText(fs, path, SlideParagraph)
  {
    var archive := fs.openZip(path);
    if archive.Err? {
      return Err(archive.error);
    }
    var entries := archive.value;
    var allText: seq<seq<byte>> := [];
    for i := 0 to |entries|
      invariant SlideTexts(entries[..i], fs.decodeXml, SlideParagraph) == Ok(allText)
    {
      var f := entries[i];
      assert entries[..i + 1][..i] == entries[..i];
      if IsSlide(f.name) {
        if f.content.Err? {
          assert SlideTexts(entries[..i + 1], fs.decodeXml, SlideParagraph) == Err(f.content.error);
          SlideErrorPersists(entries, i + 1, fs.decodeXml, SlideParagraph);
          return Err(f.content.error);
        }
        var txt := ExtractTextFromXml(fs.decodeXml(f.content.value), SlideText, SlideParagraph);
        allText := allText + [txt];
      }
    }
    assert entries[..|entries|] == entries;
    r := Ok(Join(allText, [Newline]));
  }

  /** Every entry of `es` can be opened and read. */
  predicate AllReadable(es: seq<ZipEntry>) {
    forall k :: 0 <= k < |es| ==> es[k].content.Ok?
  }

  /** Slide texts exist exactly when every slide entry can be read. Entries that are
      not slides are never opened. */
  lemma {:induction false} SlideTextsOk(entries: seq<ZipEntry>, decode: seq<byte> -> TokenStream, endTag: seq<byte>)
    ensures SlideTexts(entries, decode, endTag).Ok? <==> AllReadable(Slides(entries))
    decreases |entries|
  {
    if entries != [] {
      SlideTextsOk(entries[..|entries| - 1], decode, endTag);
      SlideTextsOkStep(entries, decode, endTag);
    }
  }

  lemma {:induction false} SlideTextsOkStep(entries: seq<ZipEntry>, decode: seq<byte> -> TokenStream, endTag: seq<byte>)
    requires entries != []
    requires SlideTexts(entries[..|entries| - 1], decode, endTag).Ok? <==>
             AllReadable(Slides(entries[..|entries| - 1]))
    ensures SlideTexts(entries, decode, endTag).Ok? <==> AllReadable(Slides(entries))
  {
    var init, f := entries[..|entries| - 1], entries[|entries| - 1];
    assert SlideTexts(entries, decode, endTag).Ok? <==>
           SlideTexts(init, decode, endTag).Ok? && (IsSlide(f.name) ==> f.content.Ok?);
    if IsSlide(f.name) {
      assert Slides(entries) == Slides(init) + [f];
      AllReadableSnoc(Slides(init), f);
    } else {
      assert Slides(entries) == Slides(init);
    }
  }

  lemma {:induction false} AllReadableSnoc(s: seq<ZipEntry>, f: ZipEntry)
    ensures AllReadable(s + [f]) <==> AllReadable(s) && f.content.Ok?
  {
    assert forall k :: 0 <= k < |s| ==> (s + [f])[k] == s[k];
    assert (s + [f])[|s|] == f;
  }

  /** `texts` holds, in order, the text of each of the `slides`. */
  predicate TextsOfSlides(texts: seq<seq<byte>>, slides: seq<ZipEntry>,
                          decode: seq<byte> -> TokenStream, endTag: seq<byte>) {
    |texts| == |slides| &&
    forall k :: 0 <= k < |slides| ==>
      slides[k].content.Ok? && texts[k] == XmlText(decode(slides[k].content.value).tokens, endTag)
  }

  lemma {:induction false} TextsOfSlidesSnoc(texts: seq<seq<byte>>, slides: seq<ZipEntry>, f: ZipEntry,
                          decode: seq<byte> -> TokenStream, endTag: seq<byte>)
    requires TextsOfSlides(texts, slides, decode, endTag) && f.content.Ok?
    ensures TextsOfSlides(texts + [XmlText(decode(f.content.value).tokens, endTag)], slides + [f], decode, endTag)
  {
    var t := XmlText(decode(f.content.value).tokens, endTag);
    assert forall k :: 0 <= k < |slides| ==> (slides + [f])[k] == slides[k] && (texts + [t])[k] == texts[k];
  }

  /** When they exist, there is one slide text per slide, in archive order. */
  lemma {:induction false} SlideTextsBySlide(entries: seq<ZipEntry>, decode: seq<byte> -> TokenStream, endTag: seq<byte>)
    requires SlideTexts(entries, decode, endTag).Ok?
    ensures TextsOfSlides(SlideTexts(entries, decode, endTag).value, Slides(entries), decode, endTag)
    decreases |entries|
  {
    if entries != [] {
      var init, f := entries[..|entries| - 1], entries[|entries| - 1];
      assert SlideTexts(init, decode, endTag).Ok?;
      SlideTextsBySlide(init, decode, endTag);
      var s, ts := Slides(init), SlideTexts(init, decode, endTag).value;
      if IsSlide(f.name) {
        assert Slides(entries) == s + [f];
        TextsOfSlidesSnoc(ts, s, f, decode, endTag);
      } else {
        assert Slides(entries) == s;
      }
    }
  }

  /** As written, a docx gives the character data of its document part and no line
      break of its own: paragraphs run together. */
  lemma {:induction false} DocxAsWritten(fs: FileSystem, path: seq<byte>)
    requires DocxText(fs, path, WordParagraph).Ok?
    ensures var entries := fs.openZip(path).value;
            var part := entries[FirstNamed(entries, DocumentPart).value];
            part.content.Ok? &&
            DocxText(fs, path, WordParagraph).value == CharDataText(fs.decodeXml(part.content.value).tokens)
  {
    var entries := fs.openZip(path).value;
    var part := entries[FirstNamed(entries, DocumentPart).value];
    AsWrittenTagNeverMatches(fs.decodeXml(part.content.value).tokens);
  }

  /** As written, each slide of a pptx gives the character data of its slide part and
      no line break of its own; only the joins between slides add line breaks. */
  lemma {:induction false} PptxAsWritten(entries: seq<ZipEntry>, decode: seq<byte> -> TokenStream)
    requires SlideTexts(entries, decode, SlideParagraph).Ok?
    ensures var texts := SlideTexts(entries, decode, SlideParagraph).value;
            var slides := Slides(entries);
            |texts| == |slides| &&
            forall k :: 0 <= k < |slides| ==>
              slides[k].content.Ok? && texts[k] == CharDataText(decode(slides[k].content.value).tokens)
  {
    SlideTextsBySlide(entries, decode, SlideParagraph);
    var texts, slides := SlideTexts(entries, decode, SlideParagraph).value, Slides(entries);
    forall k | 0 <= k < |slides|
      ensures texts[k] == CharDataText(decode(slides[k].content.value).tokens)
    {
      AsWrittenTagNeverMatches(decode(slides[k].content.value).tokens);
    }
  }

  /** An archive without slide entries has the empty text. */
  lemma {:induction false} NoSlidesGiveEmptyText(fs: FileSystem, path: seq<byte>, endTag: seq<byte>)
    requires fs.openZip(path).Ok? && Slides(fs.openZip(path).value) == []
    ensures PptxText(fs, path, endTag) == Ok([])
  {
    SlideTextsOk(fs.openZip(path).value, fs.decodeXml, endTag);
    SlideTextsBySlide(fs.openZip(path).value, fs.decodeXml, endTag);
  }
}
