/** The extractor registry: a process-wide table from a file extension to the
    strategy that turns such a file into plain text. */
module Registry {
  import opened Bytes
  import opened Wrappers

  /** The strategies that the extractor package registers, one per Go type that
      implements `Extractor`. */
  datatype Extractor =
    | Docx       // word-processing package: word/document.xml
    | Pptx       // slide deck package: ppt/slides/*.xml
    | Html       // goquery document text
    | Json       // keys and string values of a JSON document
    | TextPdf    // text layer of a PDF
    | ScanPdf    // OCR of a scanned PDF through tesseract
    | RMarkdown  // R markdown without executable chunks
    | Code       // scripts without line comments
    | Xml        // character data of an XML document
    | Yaml       // keys and string values of a YAML document

  /** The `registry` map with `Register` and `Get`. */
  class Table {
    var entries: map<seq<byte>, Extractor>

    /** The empty table that the package starts with. */
    constructor ()
      ensures entries == map[]
    {
      entries := map[];
    }

    /** `Register(ext, ex)`: map `ext` to `ex`, replacing any earlier entry for `ext`. */
    method Register(ext: seq<byte>, ex: Extractor)
      modifies this
      ensures entries == old(entries)[ext := ex]
      ensures ext in entries && entries[ext] == ex
    {
      entries := entries[ext := ex];
    }

    /** `Get(ext)`: the extractor registered for exactly `ext`, if any. The key is compared
        byte for byte, with no case folding. */
    method Get(ext: seq<byte>) returns (r: Option<Extractor>)
      ensures r.Some? <==> ext in entries
      ensures r.Some? ==> r.value == entries[ext]
    {
      if ext in entries {
        r := Some(entries[ext]);
      } else {
        r := None;
      }
    }
  }

  /** The registered extensions. */
  const DocxExt: seq<byte> := Ascii(".docx")
  const PptxExt: seq<byte> := Ascii(".pptx")
  const HtmlExt: seq<byte> := Ascii(".html")
  const HtmExt: seq<byte> := Ascii(".htm")
  const JsonExt: seq<byte> := Ascii(".json")
  const PdfExt: seq<byte> := Ascii(".pdf")
  const ScanPdfExt: seq<byte> := Ascii(".scan.pdf")
  const RmdExt: seq<byte> := Ascii(".rmd")
  const PyExt: seq<byte> := Ascii(".py")
  const RExt: seq<byte> := Ascii(".r")
  const MExt: seq<byte> := Ascii(".m")
  const XmlExt: seq<byte> := Ascii(".xml")
  const YamlExt: seq<byte> := Ascii(".yaml")
  const YmlExt: seq<byte> := Ascii(".yml")

  /** `m` after the `Register` calls of the extractor package's `init` functions, file
      by file: docx_pptx.go, html.go, json.go, pdf.go, rmarkdown.go, script.go, xml.go
      and yaml.go. */
  function WithBuiltins(m: map<seq<byte>, Extractor>): map<seq<byte>, Extractor> {
    m[DocxExt := Docx][PptxExt := Pptx]
     [HtmlExt := Html][HtmExt := Html]
     [JsonExt := Json]
     [PdfExt := TextPdf][ScanPdfExt := ScanPdf]
     [RmdExt := RMarkdown]
     [PyExt := Code][RExt := Code][MExt := Code]
     [XmlExt := Xml]
     [YamlExt := Yaml][YmlExt := Yaml]
  }

  /** After the built-in registrations ".pdf" holds the text PDF extractor and
      ".scan.pdf" the OCR one, whatever was registered before. */
  lemma {:induction false} PdfRegistrations(m: map<seq<byte>, Extractor>)
    ensures PdfExt in WithBuiltins(m) && WithBuiltins(m)[PdfExt] == TextPdf
    ensures ScanPdfExt in WithBuiltins(m) && WithBuiltins(m)[ScanPdfExt] == ScanPdf
  {
    assert PdfExt[1] != RmdExt[1] && PdfExt[1] != XmlExt[1] && PdfExt[1] != YmlExt[1];
  }

  /** The package initialisation: every `init` function's `Register` calls. */
  method RegisterBuiltins(t: Table)
    modifies t
    ensures t.entries == WithBuiltins(old(t.entries))
  {
    t.Register(DocxExt, Docx);
    t.Register(PptxExt, Pptx);
    t.Register(HtmlExt, Html);
    t.Register(HtmExt, Html);
    t.Register(JsonExt, Json);
    t.Register(PdfExt, TextPdf);
    t.Register(ScanPdfExt, ScanPdf);
    t.Register(RmdExt, RMarkdown);
    t.Register(PyExt, Code);
    t.Register(RExt, Code);
    t.Register(MExt, Code);
    t.Register(XmlExt, Xml);
    t.Register(YamlExt, Yaml);
    t.Register(YmlExt, Yaml);
  }

  /** What a caller of the table can rely on: a key just registered is found with the
      strategy given, a second registration of it wins, and other keys keep their
      entries. */
  method RegisterThenGet(t: Table, ext: seq<byte>, first: Extractor, second: Extractor, other: seq<byte>)
    requires other != ext
    modifies t
    ensures t.entries == old(t.entries)[ext := second]
  {
    var before := t.Get(other);
    t.Register(ext, first);
    var found := t.Get(ext);
    assert found == Some(first);
    t.Register(ext, second);
    found := t.Get(ext);
    assert found == Some(second);
    var after := t.Get(other);
    assert after == before;
  }
}
