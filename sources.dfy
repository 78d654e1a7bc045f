/** What the extractors read, given as values: the file system, zip archives, the
    XML and JSON decoders, and the extractors whose work is done by third-party code. */
module Sources {
  import opened Bytes
  import opened Wrappers
  import opened XmlTokens
  import opened Registry

  /** The value `json.Unmarshal` stores in an `interface{}`. An object lists its
      members in the order a `range` over the Go map visits them, which Go leaves
      unspecified. */
  datatype Json =
    | Null
    | Bool(b: bool)
    | Number(literal: seq<byte>)
    | Str(s: seq<byte>)
    | Array(elems: seq<Json>)
    | Object(members: seq<Member>)

  datatype Member = Member(key: seq<byte>, value: Json)

  /** One `zip.File` of an archive: its name, and what `Open` followed by `io.ReadAll`
      yields for it. */
  datatype ZipEntry = ZipEntry(name: seq<byte>, content: Result<seq<byte>>)

  /** The outside world of the extractors, path by path. */
  datatype FileSystem = FileSystem(
    readFile: seq<byte> -> Result<seq<byte>>,          // os.ReadFile
    openXml: seq<byte> -> Result<TokenStream>,         // os.Open, then a Decoder over the file
    openZip: seq<byte> -> Result<seq<ZipEntry>>,       // zip.OpenReader and its File list
    decodeXml: seq<byte> -> TokenStream,               // a Decoder over bytes in memory
    parseJson: seq<byte> -> Result<Json>,              // json.Unmarshal into interface{}
    external: (Extractor, seq<byte>) -> Result<seq<byte>>)  // html, pdf, scanned pdf, yaml
}
