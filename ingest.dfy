/** The ingestion pipeline: every file of the knowledge directory is turned into text,
    cut into chunks, embedded chunk by chunk and written to Qdrant, one batch per
    file. */
module Ingest {
  import opened Bytes
  import opened Wrappers
  import opened Strings
  import opened FilePath
  import opened Sources
  import opened Registry
  import opened Ollama
  import opened Store
  import opened Chunker
  import OfficeXml
  import PlainXml
  import JsonText
  import RMarkdown
  import Script

  // ---- Extraction ----

  /** The text the extractor `ex` gives for the file at `path`. HTML, PDF, scanned
      PDF and YAML are read by third-party code. */
  function ExtractorText(ex: Extractor, fs: FileSystem, path: seq<byte>): Result<seq<byte>> {
    match ex
    case Docx => OfficeXml.DocxText(fs, path, OfficeXml.WordParagraph)
    case Pptx => OfficeXml.PptxText(fs, path, OfficeXml.SlideParagraph)
    case Json => JsonText.JsonFileText(fs, path)
    case RMarkdown => RMarkdown.RmdFileText(fs, path)
    case Code => Script.ScriptFileText(fs, path)
    case Xml => PlainXml.XmlFileText(fs, path)
    case _ => fs.external(ex, path)
  }

  /** `ex.Extract(path)`, through the extractor's own method. */
  method ExtractWith(ex: Extractor, fs: FileSystem, path: seq<byte>) returns (r: Result<seq<byte>>)
    ensures r == ExtractorText(ex, fs, path)
  {
    match ex {
      case Docx => r := OfficeXml.DocxExtract(fs, path);
      case Pptx => r := OfficeXml.PptxExtract(fs, path);
      case Json => r := JsonText.Extract(fs, path);
      case RMarkdown => r := RMarkdown.Extract(fs, path);
      case Code => r := Script.Extract(fs, path);
      case Xml => r := PlainXml.Extract(fs, path);
      case _ => r := fs.external(ex, path);
    }
  }

  /** The registry key of a path: its extension, lowercased. */
  function ExtensionKey(path: seq<byte>): seq<byte> {
    ToLower(Ext(path))
  }

  /** `extractText` over the registry `entries`: the registered extractor's result
      as it is, or else the raw bytes of the file. */
  function ExtractSpec(entries: map<seq<byte>, Extractor>, fs: FileSystem, path: seq<byte>): Result<seq<byte>> {
    var key := ExtensionKey(path);
    if key in entries then ExtractorText(entries[key], fs, path) else fs.readFile(path)
  }

  /** `extractText`. */
  method ExtractText(reg: Table, fs: FileSystem, path: seq<byte>) returns (r: Result<seq<byte>>)
    ensures r == ExtractSpec(reg.entries, fs, path)
  {
    var key := ToLower(Ext(path));
    var ex := reg.Get(key);
    if ex.Some? {
      r := ExtractWith(ex.value, fs, path);
      return;
    }
    r := fs.readFile(path);
  }

  /** A file whose name ends in an extension `e` is looked up under `e` lowercased,
      whatever precedes it: "NOTES.DOCX" reaches the docx extractor. */
  lemma {:induction false} KeyOfSuffix(prefix: seq<byte>, e: seq<byte>)
    requires e != [] && e[0] == Dot
    requires forall i :: 0 < i < |e| ==> e[i] != Dot && e[i] != Slash
    ensures ExtensionKey(prefix + e) == ToLower(e)
  {
    ExtOfSuffix(prefix, e);
  }

  /** A lookup key holds at most one dot, at its start. */
  lemma {:induction false} KeyShape(path: seq<byte>)
    ensures ExtensionKey(path) != [] ==> ExtensionKey(path)[0] == Dot
    ensures forall i :: 0 < i < |ExtensionKey(path)| ==> ExtensionKey(path)[i] != Dot
  {
    var e := Ext(path);
    forall i | 0 <= i < |e|
      ensures ToLowerByte(e[i]) == Dot <==> e[i] == Dot
    {
    }
  }

  /** Hence the ".scan.pdf" registration is never looked up: a scanned PDF goes to
      the ".pdf" extractor like any other. */
  lemma {:induction false} ScanPdfUnreachable(path: seq<byte>)
    ensures ExtensionKey(path) != ScanPdfExt
  {
    KeyShape(path);
    assert ScanPdfExt[5] == Dot;
  }

  /** As written, a file named like "scan.scan.pdf" reaches the text PDF extractor. */
  lemma {:induction false} AsWrittenScanPdfReadsAsPdf(prefix: seq<byte>, m: map<seq<byte>, Extractor>)
    ensures ExtensionKey(prefix + ScanPdfExt) == PdfExt
    ensures WithBuiltins(m)[ExtensionKey(prefix + ScanPdfExt)] == TextPdf
  {
    assert prefix + ScanPdfExt == (prefix + Ascii(".scan")) + PdfExt;
    KeyOfSuffix(prefix + Ascii(".scan"), PdfExt);
    LowercaseFixed(PdfExt);
    PdfRegistrations(m);
  }

  /** The lookup key the ".scan.pdf" registration needs: a name ending in ".scan.pdf",
      in any case, is looked up under that double extension, and every other name
      under its extension. */
  function IntendedKey(path: seq<byte>): seq<byte> {
    var n := |ScanPdfExt|;
    if |path| >= n && ToLower(path[|path| - n..]) == ScanPdfExt then ScanPdfExt
    else ExtensionKey(path)
  }

  /** Under the intended key a scanned PDF reaches the OCR extractor. */
  lemma {:induction false} IntendedKeyReachesScanPdf(prefix: seq<byte>, m: map<seq<byte>, Extractor>)
    ensures IntendedKey(prefix + ScanPdfExt) == ScanPdfExt
    ensures WithBuiltins(m)[IntendedKey(prefix + ScanPdfExt)] == ScanPdf
  {
    var path := prefix + ScanPdfExt;
    assert path[|path| - |ScanPdfExt|..] == ScanPdfExt;
    LowercaseFixed(ScanPdfExt);
    PdfRegistrations(m);
  }

  /** A file without a registered extractor is read as it is. */
  lemma {:induction false} FallbackReadsFile(entries: map<seq<byte>, Extractor>, fs: FileSystem, path: seq<byte>)
    requires ExtensionKey(path) !in entries
    ensures ExtractSpec(entries, fs, path) == fs.readFile(path)
  {
  }

  // ---- Run ----

  /** The configuration `Run` reads. */
  datatype Config = Config(knowledgeDir: seq<byte>, chunkSize: int, chunkOverlap: int, collection: seq<byte>)

  /** The world `Run` talks to: the directory listing (`filepath.Glob` of the
      directory joined with "*"), the files, the embedder, Qdrant, and `uuid.New`,
      whose `n`-th draw is `uuid(n)`. */
  datatype Env = Env(
    glob: seq<byte> -> Result<seq<seq<byte>>>,
    fs: FileSystem,
    llm: Llm,
    send: Transport,
    uuid: nat -> seq<byte>)

  /** The batches sent to `Upsert`, in order, and the error `Run` returned. */
  datatype Outcome = Outcome(batches: seq<seq<Point>>, err: Option<seq<byte>>)

  /** "扫描知识库目录失败: " */
  const GlobFailed: seq<byte> := Wide("扫描知识库目录失败") + Ascii(": ")
  /** "生成 Embedding 失败 (" */
  const EmbedFailedHead: seq<byte> := Wide("生成") + Ascii(" Embedding ") + Wide("失败") + Ascii(" (")
  /** " 段 " */
  const EmbedFailedSegment: seq<byte> := Ascii(" ") + Wide("段") + Ascii(" ")
  /** "upsert 到 Qdrant 失败 (" */
  const UpsertFailedHead: seq<byte> := Ascii("upsert ") + Wide("到") + Ascii(" Qdrant ") + Wide("失败") + Ascii(" (")
  const CloseParen: seq<byte> := Ascii("): ")

  /** `%d` of a natural number. */
  function Decimal(n: nat): (d: seq<byte>)
    ensures d != [] && forall i :: 0 <= i < |d| ==> 48 <= d[i] <= 57
    decreases n
  {
    if n < 10 then [(48 + n) as byte] else Decimal(n / 10) + [(48 + n % 10) as byte]
  }

  /** The value of a decimal numeral. */
  function DigitsValue(d: seq<byte>): nat
    requires forall i :: 0 <= i < |d| ==> 48 <= d[i] <= 57
    decreases |d|
  {
    if d == [] then 0 else 10 * DigitsValue(d[..|d| - 1]) + (d[|d| - 1] - 48) as nat
  }

  /** `Decimal` writes the number it is given. */
  lemma {:induction false} DecimalValue(n: nat)
    ensures DigitsValue(Decimal(n)) == n
    decreases n
  {
    if n >= 10 {
      DecimalValue(n / 10);
      var d := Decimal(n);
      assert d[..|d| - 1] == Decimal(n / 10);
    }
  }

  function EmbedMessage(file: seq<byte>, idx: nat, cause: seq<byte>): seq<byte> {
    EmbedFailedHead + file + EmbedFailedSegment + Decimal(idx) + CloseParen + cause
  }

  function UpsertMessage(file: seq<byte>, cause: seq<byte>): seq<byte> {
    UpsertFailedHead + file + CloseParen + cause
  }

  /** The points of one file: chunk `k` embedded, with the id of draw `drawn + k`, the
      chunk as `text`, the file's base name as `source` and `k` as `index`; or the
      error of the first chunk whose embedding fails. */
  function BuildPoints(file: seq<byte>, chunks: seq<seq<byte>>, llm: Llm, uuid: nat -> seq<byte>, drawn: nat)
    : Result<seq<Point>>
    decreases |chunks|
  {
    if chunks == [] then Ok([])
    else
      var idx := |chunks| - 1;
      match BuildPoints(file, chunks[..idx], llm, uuid, drawn)
      case Err(e) => Err(e)
      case Ok(points) =>
        match llm.embed(chunks[idx])
        case Err(cause) => Err(EmbedMessage(file, idx, cause))
        case Ok(vec) => Ok(points + [Point(uuid(drawn + idx), vec, Payload(chunks[idx], Base(file), idx))])
  }

  /** The chunks of a file that was read. */
  function FileChunks(text: seq<byte>, cfg: Config): seq<seq<byte>>
    requires 0 <= cfg.chunkOverlap < cfg.chunkSize
  {
    Chunks(text, cfg.chunkSize, cfg.chunkOverlap)
  }

  /** How the run turns a path into text: `extractText` over the registry at hand. */
  type Extraction = seq<byte> -> Result<seq<byte>>

  function ExtractionOf(entries: map<seq<byte>, Extractor>, fs: FileSystem): Extraction {
    path => ExtractSpec(entries, fs, path)
  }

  /** What one file does to the run: it is skipped, it ends the run with the
      batches sent for it and an error, or its batch is stored and `drawn` uuids have
      been drawn so far. */
  datatype FileStep = Skipped | Aborted(sent: seq<seq<Point>>, err: seq<byte>) | Stored(points: seq<Point>, drawn: nat)

  function Step(file: seq<byte>, cfg: Config, extract: Extraction, env: Env, drawn: nat): FileStep
    requires 0 <= cfg.chunkOverlap < cfg.chunkSize
  {
    match extract(file)
    case Err(_) => Skipped
    case Ok(text) =>
      var chunks := FileChunks(text, cfg);
      match BuildPoints(file, chunks, env.llm, env.uuid, drawn)
      case Err(e) => Aborted([], e)
      case Ok(points) =>
        var up := Upsert(Client(cfg.collection), env.send, points);
        if up.err.Some? then Aborted([points], UpsertMessage(file, up.err.value))
        else Stored(points, drawn + |chunks|)
  }

  /** The run over `files`, with `drawn` uuids drawn before. */
  function RunFiles(files: seq<seq<byte>>, cfg: Config, extract: Extraction, env: Env, drawn: nat): Outcome
    requires 0 <= cfg.chunkOverlap < cfg.chunkSize
    decreases |files|
  {
    if files == [] then Outcome([], None)
    else
      match Step(files[0], cfg, extract, env, drawn)
      case Skipped => RunFiles(files[1..], cfg, extract, env, drawn)
      case Aborted(sent, e) => Outcome(sent, Some(e))
      case Stored(points, next) =>
        var rest := RunFiles(files[1..], cfg, extract, env, next);
        Outcome([points] + rest.batches, rest.err)
  }

  function RunSpec(cfg: Config, entries: map<seq<byte>, Extractor>, env: Env): Outcome
    requires 0 <= cfg.chunkOverlap < cfg.chunkSize
  {
    match env.glob(cfg.knowledgeDir)
    case Err(e) => Outcome([], Some(GlobFailed + e))
    case Ok(files) => RunFiles(files, cfg, ExtractionOf(entries, env.fs), env, 0)
  }

  /** Once a chunk's embedding fails, the points of the file stay failed. */
  lemma {:induction false} EmbedErrorPersists(file: seq<byte>, chunks: seq<seq<byte>>, llm: Llm, uuid: nat -> seq<byte>,
                                               drawn: nat, n: nat)
    requires n <= |chunks|
    requires BuildPoints(file, chunks[..n], llm, uuid, drawn).Err?
    ensures BuildPoints(file, chunks, llm, uuid, drawn) == BuildPoints(file, chunks[..n], llm, uuid, drawn)
    decreases |chunks| - n
  {
    if n < |chunks| {
      assert chunks[..n + 1][..n] == chunks[..n];
      EmbedErrorPersists(file, chunks, llm, uuid, drawn, n + 1);
    } else {
      assert chunks[..n] == chunks;
    }
  }

  /** The upsert of one file with its error, if any. */
  method UpsertFile(cfg: Config, env: Env, file: seq<byte>, points: seq<Point>) returns (err: Option<seq<byte>>)
    ensures var up := Upsert(Client(cfg.collection), env.send, points);
            err == if up.err.Some? then Some(UpsertMessage(file, up.err.value)) else None
  {
    var up := Upsert(Client(cfg.collection), env.send, points);
    if up.err.Some? {
      return Some(UpsertMessage(file, up.err.value));
    }
    return None;
  }

  /** The embedding loop of one file. */
  method EmbedChunks(file: seq<byte>, chunks: seq<seq<byte>>, env: Env, drawn: nat) returns (r: Result<seq<Point>>)
    ensures r == BuildPoints(file, chunks, env.llm, env.uuid, drawn)
  {
    var points := [];
    for idx := 0 to |chunks|
      invariant BuildPoints(file, chunks[..idx], env.llm, env.uuid, drawn) == Ok(points)
    {
      assert chunks[..idx + 1][..idx] == chunks[..idx];
      var vec := env.llm.embed(chunks[idx]);
      if vec.Err? {
        EmbedErrorPersists(file, chunks, env.llm, env.uuid, drawn, idx + 1);
        return Err(EmbedMessage(file, idx, vec.error));
      }
      var id := env.uuid(drawn + idx);
      points := points + [Point(id, vec.value, Payload(chunks[idx], Base(file), idx))];
    }
    assert chunks[..|chunks|] == chunks;
    r := Ok(points);
  }

  /** The body of the loop over the files, for one file. */
  method IngestFile(cfg: Config, reg: Table, env: Env, file: seq<byte>, drawn: nat) returns (step: FileStep)
    requires 0 <= cfg.chunkOverlap < cfg.chunkSize
    ensures step == Step(file, cfg, ExtractionOf(reg.entries, env.fs), env, drawn)
  {
    var text := ExtractText(reg, env.fs, file);
    if text.Err? {
      return Skipped;
    }
    var chunks := ChunkText(text.value, cfg.chunkSize, cfg.chunkOverlap);
    var built := EmbedChunks(file, chunks, env, drawn);
    if built.Err? {
      return Aborted([], built.error);
    }
    var points := built.value;
    var failure := UpsertFile(cfg, env, file, points);
    if failure.Some? {
      return Aborted([points], failure.value);
    }
    return Stored(points, drawn + |chunks|);
  }

  lemma {:induction false} ConcatAssoc<T>(a: seq<T>, b: seq<T>, c: seq<T>)
    ensures a + (b + c) == (a + b) + c
  {
  }

  /** `Run`: the directory listing, then file by file extraction, chunking, embedding
      and one upsert. An extraction error skips the file; an embedding or upsert error
      ends the run. */
  method Run(cfg: Config, reg: Table, env: Env) returns (batches: seq<seq<Point>>, err: Option<seq<byte>>)
    requires 0 <= cfg.chunkOverlap < cfg.chunkSize
    ensures Outcome(batches, err) == RunSpec(cfg, reg.entries, env)
  {
    var listed := env.glob(cfg.knowledgeDir);
    if listed.Err? {
      return [], Some(GlobFailed + listed.error);
    }
    var files := listed.value;
    ghost var extract := ExtractionOf(reg.entries, env.fs);
    batches := [];
    var drawn: nat := 0;
    for i := 0 to |files|
      invariant var rest := RunFiles(files[i..], cfg, extract, env, drawn);
                Outcome(batches + rest.batches, rest.err) == RunFiles(files, cfg, extract, env, 0)
    {
      assert files[i..][0] == files[i] && files[i..][1..] == files[i + 1..];
      var step := IngestFile(cfg, reg, env, files[i], drawn);
      match step {
        case Skipped =>
        case Aborted(sent, e) =>
          return batches + sent, Some(e);
        case Stored(points, next) =>
          ghost var rest := RunFiles(files[i + 1..], cfg, extract, env, next);
          ConcatAssoc(batches, [points], rest.batches);
          batches := batches + [points];
          drawn := next;
      }
    }
    assert batches + [] == batches;
    err := None;
  }

  // ---- What a run does ----

  /** An extraction error skips the file: the run goes on with the next file as if
      the skipped one were not there. */
  lemma {:induction false} SkipUnreadable(files: seq<seq<byte>>, cfg: Config, extract: Extraction, env: Env, drawn: nat)
    requires 0 <= cfg.chunkOverlap < cfg.chunkSize
    requires files != [] && extract(files[0]).Err?
    ensures RunFiles(files, cfg, extract, env, drawn) == RunFiles(files[1..], cfg, extract, env, drawn)
  {
  }

  /** A failed embedding ends the run before that file's upsert, with the message
      naming the file and the first failing chunk. */
  lemma {:induction false} EmbedFailureAborts(files: seq<seq<byte>>, cfg: Config, extract: Extraction, env: Env,
                           drawn: nat, k: nat)
    requires 0 <= cfg.chunkOverlap < cfg.chunkSize
    requires files != [] && extract(files[0]).Ok?
    requires var chunks := FileChunks(extract(files[0]).value, cfg);
             k < |chunks| && env.llm.embed(chunks[k]).Err? &&
             forall j :: 0 <= j < k ==> env.llm.embed(chunks[j]).Ok?
    ensures var chunks := FileChunks(extract(files[0]).value, cfg);
            RunFiles(files, cfg, extract, env, drawn) ==
              Outcome([], Some(EmbedMessage(files[0], k, env.llm.embed(chunks[k]).error)))
  {
    var chunks := FileChunks(extract(files[0]).value, cfg);
    FirstEmbedFailure(files[0], chunks, env.llm, env.uuid, drawn, k);
  }

  /** A failed upsert ends the run: the file's batch was sent, and the message names
      the file and carries the client's error. */
  lemma {:induction false} UpsertFailureAborts(files: seq<seq<byte>>, cfg: Config, extract: Extraction, env: Env,
                                               drawn: nat)
    requires 0 <= cfg.chunkOverlap < cfg.chunkSize
    requires files != [] && extract(files[0]).Ok?
    requires var chunks := FileChunks(extract(files[0]).value, cfg);
             var built := BuildPoints(files[0], chunks, env.llm, env.uuid, drawn);
             built.Ok? && Upsert(Client(cfg.collection), env.send, built.value).err.Some?
    ensures var chunks := FileChunks(extract(files[0]).value, cfg);
            var points := BuildPoints(files[0], chunks, env.llm, env.uuid, drawn).value;
            RunFiles(files, cfg, extract, env, drawn) ==
              Outcome([points], Some(UpsertMessage(files[0], Upsert(Client(cfg.collection), env.send, points).err.value)))
  {
  }

  /** The points of a file fail exactly at the first chunk whose embedding fails. */
  lemma {:induction false} FirstEmbedFailure(file: seq<byte>, chunks: seq<seq<byte>>, llm: Llm, uuid: nat -> seq<byte>, drawn: nat, k: nat)
    requires k < |chunks| && llm.embed(chunks[k]).Err?
    requires forall j :: 0 <= j < k ==> llm.embed(chunks[j]).Ok?
    ensures BuildPoints(file, chunks, llm, uuid, drawn) == Err(EmbedMessage(file, k, llm.embed(chunks[k]).error))
  {
    BuildPrefixOk(file, chunks, llm, uuid, drawn, k);
    var pre := chunks[..k + 1];
    assert pre[..k] == chunks[..k] && pre[k] == chunks[k];
    assert BuildPoints(file, pre, llm, uuid, drawn) == Err(EmbedMessage(file, k, llm.embed(chunks[k]).error));
    EmbedErrorPersists(file, chunks, llm, uuid, drawn, k + 1);
  }

  /** While every embedding succeeds, the points are built. */
  lemma {:induction false} BuildPrefixOk(file: seq<byte>, chunks: seq<seq<byte>>, llm: Llm, uuid: nat -> seq<byte>,
                                         drawn: nat, n: nat)
    requires n <= |chunks|
    requires forall j :: 0 <= j < n ==> llm.embed(chunks[j]).Ok?
    ensures BuildPoints(file, chunks[..n], llm, uuid, drawn).Ok?
  {
    if n > 0 {
      BuildPrefixOk(file, chunks, llm, uuid, drawn, n - 1);
      assert chunks[..n][..n - 1] == chunks[..n - 1];
    }
  }

  /** The batch of a file: one point per chunk, in chunk order, with payload index
      `k`, the base name as source, the chunk as text, the embedding of the chunk as
      vector, and consecutive uuid draws as ids. */
  predicate IsBatchOf(points: seq<Point>, file: seq<byte>, chunks: seq<seq<byte>>, llm: Llm,
                      uuid: nat -> seq<byte>, drawn: nat)
  {
    |points| == |chunks| &&
    forall k :: 0 <= k < |points| ==>
      llm.embed(chunks[k]).Ok? &&
      points[k] == Point(uuid(drawn + k), llm.embed(chunks[k]).value, Payload(chunks[k], Base(file), k))
  }

  lemma {:induction false} BatchShape(file: seq<byte>, chunks: seq<seq<byte>>, llm: Llm, uuid: nat -> seq<byte>, drawn: nat)
    requires BuildPoints(file, chunks, llm, uuid, drawn).Ok?
    ensures IsBatchOf(BuildPoints(file, chunks, llm, uuid, drawn).value, file, chunks, llm, uuid, drawn)
    decreases |chunks|
  {
    if chunks != [] {
      var idx := |chunks| - 1;
      var init := chunks[..idx];
      BatchShape(file, init, llm, uuid, drawn);
      var points := BuildPoints(file, chunks, llm, uuid, drawn).value;
      forall k | 0 <= k < idx
        ensures chunks[k] == init[k]
      {
      }
    }
  }

  /** The files that extract without error, in order. */
  function Readable(files: seq<seq<byte>>, extract: Extraction): (ok: seq<seq<byte>>)
    ensures forall j :: 0 <= j < |ok| ==> extract(ok[j]).Ok?
    decreases |files|
  {
    if files == [] then []
    else if extract(files[0]).Ok? then [files[0]] + Readable(files[1..], extract)
    else Readable(files[1..], extract)
  }

  /** Batch `points` holds the chunks of `file` as its payload texts, with the
      file's base name as source and the chunk positions as indices. */
  predicate BatchOfFile(points: seq<Point>, file: seq<byte>, cfg: Config, extract: Extraction)
    requires 0 <= cfg.chunkOverlap < cfg.chunkSize
  {
    extract(file).Ok? &&
    var chunks := FileChunks(extract(file).value, cfg);
    |points| == |chunks| &&
    forall k :: 0 <= k < |chunks| ==> points[k].payload == Payload(chunks[k], Base(file), k)
  }

  /** One batch per file of `ok`, in order, each the batch of its file. */
  predicate BatchesOfFiles(batches: seq<seq<Point>>, ok: seq<seq<byte>>, cfg: Config, extract: Extraction)
    requires 0 <= cfg.chunkOverlap < cfg.chunkSize
  {
    |batches| == |ok| &&
    forall j :: 0 <= j < |ok| ==> BatchOfFile(batches[j], ok[j], cfg, extract)
  }

  /** A run that ends without error wrote one batch per readable file, in file order,
      and batch `j` holds the chunks of the `j`-th readable file as its payload texts,
      with that file's base name as source and the chunk positions as indices. */
  lemma {:induction false} RunCompleted(files: seq<seq<byte>>, cfg: Config, extract: Extraction,
                                        env: Env, drawn: nat)
    requires 0 <= cfg.chunkOverlap < cfg.chunkSize
    requires RunFiles(files, cfg, extract, env, drawn).err.None?
    ensures BatchesOfFiles(RunFiles(files, cfg, extract, env, drawn).batches, Readable(files, extract), cfg, extract)
    decreases |files|
  {
    if files != [] {
      match Step(files[0], cfg, extract, env, drawn)
      case Skipped =>
        RunCompleted(files[1..], cfg, extract, env, drawn);
        SkippedFile(files, cfg, extract, env, drawn);
      case Stored(points, next) =>
        RunCompleted(files[1..], cfg, extract, env, next);
        StoredBatch(files[0], cfg, extract, env, drawn);
        StoredFile(files, cfg, extract, env, drawn, points, next);
    }
  }

  /** A file whose extraction failed adds no batch. */
  lemma {:induction false} SkippedFile(files: seq<seq<byte>>, cfg: Config, extract: Extraction, env: Env, drawn: nat)
    requires 0 <= cfg.chunkOverlap < cfg.chunkSize
    requires files != [] && Step(files[0], cfg, extract, env, drawn) == Skipped
    requires BatchesOfFiles(RunFiles(files[1..], cfg, extract, env, drawn).batches, Readable(files[1..], extract), cfg, extract)
    ensures BatchesOfFiles(RunFiles(files, cfg, extract, env, drawn).batches, Readable(files, extract), cfg, extract)
  {
  }

  /** A stored batch is the batch of its file. */
  lemma {:induction false} StoredBatch(file: seq<byte>, cfg: Config, extract: Extraction, env: Env, drawn: nat)
    requires 0 <= cfg.chunkOverlap < cfg.chunkSize
    requires Step(file, cfg, extract, env, drawn).Stored?
    ensures BatchOfFile(Step(file, cfg, extract, env, drawn).points, file, cfg, extract)
  {
    var chunks := FileChunks(extract(file).value, cfg);
    BatchShape(file, chunks, env.llm, env.uuid, drawn);
  }

  /** A stored file puts its batch in front of the batches of the files after it. */
  lemma {:induction false} StoredFile(files: seq<seq<byte>>, cfg: Config, extract: Extraction, env: Env, drawn: nat,
                                      points: seq<Point>, next: nat)
    requires 0 <= cfg.chunkOverlap < cfg.chunkSize
    requires files != [] && Step(files[0], cfg, extract, env, drawn) == Stored(points, next)
    requires BatchOfFile(points, files[0], cfg, extract)
    requires BatchesOfFiles(RunFiles(files[1..], cfg, extract, env, next).batches, Readable(files[1..], extract), cfg, extract)
    ensures BatchesOfFiles(RunFiles(files, cfg, extract, env, drawn).batches, Readable(files, extract), cfg, extract)
  {
    var rest := RunFiles(files[1..], cfg, extract, env, next).batches;
    assert RunFiles(files, cfg, extract, env, drawn).batches == [points] + rest;
    assert Readable(files, extract) == [files[0]] + Readable(files[1..], extract);
    BatchesCons(points, files[0], rest, Readable(files[1..], extract), cfg, extract);
  }

  lemma {:induction false} BatchesCons(b: seq<Point>, f: seq<byte>, bs: seq<seq<Point>>, fs: seq<seq<byte>>,
                                       cfg: Config, extract: Extraction)
    requires 0 <= cfg.chunkOverlap < cfg.chunkSize
    requires BatchOfFile(b, f, cfg, extract) && BatchesOfFiles(bs, fs, cfg, extract)
    ensures BatchesOfFiles([b] + bs, [f] + fs, cfg, extract)
  {
    forall j | 0 <= j < |fs| + 1
      ensures BatchOfFile(([b] + bs)[j], ([f] + fs)[j], cfg, extract)
    {
      if j > 0 {
        assert ([b] + bs)[j] == bs[j - 1] && ([f] + fs)[j] == fs[j - 1];
      }
    }
  }

  /** Files after the one that ends a run are never looked at. */
  lemma {:induction false} AbortIgnoresRest(files: seq<seq<byte>>, more: seq<seq<byte>>, cfg: Config,
                                            extract: Extraction, env: Env, drawn: nat)
    requires 0 <= cfg.chunkOverlap < cfg.chunkSize
    requires RunFiles(files, cfg, extract, env, drawn).err.Some?
    ensures RunFiles(files + more, cfg, extract, env, drawn) == RunFiles(files, cfg, extract, env, drawn)
    decreases |files|
  {
    assert files != [];
    assert (files + more)[0] == files[0] && (files + more)[1..] == files[1..] + more;
    match Step(files[0], cfg, extract, env, drawn)
    case Skipped =>
      AbortIgnoresRest(files[1..], more, cfg, extract, env, drawn);
    case Aborted(_, _) =>
    case Stored(_, next) =>
      AbortIgnoresRest(files[1..], more, cfg, extract, env, next);
  }
}
