# physics-llm backend core, modelled in Dafny

This project models the Go backend of physics-llm, a retrieval-augmented question
answering service for physics documents, and proves properties of that model. The
backend has two halves:

- **Ingestion.** Every file of the knowledge directory is turned into plain text by an
  extractor chosen from its extension. The text is cut into overlapping windows of
  bytes, each window trimmed of white space. Each chunk is embedded by the language
  model, and the points of one file go to Qdrant in one upsert.
- **Chat.** `POST /v1/chat` binds the query, embeds it, retrieves the three nearest
  chunks from Qdrant, builds the prompt out of them and returns the model's answer.

Text is `seq<byte>`, since Go strings are bytes and `chunkText` slices bytes. String
literals are written with `Ascii` and `Wide` (UTF-8 of ASCII and of three-byte
characters), and lemmas show both agree with a UTF-8 encoder (`Utf8`). The byte strings
of the Chinese messages and the prompt template are thus exactly those the Go binary
holds.

Everything outside the process is a value passed in:

- the file system, zip archives and the XML and JSON decoders (`Sources.FileSystem`);
- the embedder and completer (`Ollama.Llm`);
- the HTTP exchange with Qdrant (`Store.Transport`);
- the directory listing and the uuid generator (`Ingest.Env`).

Modules follow the Go packages:

- `Registry` is `extractor.go`, a class whose `entries` map `Register` updates in place.
- `OfficeXml`, `PlainXml`, `JsonText`, `RMarkdown` and `Script` are the extractors.
- `Chunker` and `Ingest` are `ingest.go`.
- `Store` is `qdrant.go`.
- `Chat` is `chat.go`.
- `Bytes`, `Strings`, `FilePath`, `Fmt` and `XmlTokens` give the parts of Go's
  standard library that the core relies on, at byte level.

Each loop of the source is a method, proved against a specification function:

- `chunkText` is `Chunker.ChunkText`;
- the file and chunk loops of `Run` are `Ingest.Run` and `Ingest.EmbedChunks`;
- the token loop is `OfficeXml.ExtractTextFromXml`;
- the line loops are `RMarkdown.RewriteLines` and `Script.RewriteLines`, over an array.

Each specification function's properties are then proved as lemmas. The same holds for the methods without a loop, such as the extractors' `Extract`: their `ensures` ties them to a specification function, and the lemmas are stated about that function.

## Model

| member | source | states |
|---|---|---|
| Bytes.Utf8Ascii | internal/handler/chat.go:16-20 | an ASCII literal is stored one byte per character, and `Ascii` is its UTF-8 encoding |
| Bytes.Utf8Wide | internal/handler/chat.go:19 | a literal of CJK characters and punctuation is stored three bytes per character, and `Wide` is its UTF-8 encoding |
| Bytes.WideHigh | internal/handler/chat.go:19 | no byte of such a literal is ASCII, so the template's Chinese text holds no `%` |
| Strings.TrimSpaceSlice | internal/ingest/ingest.go:35 | `TrimSpace` returns the slice between the leading and the trailing white space, both of which are all white space; the result is empty exactly when the input is all white space, and otherwise starts and ends with a non-space byte |
| Strings.TrimSpaceIdempotent | internal/ingest/ingest.go:35 | trimming twice is trimming once |
| Strings.TrimSpaceKeepsNonSpace | internal/ingest/ingest.go:35 | every non-space byte of the input is kept, at its position shifted by the leading white space |
| Strings.TrimSpaceAvoids | internal/ingest/extractor/script.go:22 | trimming introduces no byte that was not in the input |
| Strings.TrimPrefix | internal/ingest/extractor/rmarkdown.go:33 | with the prefix present the result is what follows it; otherwise the input is unchanged |
| Strings.ToLower | internal/ingest/ingest.go:18 | same length, each byte lowercased |
| Strings.Index | internal/ingest/extractor/rmarkdown.go:19 | the first position where the needle occurs, with no earlier occurrence; none exactly when it does not occur |
| Strings.IndexAny | internal/ingest/extractor/script.go:19 | the first position holding a byte of the set, with none before it; none when no byte of the set occurs |
| Strings.IndexAnyAt | internal/ingest/extractor/script.go:19 | a set byte at `i` with none before it means `IndexAny` gives `i` |
| Strings.Split | internal/ingest/extractor/script.go:16 | at least one piece, and no piece holds the separator |
| Strings.JoinSplit | internal/ingest/extractor/script.go:16-24 | joining the pieces of a split with the separator gives back the input |
| Strings.SplitJoin | internal/ingest/extractor/rmarkdown.go:31-35 | splitting a join of separator-free lines gives back the lines |
| Strings.JoinSnoc | internal/ingest/extractor/docx_pptx.go:72 | joining one more part appends the separator and the part |
| Strings.JoinAt | internal/handler/chat.go:59 | a join splits at any part boundary into the join before, the separator and the join after |
| Strings.JoinPart | internal/handler/chat.go:59 | part `k` of a join occurs at its offset |
| Strings.JoinSeparator | internal/handler/chat.go:59 | the separator follows every part but the last, and the next part starts right after it |
| Strings.Filled | internal/handler/chat.go:59-60 | in `head + Join(parts, sep) + middle + q` each part, each separator and `q` sit at their offsets |
| FilePath.Ext | internal/ingest/ingest.go:18 | the extension is a suffix of the path, starts with a dot, and holds no further dot or slash |
| FilePath.ExtEmpty | internal/ingest/ingest.go:18 | the extension is empty exactly when the last element holds no dot |
| FilePath.ExtOfSuffix | internal/ingest/ingest.go:18 | a path ending in a dot followed by neither dots nor slashes has that suffix as its extension |
| FilePath.Base | internal/ingest/ingest.go:81 | never empty; for a path that does not end in a slash it is the last element |
| FilePath.DirOfChild | internal/ingest/extractor/docx_pptx.go:57 | the directory of `dir/name` is `dir` |
| Registry.Table.constructor | internal/ingest/extractor/extractor.go:7 | the registry starts empty |
| Registry.Table.Register | internal/ingest/extractor/extractor.go:9 | the map afterwards is the old map with `ext` set to `ex`, replacing any earlier entry, and every other key unchanged |
| Registry.Table.Get | internal/ingest/extractor/extractor.go:10 | found exactly when the key is in the map, byte for byte, and then the registered extractor |
| Registry.RegisterBuiltins | internal/ingest/extractor/docx_pptx.go:103-106 | the package `init` functions leave the map with the fourteen built-in extensions over the old map |
| Registry.PdfRegistrations | internal/ingest/extractor/pdf.go:41-44 | after the built-in registrations ".pdf" holds the text PDF extractor and ".scan.pdf" the OCR one, whatever was registered before |
| Registry.RegisterThenGet | internal/ingest/extractor/extractor.go:9-10 | a key just registered is found with its extractor, a second registration wins, another key is read the same before and after |
| XmlTokens.LocalName | internal/ingest/extractor/docx_pptx.go:95 | `Name.Local` is a suffix of the name as written |
| XmlTokens.LocalOfPrefixed | internal/ingest/extractor/docx_pptx.go:95 | `prefix:local` is reported with `local` alone |
| XmlTokens.LocalNeverPrefixed | internal/ingest/extractor/docx_pptx.go:95 | no element is ever reported with a prefixed `Name.Local` |
| XmlTokens.ConcatAppend | internal/ingest/extractor/docx_pptx.go:81-99 | the text of consecutive token runs is the concatenation of their texts |
| XmlTokens.ConcatPrefix | internal/ingest/extractor/docx_pptx.go:83-89 | the text of a stream cut short is a prefix of the text of the whole stream |
| OfficeXml.ExtractTextFromXml | internal/ingest/extractor/docx_pptx.go:77-101 | the loop writes the character data and one line break per matching end element; `textTag` plays no part |
| OfficeXml.DecodeErrorGivesPrefix | internal/ingest/extractor/docx_pptx.go:82-89 | after a decode error the text so far is returned, a prefix of the full text |
| OfficeXml.LineBreaksPerParagraph | internal/ingest/extractor/docx_pptx.go:94-97 | the text's line breaks are those of the character data plus exactly one per end element whose local name is `endTag` |
| OfficeXml.TextWithoutMatches | internal/ingest/extractor/docx_pptx.go:90-98 | with no matching end element, the text is the character data alone |
| OfficeXml.AsWrittenTagNeverMatches | internal/ingest/extractor/docx_pptx.go:41 | with `w:p` or `a:p` as `endTag`, no line break is ever written |
| OfficeXml.CorrectedTagBreaksParagraphs | internal/ingest/extractor/docx_pptx.go:94-97 | with `p`, the local name of both tags, every closed paragraph gives exactly one line break |
| OfficeXml.OneParagraph | internal/ingest/extractor/docx_pptx.go:68 | `<w:p>a</w:p>` gives "a" as written, and "a" with a line break when matched by local name |
| OfficeXml.FirstNamed | internal/ingest/extractor/docx_pptx.go:24-37 | the first entry with the name, no earlier one; none when no entry has it |
| OfficeXml.DocxExtract | internal/ingest/extractor/docx_pptx.go:16-42 | the result is that of the document text, with `w:t` and `w:p` as written: the first `word/document.xml` entry read and its text extracted |
| OfficeXml.DocxAsWritten | internal/ingest/extractor/docx_pptx.go:41 | a docx that is read gives exactly the character data of its document part, with no paragraph breaks |
| OfficeXml.DocxOutcome | internal/ingest/extractor/docx_pptx.go:17-40 | a docx fails exactly when the archive fails to open, has no `word/document.xml`, or that entry fails to read; the missing entry gives its own message |
| OfficeXml.SlidePartIsSlide | internal/ingest/extractor/docx_pptx.go:57 | `ppt/slides/<name>.xml` is a slide |
| OfficeXml.NestedPartIsNotSlide | internal/ingest/extractor/docx_pptx.go:57 | nothing in a sub-directory of `ppt/slides` is a slide |
| OfficeXml.Slides | internal/ingest/extractor/docx_pptx.go:55-57 | the slide entries, each a slide, no more than the entries |
| OfficeXml.SlideErrorPersists | internal/ingest/extractor/docx_pptx.go:58-66 | the first open or read error ends the loop, and no later entry changes it |
| OfficeXml.PptxExtract | internal/ingest/extractor/docx_pptx.go:47-73 | the result is the slide texts, with `a:t` and `a:p` as written, in archive order, joined with line breaks, or the first error |
| OfficeXml.PptxAsWritten | internal/ingest/extractor/docx_pptx.go:57-70 | when every slide is read, the `k`-th slide text is exactly the character data of the `k`-th slide, with no paragraph breaks |
| OfficeXml.SlideTextsOk | internal/ingest/extractor/docx_pptx.go:55-71 | the slide texts exist exactly when every slide entry reads; other entries are never opened |
| OfficeXml.SlideTextsBySlide | internal/ingest/extractor/docx_pptx.go:55-70 | one text per slide, in archive order, each the XML text of its slide |
| OfficeXml.NoSlidesGiveEmptyText | internal/ingest/extractor/docx_pptx.go:72 | an archive without slides gives "" and no error |
| PlainXml.Extract | internal/ingest/extractor/xml.go:13-39 | the loop's text is the words of the token stream |
| PlainXml.XmlOutcome | internal/ingest/extractor/xml.go:14-29 | only an open failure is an error; a stream ending in a decode error still gives its text |
| PlainXml.Pieces | internal/ingest/extractor/xml.go:30-32 | blank character data contributes no piece |
| PlainXml.WordsArePieces | internal/ingest/extractor/xml.go:22-37 | the text is the trimmed non-blank character data joined by spaces, with one more space at the end, or empty |
| PlainXml.EndsWithOneSpace | internal/ingest/extractor/xml.go:33-34 | a non-empty text ends with exactly one space |
| PlainXml.DecodeErrorGivesPrefix | internal/ingest/extractor/xml.go:27-29 | the text of a stream cut short is a prefix of the text of the whole stream |
| JsonText.ExtractJsonStrings | internal/ingest/extractor/json.go:27-41 | `out` is kept as it is and the strings of the value are appended |
| JsonText.Extract | internal/ingest/extractor/json.go:12-24 | the result is that of the read, the parse and the space join |
| JsonText.JsonOutcome | internal/ingest/extractor/json.go:13-23 | a read or parse error is the result unchanged; otherwise the strings joined by single spaces |
| JsonText.ElemPartsAppend | internal/ingest/extractor/json.go:31-34 | array elements contribute in element order |
| JsonText.MemberPartsAppend | internal/ingest/extractor/json.go:35-39 | object members contribute in iteration order, each key right before its value's strings |
| JsonText.PartsCount | internal/ingest/extractor/json.go:27-40 | one string per string value and per object key; null, booleans and numbers give none |
| JsonText.MemberPartsPermutation | internal/ingest/extractor/json.go:35-39 | any order of the members gives the same strings up to order |
| JsonText.MemberOrderIrrelevant | internal/ingest/extractor/json.go:35-39 | the strings of an object do not depend on Go's map iteration order, as a multiset |
| RMarkdown.NextTurn | internal/ingest/extractor/rmarkdown.go:19-27 | an unterminated chunk starts within the text; a chunk ends after it starts, within the text |
| RMarkdown.FindChunk | internal/ingest/extractor/rmarkdown.go:19-24 | the two `Index` calls give the next turn of the loop |
| RMarkdown.TurnFacts | internal/ingest/extractor/rmarkdown.go:19-27 | no chunk exactly when no "```{r" occurs; otherwise it starts at the first one, and a chunk ends after the first fence past its opening byte, or there is none |
| RMarkdown.StripChunks | internal/ingest/extractor/rmarkdown.go:18-29 | chunk removal never lengthens the text |
| RMarkdown.StripTurn | internal/ingest/extractor/rmarkdown.go:28 | one turn removes the chunk and the loop goes on with what is left |
| RMarkdown.StripLoop | internal/ingest/extractor/rmarkdown.go:18-29 | the loop terminates, each turn shortening `src`, with the stripped text |
| RMarkdown.NoChunkKept | internal/ingest/extractor/rmarkdown.go:19-22 | text without "```{r" is kept as it is |
| RMarkdown.UnterminatedChunk | internal/ingest/extractor/rmarkdown.go:24-27 | an unterminated chunk truncates the text at its opening |
| RMarkdown.ChunkRemoved | internal/ingest/extractor/rmarkdown.go:28 | a chunk is cut from its "```{r" through its closing fence, keeping the text before it verbatim |
| RMarkdown.NoChunkLeft | internal/ingest/extractor/rmarkdown.go:18-29 | no "```{r" is left after the loop |
| RMarkdown.JunctionCanOpenChunk | internal/ingest/extractor/rmarkdown.go:28 | the text joined around a removed chunk can form a new "```{r", so one pass of the regular expression does not suffice (`RMarkdown.NoChunkLeft` shows the loop leaves none) |
| RMarkdown.CleanLineWithin | internal/ingest/extractor/rmarkdown.go:33 | the rewrite introduces no byte that was not in the line |
| RMarkdown.CleanLineExample | internal/ingest/extractor/rmarkdown.go:33 | "## x" becomes "# x" |
| RMarkdown.LinesPreserved | internal/ingest/extractor/rmarkdown.go:31-35 | as many lines as the stripped text, line `k` being line `k` trimmed and without one leading `#` |
| RMarkdown.RewriteLines | internal/ingest/extractor/rmarkdown.go:32-34 | every array slot holds its line rewritten |
| RMarkdown.Extract | internal/ingest/extractor/rmarkdown.go:11-36 | the result is that of the read, the chunk removal and the line rewrite |
| RMarkdown.RmdOutcome | internal/ingest/extractor/rmarkdown.go:12-15 | a read error is the result unchanged; otherwise the rewritten text |
| Script.CodeLineShape | internal/ingest/extractor/script.go:19-22 | a rewritten line holds no `#` or `%`, no white space at either end, and only bytes of the line |
| Script.CodeWithoutComment | internal/ingest/extractor/script.go:19-22 | a line without a comment byte is only trimmed |
| Script.ScriptLines | internal/ingest/extractor/script.go:16-24 | as many lines as the input, line `k` being line `k` rewritten; no `#` or `%` in the text |
| Script.JoinAvoids | internal/ingest/extractor/script.go:24 | joining lines without a byte, with a different separator, gives text without it |
| Script.RewriteLines | internal/ingest/extractor/script.go:17-23 | every array slot holds its line rewritten |
| Script.Extract | internal/ingest/extractor/script.go:11-25 | the result is that of the read and the line rewrite |
| Script.ScriptOutcome | internal/ingest/extractor/script.go:13-15 | a read error is the result unchanged; otherwise the rewritten text |
| Store.Search | internal/store/qdrant.go:37-73 | the result for the reply to the query POST, its loop collecting the string `text` payloads |
| Store.SearchErrors | internal/store/qdrant.go:59-64 | a transport error or error status is an error with the cause or the status line, and no texts |
| Store.PayloadTextsAppend | internal/store/qdrant.go:66-71 | the texts keep the order of the points |
| Store.PayloadTextsMembers | internal/store/qdrant.go:66-71 | a text is returned exactly when some point carries it as its string `text` |
| Store.PayloadTextsCount | internal/store/qdrant.go:66-72 | no more texts than points, exactly as many when every point has a string `text`; no cut to `topK` |
| Store.EnsureCollection | internal/store/qdrant.go:76-83 | the first request is the GET of the collection |
| Store.ExistingCollection | internal/store/qdrant.go:80-83 | a 200 to the GET means no PUT and no error |
| Store.MissingCollection | internal/store/qdrant.go:86-101 | otherwise one PUT with `size = dim` and the cosine distance, whose failure or error status is the result |
| Store.UpsertErrors | internal/store/qdrant.go:105-122 | one PUT of all points; an error exactly on a transport error or error status, with the cause, or the status and body |
| Ingest.ExtractWith | internal/ingest/ingest.go:19-20 | the extractor's own `Extract` gives its text |
| Ingest.ExtractText | internal/ingest/ingest.go:17-25 | the registered extractor of the lowercased extension, or else the raw file |
| Ingest.KeyOfSuffix | internal/ingest/ingest.go:18 | a name ending in an extension is looked up under it lowercased, whatever precedes it |
| Ingest.KeyShape | internal/ingest/ingest.go:18 | a lookup key holds at most one dot, at its start |
| Ingest.ScanPdfUnreachable | internal/ingest/ingest.go:18-19 | the ".scan.pdf" key is never looked up |
| Ingest.AsWrittenScanPdfReadsAsPdf | internal/ingest/extractor/pdf.go:42-43 | a name ending in ".scan.pdf" is looked up under ".pdf" and reaches the text PDF extractor |
| Ingest.IntendedKeyReachesScanPdf | internal/ingest/extractor/pdf.go:43 | under the intended key, a name ending in ".scan.pdf" reaches the OCR extractor |
| Ingest.FallbackReadsFile | internal/ingest/ingest.go:22-24 | a file without a registered extractor is read as it is |
| Ingest.Decimal | internal/ingest/ingest.go:73 | `%d` writes decimal digits only |
| Ingest.DecimalValue | internal/ingest/ingest.go:73 | and those digits are the number |
| Ingest.EmbedErrorPersists | internal/ingest/ingest.go:70-74 | the first failed embedding ends the file's points |
| Ingest.UpsertFile | internal/ingest/ingest.go:88-90 | the upsert's error is wrapped with the file name |
| Ingest.EmbedChunks | internal/ingest/ingest.go:69-85 | the loop builds the file's points, or stops at the first failed embedding |
| Ingest.IngestFile | internal/ingest/ingest.go:58-90 | one file: skipped, ending the run, or stored |
| Ingest.Run | internal/ingest/ingest.go:44-95 | the batches sent and the error returned are those of the run over the listed files |
| Ingest.SkipUnreadable | internal/ingest/ingest.go:58-62 | an extraction error skips the file, as if it were absent |
| Ingest.EmbedFailureAborts | internal/ingest/ingest.go:70-74 | a failed embedding ends the run before the upsert, naming the file and the first failing chunk |
| Ingest.UpsertFailureAborts | internal/ingest/ingest.go:88-90 | a failed upsert ends the run after its batch was sent, naming the file |
| Ingest.FirstEmbedFailure | internal/ingest/ingest.go:70-74 | the points fail exactly at the first failing chunk |
| Ingest.BatchShape | internal/ingest/ingest.go:69-85 | points are one per chunk, in order, with payload index `k`, base name, chunk text, its embedding and consecutive uuid draws |
| Ingest.Readable | internal/ingest/ingest.go:57-62 | the files that extract without error |
| Ingest.RunCompleted | internal/ingest/ingest.go:57-91 | a run without error upserts one batch per readable file, in file order, holding that file's chunks with index and source |
| Ingest.AbortIgnoresRest | internal/ingest/ingest.go:57-90 | files after the one that ends the run are never looked at |
| Chunker.ChunkText | internal/ingest/ingest.go:28-41 | the loop gives the chunks of the text, each at most `size` bytes |
| Chunker.WindowTurn | internal/ingest/ingest.go:30-38 | each turn's window starts within the text, the next start is one step later, and another turn follows exactly when this window ends short of the text |
| Chunker.ChunkCount | internal/ingest/ingest.go:30-38 | empty text gives no chunk; otherwise `1 + ceil(max(0, len - size) / (size - overlap))` chunks |
| Chunker.ChunksNonEmpty | internal/ingest/ingest.go:28-41 | no chunks exactly for empty text |
| Chunker.ChunkCountByOverlap | internal/ingest/ingest.go:30-38 | `ceil((len - overlap) / (size - overlap))` chunks for text longer than the overlap, one for shorter non-empty text |
| Chunker.ChunkAt | internal/ingest/ingest.go:30-35 | chunk `k` is `TrimSpace(text[k*step : min(k*step + size, len)])`, at most `size` bytes |
| Chunker.ShortText | internal/ingest/ingest.go:31-38 | non-empty text of at most `size` bytes gives exactly one chunk, the trimmed text |
| Chunker.Example1200 | internal/ingest/ingest.go:30-38 | 1200 bytes with 500/50 give three chunks from [0,500), [450,950), [900,1200) |
| Chunker.WindowsOverlap | internal/ingest/ingest.go:30-35 | every window but the last has `size` bytes, and consecutive windows share exactly `overlap` bytes |
| Chunker.Reconstruct | internal/ingest/ingest.go:30-35 | the first window and every later one without its first `overlap` bytes give back the text |
| Chunker.BlankWindowGivesEmptyChunk | internal/ingest/ingest.go:35 | a white-space window becomes an empty chunk, which is kept |
| Fmt.SprintfVerbatim | internal/handler/chat.go:60 | text without `%` is written as it is |
| Fmt.SprintfVerb | internal/handler/chat.go:60 | each `%s` takes the next argument |
| Fmt.SprintfMissing | internal/handler/chat.go:60 | a `%s` with no argument left writes "%!s(MISSING)" |
| Chat.PromptLayout | internal/handler/chat.go:59-60 | the prompt is the fixed head, the retrieved texts joined by "\n---\n", the fixed middle and the query |
| Chat.DocsInPrompt | internal/handler/chat.go:59-60 | every retrieved text is in the prompt verbatim, in order, with the separator between consecutive ones; the query ends it |
| Chat.Bind | internal/handler/chat.go:35-39 | binding succeeds exactly for a decoded, non-empty query, which it returns |
| Chat.HandleChat | internal/handler/chat.go:34-70 | the reply and the calls made are those of the handler's specification |
| Chat.BindFailureRejects | internal/handler/chat.go:36-39 | a body that does not bind gives 400 with the binding error and no call |
| Chat.EmbedFailureStops | internal/handler/chat.go:45-49 | a failed embedding gives 500 with "生成 Embedding 失败: " and the cause, with no search or completion |
| Chat.SearchFailureStops | internal/handler/chat.go:52-56 | a failed search gives 500 with "检索文档失败: " and the cause, with no completion |
| Chat.Completion | internal/handler/chat.go:59-69 | the model gets the built prompt; its answer comes back verbatim with 200, a failure with 500 and "调用模型失败: " |
| Chat.CallDiscipline | internal/handler/chat.go:44-69 | calls come as embed, search, complete, each after the one before succeeded; the search asks for the top 3 with payloads and the query's own embedding; 200 exactly when all three succeeded |

## Left out

- The PDF, scanned-PDF, HTML and YAML extractors are third-party code: a PDF reader, a `tesseract` subprocess, goquery and yaml.v3. The model treats their results as given (`FileSystem.external`).
- The zip reader and the XML and JSON decoders themselves are left out: archives are given entry lists, XML files token streams, JSON files decoded trees.
- Go's map iteration order is unspecified. Object members come in an arbitrary order, and `JsonText.MemberOrderIrrelevant` shows the strings agree up to order.
- Embedding vectors are float32 in the source; here they are opaque bit patterns with no similarity arithmetic.
- The embedder, the completer and the Ollama client are not part of this model. Their calls are functions from input to result.
- `uuid.New` is an oracle whose `n`-th draw is a parameter.
- Logging, `context` deadlines and cancellation, and the chat handler's 15-second timeout are not modelled.
- The directory glob is an oracle. `filepath.Join` of the pattern is not modelled.
- Configuration loading, `main`, and server start and shutdown are not part of this model. The entry points are `Ingest.Run`, `Chat.HandleChat` and `Store.EnsureCollection`.
- The `web/` React UI is not part of this model.
- Strings.TrimSpace: removes only the six ASCII white-space bytes, not Unicode white space such as U+00A0 or U+3000.
- Strings.ToLower: lowercases only ASCII letters, not non-ASCII upper-case letters.
- FilePath.Dir: does not apply `filepath.Clean`, and its contract states only that the result is non-empty. Zip entry names are taken as clean slash-separated paths, and `FilePath.DirOfChild` gives the case the slide test needs.
- Fmt.Sprintf: handles only `%s` verbs and a missing argument. Other verbs and the `%!(EXTRA …)` suffix for surplus arguments are not modelled. The template has exactly two verbs and two arguments.
- Chat.Bind: gin's JSON decoding is an input. The `required` message is written out as the validator's text, and the library itself is not modelled.
- Chunker.ChunkText: requires `0 <= overlap < size`, which the configuration never checks (config.go reads both from the environment). On non-empty text the source's other settings behave as follows, and none of them is modelled:
  - a negative overlap with a positive size steps further than a window, so bytes between windows are skipped, and the loop ends at the first start past the text;
  - a size of 0 with a negative overlap gives empty chunks until the start passes the text;
  - `overlap == size`, including both 0, loops forever once the text is longer than `size`;
  - `overlap > size`, including a size of 0, moves `start` below 0 after the first window, and `text[start:end]` panics;
  - a negative size makes `end` smaller than `start`, and the slice panics.
  The empty text gives no chunks under every setting, which `Chunker.ChunksNonEmpty` states for the modelled ones.
- Ingest.Run: inherits the `0 <= overlap < size` requires of `Chunker.ChunkText`, with the same cases left out. So do `Ingest.RunFiles`, `Ingest.IngestFile` and the lemmas about them.
- Store.EnsureCollection: the request bodies are datatypes, not serialized JSON. The collection name is not URL-escaped, as in the source. Resty's base URL and headers are not modelled.
- Store.Search: the result is not cut down to `topK`, as in the source; `Store.PayloadTextsCount` states this.

## Findings

| source | as written | input that shows it | evidently intended | confidence | as-written member | corrected member |
|---|---|---|---|---|---|---|
| internal/ingest/extractor/docx_pptx.go:41 | `extractTextFromXML(raw, "w:t", "w:p")` compares `Name.Local` with "w:p", but the decoder reports `</w:p>` with `Local == "p"` | `<w:p>a</w:p>` gives "a" with no line break | a line break after every paragraph | not executed | OfficeXml.AsWrittenTagNeverMatches | OfficeXml.CorrectedTagBreaksParagraphs |
| internal/ingest/extractor/docx_pptx.go:68 | `extractTextFromXML(raw, "a:t", "a:p")`: the same comparison with "a:p" never holds | `<a:p>a</a:p>` gives "a" with no line break | a line break after every paragraph | not executed | OfficeXml.AsWrittenTagNeverMatches | OfficeXml.CorrectedTagBreaksParagraphs |
| internal/ingest/extractor/pdf.go:43 | registers ".scan.pdf", but `extractText` looks up `filepath.Ext`, which is only ".pdf" | "paper.scan.pdf" is read by the text PDF extractor | scanned PDFs reach the OCR extractor | not executed | Ingest.AsWrittenScanPdfReadsAsPdf | Ingest.IntendedKeyReachesScanPdf |

The extractors in the model pass "w:p" and "a:p", as written; `OfficeXml.DocxAsWritten` and `OfficeXml.PptxAsWritten` state what they then return. The corrected tag is the local name "p" (`OfficeXml.ParagraphTag`), and `OfficeXml.CorrectedTagBreaksParagraphs` states its line breaks.
`OfficeXml.OneParagraph` gives the concrete input `<w:p>a</w:p>` under both tags.
