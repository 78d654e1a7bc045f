/** The `/v1/chat` handler: the query is bound from the request body, embedded, used
    to retrieve the top three stored chunks, and wrapped with them in the prompt the
    model answers. Each step that fails answers with its own error and makes no
    further call. */
module Chat {
  import opened Bytes
  import opened Wrappers
  import opened Strings
  import opened Fmt
  import opened Ollama
  import opened Store

  const DefaultTopK: int := 3

  /** "\n---\n" */
  const ContextSeparator: seq<byte> := [10] + Ascii("---") + [10]

  /** The template text before the first verb: "你是物理领域专家，以下是与用户问题相关的文档片段：\n". */
  const PromptHead: seq<byte> := Wide("你是物理领域专家，以下是与用户问题相关的文档片段：") + [10]
  /** The template text between the verbs: "\n\n请结合上述内容，回答用户问题：". */
  const PromptMiddle: seq<byte> := [10, 10] + Wide("请结合上述内容，回答用户问题：")

  const PromptTemplate: seq<byte> := PromptHead + StringVerb + PromptMiddle + StringVerb

  const StatusBadRequest: int := 400
  const StatusInternalServerError: int := 500

  const ErrorKey: seq<byte> := Ascii("error")
  const ResponseKey: seq<byte> := Ascii("response")

  /** "生成 Embedding 失败: " */
  const EmbedFailed: seq<byte> := Wide("生成") + Ascii(" Embedding ") + Wide("失败") + Ascii(": ")
  /** "检索文档失败: " */
  const SearchFailed: seq<byte> := Wide("检索文档失败") + Ascii(": ")
  /** "调用模型失败: " */
  const CompleteFailed: seq<byte> := Wide("调用模型失败") + Ascii(": ")

  /** The validator's text for the `required` tag on `Query`. */
  const RequiredMessage: seq<byte> :=
    Ascii("Key: 'ChatRequest.Query' ") + Ascii("Error:Field ") + Ascii("validation for ") +
    Ascii("'Query' failed ") + Ascii("on the 'required' tag")

  // ---- The prompt ----

  /** The prompt for retrieved texts `docs` and the query `q`. */
  function Prompt(docs: seq<seq<byte>>, q: seq<byte>): seq<byte> {
    Sprintf(PromptTemplate, [Join(docs, ContextSeparator), q])
  }

  /** The template's fixed text holds no `%`, so its two verbs take the joined texts
      and the query, and nothing else changes. */
  lemma {:induction false} PromptLayout(docs: seq<seq<byte>>, q: seq<byte>)
    ensures Prompt(docs, q) == PromptHead + Join(docs, ContextSeparator) + PromptMiddle + q
  {
    var combined := Join(docs, ContextSeparator);
    WideHigh("你是物理领域专家，以下是与用户问题相关的文档片段：");
    WideHigh("请结合上述内容，回答用户问题：");
    assert Percent !in PromptHead;
    assert Percent !in PromptMiddle;
    assert PromptTemplate == PromptHead + StringVerb + (PromptMiddle + StringVerb);
    SprintfVerb(PromptHead, PromptMiddle + StringVerb, [combined, q]);
    assert [combined, q][1..] == [q];
    assert PromptMiddle + StringVerb == PromptMiddle + StringVerb + [];
    SprintfVerb(PromptMiddle, [], [q]);
  }

  /** Where retrieved text `k` starts in the prompt. */
  function DocOffset(docs: seq<seq<byte>>, k: nat): nat
    requires k <= |docs|
  {
    |PromptHead| + JoinOffset(docs, ContextSeparator, k)
  }

  /** Every retrieved text appears verbatim in the prompt, in retrieval order, with the
      separator between consecutive texts; the query closes the prompt. */
  lemma {:induction false} DocsInPrompt(docs: seq<seq<byte>>, q: seq<byte>, k: nat)
    requires k < |docs|
    ensures OccursAt(Prompt(docs, q), docs[k], DocOffset(docs, k))
    ensures k + 1 < |docs| ==>
              OccursAt(Prompt(docs, q), ContextSeparator, DocOffset(docs, k) + |docs[k]|) &&
              DocOffset(docs, k + 1) == DocOffset(docs, k) + |docs[k]| + |ContextSeparator|
    ensures OccursAt(Prompt(docs, q), q, |Prompt(docs, q)| - |q|)
  {
    PromptLayout(docs, q);
    Filled(PromptHead, docs, ContextSeparator, PromptMiddle, q, k);
  }

  // ---- The handler ----

  /** `ShouldBindJSON` into `ChatRequest`: the decoder's error, or the `query` field
      ("" when absent), which the `required` tag turns away when empty. */
  function Bind(decoded: Result<seq<byte>>): (r: Result<seq<byte>>)
    ensures r.Ok? <==> decoded.Ok? && decoded.value != []
    ensures r.Ok? ==> r.value == decoded.value
  {
    match decoded
    case Err(e) => Err(e)
    case Ok(q) => if q == [] then Err(RequiredMessage) else Ok(q)
  }

  /** The JSON object written back: one key and its string value, under a status. */
  datatype HttpReply = HttpReply(status: int, key: seq<byte>, value: seq<byte>)

  /** A call the handler makes to the embedder, to Qdrant or to the model. */
  datatype Call = EmbedCall(text: seq<byte>) | SearchCall(request: Request) | CompleteCall(prompt: seq<byte>)

  /** The reply written and the calls made, in order. */
  datatype Handled = Handled(reply: HttpReply, calls: seq<Call>)

  /** What the handler does with the decoded body. */
  function HandleSpec(llm: Llm, db: Client, send: Transport, decoded: Result<seq<byte>>): Handled {
    match Bind(decoded)
    case Err(e) => Handled(HttpReply(StatusBadRequest, ErrorKey, e), [])
    case Ok(q) =>
      match llm.embed(q)
      case Err(e) => Handled(HttpReply(StatusInternalServerError, ErrorKey, EmbedFailed + e), [EmbedCall(q)])
      case Ok(vec) =>
        var request := SearchRequest(db, vec, DefaultTopK);
        match SearchResult(send(request))
        case Err(e) =>
          Handled(HttpReply(StatusInternalServerError, ErrorKey, SearchFailed + e),
                  [EmbedCall(q), SearchCall(request)])
        case Ok(docs) =>
          var prompt := Prompt(docs, q);
          match llm.complete(prompt)
          case Err(e) =>
            Handled(HttpReply(StatusInternalServerError, ErrorKey, CompleteFailed + e),
                    [EmbedCall(q), SearchCall(request), CompleteCall(prompt)])
          case Ok(answer) =>
            Handled(HttpReply(StatusOk, ResponseKey, answer), [EmbedCall(q), SearchCall(request), CompleteCall(prompt)])
  }

  /** The `POST /v1/chat` closure. */
  method HandleChat(llm: Llm, db: Client, send: Transport, decoded: Result<seq<byte>>)
    returns (reply: HttpReply, calls: seq<Call>)
    ensures Handled(reply, calls) == HandleSpec(llm, db, send, decoded)
  {
    calls := [];
    var req := Bind(decoded);
    if req.Err? {
      return HttpReply(StatusBadRequest, ErrorKey, req.error), calls;
    }
    var query := req.value;
    calls := calls + [EmbedCall(query)];
    var vec := llm.embed(query);
    if vec.Err? {
      return HttpReply(StatusInternalServerError, ErrorKey, EmbedFailed + vec.error), calls;
    }
    calls := calls + [SearchCall(SearchRequest(db, vec.value, DefaultTopK))];
    var docs := Search(db, send, vec.value, DefaultTopK);
    if docs.Err? {
      return HttpReply(StatusInternalServerError, ErrorKey, SearchFailed + docs.error), calls;
    }
    var combined := Join(docs.value, ContextSeparator);
    var prompt := Sprintf(PromptTemplate, [combined, query]);
    calls := calls + [CompleteCall(prompt)];
    var answer := llm.complete(prompt);
    if answer.Err? {
      return HttpReply(StatusInternalServerError, ErrorKey, CompleteFailed + answer.error), calls;
    }
    reply := HttpReply(StatusOk, ResponseKey, answer.value);
  }

  // ---- What a request leads to ----

  /** A body that does not bind is turned away with 400 and the binding error, before
      any call. */
  lemma {:induction false} BindFailureRejects(llm: Llm, db: Client, send: Transport, decoded: Result<seq<byte>>)
    requires decoded.Err? || decoded.value == []
    ensures var h := HandleSpec(llm, db, send, decoded);
            h.reply.status == StatusBadRequest && h.reply.key == ErrorKey && h.calls == [] &&
            h.reply.value == (if decoded.Err? then decoded.error else RequiredMessage)
  {
  }

  /** A failed embedding answers 500 with "生成 Embedding 失败: " and the cause; the
      embedder was the only call. */
  lemma {:induction false} EmbedFailureStops(llm: Llm, db: Client, send: Transport, q: seq<byte>)
    requires q != [] && llm.embed(q).Err?
    ensures var h := HandleSpec(llm, db, send, Ok(q));
            h.reply == HttpReply(StatusInternalServerError, ErrorKey, EmbedFailed + llm.embed(q).error) &&
            h.calls == [EmbedCall(q)]
  {
  }

  /** A failed search answers 500 with "检索文档失败: " and the cause; the model is
      not called. */
  lemma {:induction false} SearchFailureStops(llm: Llm, db: Client, send: Transport, q: seq<byte>)
    requires q != [] && llm.embed(q).Ok?
    requires SearchResult(send(SearchRequest(db, llm.embed(q).value, DefaultTopK))).Err?
    ensures var request := SearchRequest(db, llm.embed(q).value, DefaultTopK);
            var h := HandleSpec(llm, db, send, Ok(q));
            h.reply == HttpReply(StatusInternalServerError, ErrorKey, SearchFailed + SearchResult(send(request)).error) &&
            h.calls == [EmbedCall(q), SearchCall(request)]
  {
  }

  /** Once the texts are retrieved the model gets the prompt built from them, and its
      answer is returned verbatim with 200, or its failure with 500 and
      "调用模型失败: ". */
  lemma {:induction false} Completion(llm: Llm, db: Client, send: Transport, q: seq<byte>)
    requires q != [] && llm.embed(q).Ok?
    requires SearchResult(send(SearchRequest(db, llm.embed(q).value, DefaultTopK))).Ok?
    ensures var request := SearchRequest(db, llm.embed(q).value, DefaultTopK);
            var docs := SearchResult(send(request)).value;
            var prompt := PromptHead + Join(docs, ContextSeparator) + PromptMiddle + q;
            var h := HandleSpec(llm, db, send, Ok(q));
            h.calls == [EmbedCall(q), SearchCall(request), CompleteCall(prompt)] &&
            h.reply == match llm.complete(prompt)
                       case Ok(answer) => HttpReply(StatusOk, ResponseKey, answer)
                       case Err(e) => HttpReply(StatusInternalServerError, ErrorKey, CompleteFailed + e)
  {
    var request := SearchRequest(db, llm.embed(q).value, DefaultTopK);
    PromptLayout(SearchResult(send(request)).value, q);
  }

  /** Every search asks Qdrant for the top 3 points with their payloads, with the
      query's own embedding; the calls come in the order embed, search, complete, each
      only after the one before succeeded; and the status is 200 exactly when all three
      were made and the model answered. */
  lemma {:induction false} CallDiscipline(llm: Llm, db: Client, send: Transport, decoded: Result<seq<byte>>)
    ensures var h := HandleSpec(llm, db, send, decoded);
            |h.calls| <= 3 &&
            (|h.calls| >= 1 ==> decoded.Ok? && h.calls[0] == EmbedCall(decoded.value)) &&
            (|h.calls| >= 2 ==>
               llm.embed(decoded.value).Ok? &&
               h.calls[1] == SearchCall(Request(Post, CollectionPath(db) + QuerySuffix,
                                                QueryBody(llm.embed(decoded.value).value, 3, true)))) &&
            (|h.calls| == 3 ==> h.calls[2].CompleteCall?) &&
            (h.reply.status == StatusOk <==> |h.calls| == 3 && llm.complete(h.calls[2].prompt).Ok?) &&
            h.reply.status in {StatusOk, StatusBadRequest, StatusInternalServerError}
  {
  }
}
