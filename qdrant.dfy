/** The Qdrant client: vector search, collection bootstrap and batched upsert over
    Qdrant's HTTP API. The HTTP exchange is a function from the request sent to the
    reply received. */
module Store {
  import opened Bytes
  import opened Wrappers
  import opened Strings
  import opened Sources
  import opened Ollama

  /** The payload of a point written at ingestion. */
  datatype Payload = Payload(text: seq<byte>, source: seq<byte>, index: nat)

  /** `store.Point`. */
  datatype Point = Point(id: seq<byte>, vector: Vector, payload: Payload)

  /** A client bound to one collection; the base URL lives in the transport. */
  datatype Client = Client(collection: seq<byte>)

  datatype Verb = Get | Put | Post

  /** The JSON bodies the client sends. */
  datatype Body =
    | NoBody
    | QueryBody(query: Vector, limit: int, withPayload: bool)
    | CreateBody(size: int, distance: seq<byte>)
    | PointsBody(points: seq<Point>)

  datatype Request = Request(verb: Verb, path: seq<byte>, body: Body)

  /** What resty hands back: an error (connection, context, decoding), or a response
      with its status code, status line, body text and, for a search, the payloads
      of `result.points` as decoded. */
  datatype Reply =
    | Failure(cause: seq<byte>)
    | Response(code: int, status: seq<byte>, body: seq<byte>, payloads: seq<map<seq<byte>, Json>>)

  type Transport = Request -> Reply

  /** resty's `IsError`: a status code above 399. */
  predicate IsError(code: int) {
    code > 399
  }

  const StatusOk: int := 200
  const CollectionsPath: seq<byte> := Ascii("/collections/")
  const QuerySuffix: seq<byte> := Ascii("/points/query")
  const PointsSuffix: seq<byte> := Ascii("/points")
  const TextKey: seq<byte> := Ascii("text")
  const Cosine: seq<byte> := Ascii("Cosine")
  const SearchError: seq<byte> := Ascii("qdrant search error: ")
  const CreateError: seq<byte> := Ascii("create collection: ")
  const UpsertRequestFailed: seq<byte> := Ascii("qdrant upsert request failed: ")
  const UpsertError: seq<byte> := Ascii("qdrant upsert error: ")
  /** " — ": an em dash between two spaces. */
  const DashSeparator: seq<byte> := Ascii(" ") + Wide("—") + Ascii(" ")

  function CollectionPath(c: Client): seq<byte> {
    CollectionsPath + c.collection
  }

  // ---- Search ----

  /** The query `Search` posts: the vector, `limit` = `topK` and the payloads asked
      for. */
  function SearchRequest(c: Client, vector: Vector, topK: int): Request {
    Request(Post, CollectionPath(c) + QuerySuffix, QueryBody(vector, topK, true))
  }

  /** The `text` payload of a point, when it is a JSON string. */
  function TextOf(payload: map<seq<byte>, Json>): Option<seq<byte>> {
    if TextKey in payload && payload[TextKey].Str? then Some(payload[TextKey].s) else None
  }

  /** The texts of the points that carry a string `text`, in result order. */
  function PayloadTexts(payloads: seq<map<seq<byte>, Json>>): seq<seq<byte>>
    decreases |payloads|
  {
    if payloads == [] then []
    else
      var init := PayloadTexts(payloads[..|payloads| - 1]);
      match TextOf(payloads[|payloads| - 1])
      case None => init
      case Some(t) => init + [t]
  }

  /** What `Search` returns for the reply it got. */
  function SearchResult(reply: Reply): Result<seq<seq<byte>>> {
    match reply
    case Failure(cause) => Err(cause)
    case Response(code, status, _, payloads) =>
      if IsError(code) then Err(SearchError + status) else Ok(PayloadTexts(payloads))
  }

  /** `Client.Search`. */
  method Search(c: Client, send: Transport, vector: Vector, topK: int) returns (r: Result<seq<seq<byte>>>)
    ensures r == SearchResult(send(SearchRequest(c, vector, topK)))
  {
    var reply := send(SearchRequest(c, vector, topK));
    if reply.Failure? {
      return Err(reply.cause);
    }
    if IsError(reply.code) {
      return Err(SearchError + reply.status);
    }
    var texts := [];
    for i := 0 to |reply.payloads|
      invariant texts == PayloadTexts(reply.payloads[..i])
    {
      assert reply.payloads[..i + 1][..i] == reply.payloads[..i];
      var text := TextOf(reply.payloads[i]);
      if text.Some? {
        texts := texts + [text.value];
      }
    }
    assert reply.payloads[..|reply.payloads|] == reply.payloads;
    r := Ok(texts);
  }

  /** A transport error or an error status gives an error and no texts; the error
      carries the cause, or the status line after "qdrant search error: ". */
  lemma {:induction false} SearchErrors(reply: Reply)
    ensures reply.Failure? ==> SearchResult(reply) == Err(reply.cause)
    ensures reply.Response? && IsError(reply.code) ==>
              SearchResult(reply) == Err(SearchError + reply.status)
    ensures SearchResult(reply).Ok? <==> reply.Response? && !IsError(reply.code)
  {
  }

  /** Texts of consecutive runs of points are the concatenation of their texts, so the
      texts keep the order of the points. */
  lemma {:induction false} PayloadTextsAppend(a: seq<map<seq<byte>, Json>>, b: seq<map<seq<byte>, Json>>)
    ensures PayloadTexts(a + b) == PayloadTexts(a) + PayloadTexts(b)
    decreases |b|
  {
    if b == [] {
      assert a + b == a;
    } else {
      var b' := b[..|b| - 1];
      assert (a + b)[..|a + b| - 1] == a + b';
      assert (a + b)[|a + b| - 1] == b[|b| - 1];
      PayloadTextsAppend(a, b');
    }
  }

  /** A text is returned exactly when some point carries it as its string `text`. */
  lemma {:induction false} PayloadTextsMembers(payloads: seq<map<seq<byte>, Json>>, t: seq<byte>)
    ensures t in PayloadTexts(payloads) <==>
              exists k :: 0 <= k < |payloads| && TextOf(payloads[k]) == Some(t)
    decreases |payloads|
  {
    if payloads != [] {
      var init := payloads[..|payloads| - 1];
      PayloadTextsMembers(init, t);
      assert forall k :: 0 <= k < |init| ==> init[k] == payloads[k];
      if exists k :: 0 <= k < |payloads| && TextOf(payloads[k]) == Some(t) {
        var k :| 0 <= k < |payloads| && TextOf(payloads[k]) == Some(t);
        if k < |init| {
          assert TextOf(init[k]) == Some(t);
        }
      }
    }
  }

  /** No more texts than points; exactly as many when every point has a string
      `text`: the client does not cut the result down to the `limit` it sent. */
  lemma {:induction false} PayloadTextsCount(payloads: seq<map<seq<byte>, Json>>)
    ensures |PayloadTexts(payloads)| <= |payloads|
    ensures |PayloadTexts(payloads)| == |payloads| <==>
              forall k :: 0 <= k < |payloads| ==> TextOf(payloads[k]).Some?
    decreases |payloads|
  {
    if payloads != [] {
      var init := payloads[..|payloads| - 1];
      PayloadTextsCount(init);
      assert forall k :: 0 <= k < |init| ==> init[k] == payloads[k];
    }
  }

  // ---- Collection bootstrap and upsert ----

  /** The requests a call sent, in order, and the error it returned, if any. */
  datatype Exchange = Exchange(sent: seq<Request>, err: Option<seq<byte>>)

  function CreateRequest(c: Client, dim: int): Request {
    Request(Put, CollectionPath(c), CreateBody(dim, Cosine))
  }

  /** `Client.EnsureCollection`: a GET of the collection; unless it succeeds with 200,
      a PUT that creates it. */
  function EnsureCollection(c: Client, send: Transport, dim: int): (x: Exchange)
    ensures |x.sent| >= 1 && x.sent[0] == Request(Get, CollectionPath(c), NoBody)
  {
    var probe := Request(Get, CollectionPath(c), NoBody);
    var got := send(probe);
    if got.Response? && got.code == StatusOk then Exchange([probe], None)
    else
      var created := send(CreateRequest(c, dim));
      var err := match created
        case Failure(cause) => Some(cause)
        case Response(code, status, _, _) => if IsError(code) then Some(CreateError + status) else None;
      Exchange([probe, CreateRequest(c, dim)], err)
  }

  /** An existing collection is left alone: no PUT, no error. */
  lemma {:induction false} ExistingCollection(c: Client, send: Transport, dim: int)
    requires send(Request(Get, CollectionPath(c), NoBody)).Response?
    requires send(Request(Get, CollectionPath(c), NoBody)).code == StatusOk
    ensures EnsureCollection(c, send, dim) == Exchange([Request(Get, CollectionPath(c), NoBody)], None)
  {
  }

  /** Any other answer to the GET, a transport error included, leads to one PUT
      asking for vectors of size `dim` under the cosine distance; its failure is the
      result. */
  lemma {:induction false} MissingCollection(c: Client, send: Transport, dim: int)
    requires var got := send(Request(Get, CollectionPath(c), NoBody));
             !(got.Response? && got.code == StatusOk)
    ensures EnsureCollection(c, send, dim).sent ==
              [Request(Get, CollectionPath(c), NoBody), Request(Put, CollectionPath(c), CreateBody(dim, Cosine))]
    ensures var created := send(CreateRequest(c, dim));
            EnsureCollection(c, send, dim).err.None? <==> created.Response? && !IsError(created.code)
    ensures var created := send(CreateRequest(c, dim));
            created.Response? && IsError(created.code) ==>
              EnsureCollection(c, send, dim).err == Some(CreateError + created.status)
  {
  }

  function UpsertRequest(c: Client, points: seq<Point>): Request {
    Request(Put, CollectionPath(c) + PointsSuffix, PointsBody(points))
  }

  /** The error `Upsert` returns for the reply to its PUT. */
  function UpsertOutcome(reply: Reply): Option<seq<byte>> {
    match reply
    case Failure(cause) => Some(UpsertRequestFailed + cause)
    case Response(code, status, body, _) =>
      if IsError(code) then Some(UpsertError + status + DashSeparator + body) else None
  }

  /** `Client.Upsert`: one PUT of all the points. */
  function Upsert(c: Client, send: Transport, points: seq<Point>): Exchange {
    Exchange([UpsertRequest(c, points)], UpsertOutcome(send(UpsertRequest(c, points))))
  }

  /** An upsert sends the whole batch in one PUT to the collection's points. It fails
      exactly when the transport fails, with the cause wrapped, or the status is an
      error, with the status line and the response body. */
  lemma {:induction false} UpsertErrors(c: Client, send: Transport, points: seq<Point>)
    ensures Upsert(c, send, points).sent ==
              [Request(Put, CollectionsPath + c.collection + PointsSuffix, PointsBody(points))]
    ensures var reply := send(UpsertRequest(c, points));
            Upsert(c, send, points).err.None? <==> reply.Response? && !IsError(reply.code)
    ensures var reply := send(UpsertRequest(c, points));
            reply.Failure? ==> Upsert(c, send, points).err == Some(UpsertRequestFailed + reply.cause)
    ensures var reply := send(UpsertRequest(c, points));
            reply.Response? && IsError(reply.code) ==>
              Upsert(c, send, points).err == Some(UpsertError + reply.status + DashSeparator + reply.body)
  {
  }
}
