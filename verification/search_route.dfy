/** The search endpoint (`POST` in app/api/search/route.ts): embed the prompt,
    query the vector index, assemble a grounding prompt from the sanitised
    match texts, start a streaming chat completion and relay it as
    server-sent events. The three provider calls are parameters; every error
    they throw before the stream starts becomes a 500 JSON body. */
module SearchRoute {
  import opened Wrappers
  import opened Strings
  import opened SplitJoin
  import opened Sanitizer
  import opened JsValues
  import opened Chat

  /** The two fields destructured from the request body. An absent field is
      `Undefined`; nothing checks that `prompt` is present. */
  datatype SearchFields = SearchFields(prompt: JsValue, language: JsValue)

  /** One vector-store match, seen through `match.metadata?.text`
      (`Undefined` when there is no metadata). */
  datatype Match = Match(metadataText: JsValue)

  /** The vector-store answer: its matches in rank order, and its JSON text
      as `JSON.stringify` renders it. */
  datatype QueryResponse = QueryResponse(matches: seq<Match>, json: JStr)

  /** One streamed completion chunk: `chunk.choices[0]?.delta?.content`
      (`Undefined` when `choices[0]` or its `delta` is absent) and the
      chunk's JSON text. A chunk without `choices` makes that expression
      throw; the model counts it as the `failure` of the completion. */
  datatype Chunk = Chunk(content: JsValue, json: JStr)

  /** The chunks the completion yields, in arrival order, and the error the
      iteration throws after them, if any. */
  datatype Completion = Completion(chunks: seq<Chunk>, failure: Option<Error>)

  type Embedding = seq<real>

  datatype EmbeddingRequest = EmbeddingRequest(model: JStr, input: JsValue, encodingFormat: JStr)
  datatype VectorQuery = VectorQuery(vector: Embedding, topK: nat, includeMetadata: bool)
  datatype CompletionRequest = CompletionRequest(model: JStr, messages: seq<Message>, stream: bool)

  datatype Provider = EmbeddingProvider | VectorStore | ChatCompletion

  /** How the event stream ends: `controller.close()` after the last chunk,
      or `controller.error(e)` when the iteration throws. */
  datatype Termination = Closed | Errored(error: Error)

  datatype Response =
    | EventStream(frames: seq<JStr>, termination: Termination)
    | JsonError(status: int, error: JStr, details: JStr, typeName: JStr)

  /** The response, and which providers were called, in order. */
  datatype Handled = Handled(response: Response, calls: seq<Provider>)

  const EMBEDDING_MODEL: JStr := Lit("text-embedding-3-small")
  const ENCODING_FORMAT: JStr := Lit("float")
  const TOP_K: nat := 10

  const GENERIC_ERROR: JStr := Lit("An error occurred while processing your request")

  /** The fixed system instruction, sentence by sentence. */
  const BASE_INSTRUCTION: JStr :=
    INSTRUCTION_ROLE + INSTRUCTION_WORDING + INSTRUCTION_LENGTH + INSTRUCTION_FALLBACK
  const INSTRUCTION_ROLE: JStr := Lit("You are a helpful assistant that accurately answers queries about the Financial Commission of New Brunswick (FCNB) from its website data. ")
  const INSTRUCTION_WORDING: JStr := Lit("Use the text provided to form your answer, but avoid copying word-for-word from the original text. Try to use your own words when possible. ")
  const INSTRUCTION_LENGTH: JStr := Lit("Keep your answer under 5 sentences. Be accurate, helpful, concise, and clear. ")
  const INSTRUCTION_FALLBACK: JStr := Lit("If you cannot find the answer in the context, say so politely and suggest contacting FCNB directly for more accurate information.")
  const DIRECTIVE_HEAD: JStr := Lit("\n\nIMPORTANT: You MUST respond in ")
  const DIRECTIVE_TAIL: JStr := Lit(" regardless of the language of the source text. If you need to translate the information from the source text, do so accurately while maintaining the meaning.")

  const CONTEXT_HEAD: JStr := Lit("Context:\n")
  const QUESTION_HEAD: JStr := Lit("\n\nQuestion: ")

  /** `"\n\n"`: the context separator and the event terminator. */
  const BLANK_LINE: JStr := [0x0A, 0x0A]

  const DATA_PREFIX: JStr := [0x64, 0x61, 0x74, 0x61, 0x3A, 0x20]
  const DEBUG_HEAD: JStr := Lit("{\"debug\":")
  const DEBUG_TAIL: JStr := Lit("}")

  // ---------------------------------------------------------------------
  // Context assembly

  /** The context segment of one match: its sanitised text when
      `metadata.text` is a string, and the empty string otherwise. */
  function Segment(m: Match): JStr {
    match m.metadataText
    case String(t) => Sanitize(t)
    case _ => []
  }

  function Segments(matches: seq<Match>): (r: seq<JStr>)
    ensures |r| == |matches|
    ensures forall i :: 0 <= i < |matches| ==> r[i] == Segment(matches[i])
  {
    seq(|matches|, i requires 0 <= i < |matches| => Segment(matches[i]))
  }

  /** The context block: one segment per match, in match order, separated by
      a blank line. */
  function Context(matches: seq<Match>): JStr {
    Join(Segments(matches), BLANK_LINE)
  }

  // ---------------------------------------------------------------------
  // Prompt assembly

  /** The language directive, present exactly when `language` is truthy. */
  function LanguageDirective(language: JsValue): JStr {
    if Truthy(language) then DIRECTIVE_HEAD + ToString(language) + DIRECTIVE_TAIL else []
  }

  function SystemContent(language: JsValue): JStr {
    BASE_INSTRUCTION + LanguageDirective(language)
  }

  function UserContent(context: JStr, prompt: JsValue): JStr {
    CONTEXT_HEAD + context + QUESTION_HEAD + ToString(prompt)
  }

  /** The two messages sent to the completion endpoint. */
  function BuildMessages(context: JStr, fields: SearchFields): seq<Message> {
    [Message(System, SystemContent(fields.language)), Message(User, UserContent(context, fields.prompt))]
  }

  // ---------------------------------------------------------------------
  // Server-sent-event framing (section 9.2 of the WHATWG HTML Living Standard)

  /** One `data: <payload>\n\n` event. */
  function Frame(payload: JStr): JStr {
    DATA_PREFIX + payload + BLANK_LINE
  }

  /** `JSON.stringify({ debug: queryResponse })`. */
  function DebugPayload(queryJson: JStr): JStr {
    DEBUG_HEAD + queryJson + DEBUG_TAIL
  }

  /** The chunks whose delta content is truthy, in arrival order. */
  function ContentChunks(chunks: seq<Chunk>): (r: seq<Chunk>)
    ensures |r| <= |chunks|
    ensures forall c :: c in r ==> c in chunks && Truthy(c.content)
    decreases |chunks|
  {
    if |chunks| == 0 then []
    else (if Truthy(chunks[0].content) then [chunks[0]] else []) + ContentChunks(chunks[1..])
  }

  /** The frames of a chunk list, one per chunk with content. */
  function ChunkFrames(chunks: seq<Chunk>): (r: seq<JStr>)
    ensures |r| == |ContentChunks(chunks)|
    ensures forall i :: 0 <= i < |r| ==> r[i] == Frame(ContentChunks(chunks)[i].json)
  {
    var cc := ContentChunks(chunks);
    seq(|cc|, i requires 0 <= i < |cc| => Frame(cc[i].json))
  }

  /** The whole event stream: the debug event, then the chunk events. */
  function StreamFrames(queryJson: JStr, chunks: seq<Chunk>): seq<JStr> {
    [Frame(DebugPayload(queryJson))] + ChunkFrames(chunks)
  }

  function TerminationOf(failure: Option<Error>): Termination {
    match failure
    case None => Closed
    case Some(e) => Errored(e)
  }

  // ---------------------------------------------------------------------
  // The handler

  /** The 500 body of the outer `catch`. */
  function ErrorResponse(e: Error): Response {
    JsonError(500, GENERIC_ERROR, e.message, e.name)
  }

  /** `POST`: every provider failure before the stream starts is caught and
      mapped to the 500 body; the calls made so far are recorded. */
  function Post(body: Result<SearchFields, Error>,
                aiModel: JStr,
                embed: EmbeddingRequest -> Result<Embedding, Error>,
                query: VectorQuery -> Result<QueryResponse, Error>,
                complete: CompletionRequest -> Result<Completion, Error>): (r: Handled)
    ensures r.calls <= [EmbeddingProvider, VectorStore, ChatCompletion]
    ensures r.response.JsonError? ==> r.response.status == 500 && r.response.error == GENERIC_ERROR
    ensures r.response.EventStream? ==> r.calls == [EmbeddingProvider, VectorStore, ChatCompletion]
    ensures body.Failure? ==> r == Handled(ErrorResponse(body.error), [])
    ensures body.Success? ==>
              var embedded := embed(EmbeddingRequest(EMBEDDING_MODEL, body.value.prompt, ENCODING_FORMAT));
              && (embedded.Failure? ==> r == Handled(ErrorResponse(embedded.error), [EmbeddingProvider]))
              && (embedded.Success? ==>
                    var queried := query(VectorQuery(embedded.value, TOP_K, true));
                    && (queried.Failure? ==> r == Handled(ErrorResponse(queried.error), [EmbeddingProvider, VectorStore]))
                    && (queried.Success? ==>
                          var completed := complete(CompletionRequest(aiModel, BuildMessages(Context(queried.value.matches), body.value), true));
                          completed.Failure? ==>
                            r == Handled(ErrorResponse(completed.error), [EmbeddingProvider, VectorStore, ChatCompletion])))
  {
    match body
    case Failure(e) => Handled(ErrorResponse(e), [])
    case Success(fields) =>
      match embed(EmbeddingRequest(EMBEDDING_MODEL, fields.prompt, ENCODING_FORMAT))
      case Failure(e) => Handled(ErrorResponse(e), [EmbeddingProvider])
      case Success(vector) =>
        match query(VectorQuery(vector, TOP_K, true))
        case Failure(e) => Handled(ErrorResponse(e), [EmbeddingProvider, VectorStore])
        case Success(qr) =>
          var messages := BuildMessages(Context(qr.matches), fields);
          match complete(CompletionRequest(aiModel, messages, true))
          case Failure(e) => Handled(ErrorResponse(e), [EmbeddingProvider, VectorStore, ChatCompletion])
          case Success(completion) =>
            Handled(EventStream(StreamFrames(qr.json, completion.chunks), TerminationOf(completion.failure)),
                    [EmbeddingProvider, VectorStore, ChatCompletion])
  }

  /** The `for await` loop of the stream's `start`, chunk by chunk. */
  method RelayCompletion(queryJson: JStr, completion: Completion) returns (frames: seq<JStr>, termination: Termination)
    ensures frames == StreamFrames(queryJson, completion.chunks)
    ensures completion.failure.None? ==> termination == Closed
    ensures completion.failure.Some? ==> termination == Errored(completion.failure.value)
  {
    frames := [Frame(DebugPayload(queryJson))];
    var chunks := completion.chunks;
    var i := 0;
    while i < |chunks|
      invariant 0 <= i <= |chunks|
      invariant frames == StreamFrames(queryJson, chunks[..i])
    {
      ChunkFramesAppend(chunks[..i], chunks[i]);
      assert chunks[..i + 1] == chunks[..i] + [chunks[i]];
      if Truthy(chunks[i].content) {
        frames := frames + [Frame(chunks[i].json)];
      }
      i := i + 1;
    }
    assert chunks[..i] == chunks;
    termination := TerminationOf(completion.failure);
  }

  /** The debug event comes first, then one event per chunk with content,
      in arrival order. */
  lemma StreamFramesShape(queryJson: JStr, chunks: seq<Chunk>)
    ensures var f := StreamFrames(queryJson, chunks);
            && |f| == 1 + |ContentChunks(chunks)|
            && f[0] == Frame(DebugPayload(queryJson))
            && forall i :: 0 <= i < |f| - 1 ==> f[i + 1] == Frame(ContentChunks(chunks)[i].json)
  {
    var f := StreamFrames(queryJson, chunks);
    assert forall i :: 0 <= i < |f| - 1 ==> f[i + 1] == ChunkFrames(chunks)[i];
  }

  /** One more chunk adds its frame exactly when it has content. */
  lemma ChunkFramesAppend(chunks: seq<Chunk>, c: Chunk)
    ensures ChunkFrames(chunks + [c]) == ChunkFrames(chunks) + (if Truthy(c.content) then [Frame(c.json)] else [])
  {
    ContentChunksAppend(chunks, [c]);
    assert [c][1..] == [];
    var a, b := ChunkFrames(chunks + [c]), ChunkFrames(chunks) + (if Truthy(c.content) then [Frame(c.json)] else []);
    assert |a| == |b|;
    forall i | 0 <= i < |a| ensures a[i] == b[i] {
      if i < |ChunkFrames(chunks)| {
        assert ContentChunks(chunks + [c])[i] == ContentChunks(chunks)[i];
      }
    }
  }

  /** Filtering for content distributes over concatenation: it keeps arrival
      order and judges every chunk on its own. */
  lemma {:induction false} ContentChunksAppend(a: seq<Chunk>, b: seq<Chunk>)
    ensures ContentChunks(a + b) == ContentChunks(a) + ContentChunks(b)
    decreases |a|
  {
    if |a| == 0 {
      assert a + b == b;
    } else {
      assert (a + b)[1..] == a[1..] + b;
      ContentChunksAppend(a[1..], b);
    }
  }
}
