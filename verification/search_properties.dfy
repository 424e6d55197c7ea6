/** Properties of the search endpoint model: context and prompt assembly,
    the event stream, and the error mapping. */
module SearchProperties {
  import opened Wrappers
  import opened Strings
  import opened SplitJoin
  import opened Sanitizer
  import opened SanitizerProperties
  import opened JsValues
  import opened Chat
  import opened SearchRoute

  predicate NoLineFeed(s: JStr) {
    forall i :: 0 <= i < |s| ==> s[i] != 0x0A
  }

  // ---------------------------------------------------------------------
  // Context

  /** The context is ASCII, empty for no matches, the lone segment for one
      match, and grows by a blank line and the new segment per further match;
      a match without a string `metadata.text` still takes its (empty) place. */
  lemma ContextProperties(matches: seq<Match>, m: Match)
    ensures IsAscii(Context(matches))
    ensures Context([]) == []
    ensures Context([m]) == Segment(m)
    ensures |matches| > 0 ==> Context(matches + [m]) == Context(matches) + BLANK_LINE + Segment(m)
    ensures !m.metadataText.String? ==> Segment(m) == []
  {
    var segs := Segments(matches);
    forall i | 0 <= i < |segs| ensures IsAscii(segs[i]) {
      match matches[i].metadataText
      case String(t) => SanitizeProperties(t);
      case _ =>
    }
    JoinAscii(segs, BLANK_LINE);
    if |matches| > 0 {
      assert Segments(matches + [m]) == segs + [Segment(m)];
      JoinAppend(segs, Segment(m), BLANK_LINE);
    }
  }

  /** Two ASCII match texts, in rank order, give `A\n\nB`: order is kept and
      nothing is re-sorted. */
  lemma ContextKeepsRankOrder(a: JStr, b: JStr)
    requires IsAscii(a) && IsAscii(b)
    ensures Context([Match(String(a)), Match(String(b))]) == a + BLANK_LINE + b
  {
    SanitizeAsciiFixed(a);
    SanitizeAsciiFixed(b);
    assert Segment(Match(String(a))) == a;
    assert Segment(Match(String(b))) == b;
    var segs := Segments([Match(String(a)), Match(String(b))]);
    assert segs == [a, b];
    assert segs[1..] == [b];
    assert Join(segs, BLANK_LINE) == segs[0] + BLANK_LINE + Join(segs[1..], BLANK_LINE);
  }

  // ---------------------------------------------------------------------
  // Messages

  /** The system message is the bare base instruction exactly when the
      language field is falsy (absent, empty, null, ...). */
  lemma SystemMessageIsBareIff(language: JsValue)
    ensures SystemContent(language) == BASE_INSTRUCTION <==> !Truthy(language)
  {
  }

  /** The system message names the language unambiguously: it always
      opens with the base instruction, and two requests get the same system
      message exactly when both languages are falsy or both are truthy with
      the same string form. */
  lemma SystemMessageDeterminesLanguage(a: JsValue, b: JsValue)
    ensures SystemContent(a)[..|BASE_INSTRUCTION|] == BASE_INSTRUCTION
    ensures SystemContent(a) == SystemContent(b) <==>
              (Truthy(a) <==> Truthy(b)) && (Truthy(a) ==> ToString(a) == ToString(b))
  {
    var da, db := LanguageDirective(a), LanguageDirective(b);
    SuffixDetermines(BASE_INSTRUCTION, da, db);
    assert |DIRECTIVE_HEAD| > 0;
    if Truthy(a) && Truthy(b) {
      InfixDetermines(DIRECTIVE_HEAD, ToString(a), ToString(b), DIRECTIVE_TAIL);
    } else if Truthy(a) || Truthy(b) {
      assert |da| != |db|;
    }
  }

  lemma SuffixDetermines(base: JStr, x: JStr, y: JStr)
    ensures (base + x)[..|base|] == base
    ensures base + x == base + y <==> x == y
  {
    if base + x == base + y {
      assert x == (base + x)[|base|..];
    }
  }

  lemma InfixDetermines(h: JStr, x: JStr, y: JStr, c: JStr)
    ensures h + x + c == h + y + c <==> x == y
  {
    if h + x + c == h + y + c {
      assert x == (h + x + c)[|h|..|h| + |x|];
    }
  }

  /** The question header marks where the question starts: the first
      `"\n\nQuestion: "` after the context header is the one ahead of the
      prompt exactly when the context does not contain that header itself;
      what precedes it is the context and what follows it the prompt. */
  lemma UserMessageReadsBack(context: JStr, fields: SearchFields)
    ensures var msgs := BuildMessages(context, fields);
            && |msgs| == 2 && msgs[0].role == System && msgs[1].role == User
            && msgs[0].content == SystemContent(fields.language)
            && |msgs[1].content| >= |CONTEXT_HEAD| && msgs[1].content[..|CONTEXT_HEAD|] == CONTEXT_HEAD
    ensures var body := BuildMessages(context, fields)[1].content[|CONTEXT_HEAD|..];
            IndexOf(body, QUESTION_HEAD) == Some(|context|) <==> !Includes(context, QUESTION_HEAD)
    ensures var body := BuildMessages(context, fields)[1].content[|CONTEXT_HEAD|..];
            && |body| == |context| + |QUESTION_HEAD| + |ToString(fields.prompt)|
            && body[..|context|] == context
            && body[|context|..|context| + |QUESTION_HEAD|] == QUESTION_HEAD
            && body[|context| + |QUESTION_HEAD|..] == ToString(fields.prompt)
  {
    var q := ToString(fields.prompt);
    var content := BuildMessages(context, fields)[1].content;
    assert content == CONTEXT_HEAD + (context + QUESTION_HEAD + q);
    assert content[..|CONTEXT_HEAD|] == CONTEXT_HEAD;
    var body := content[|CONTEXT_HEAD|..];
    assert body == context + QUESTION_HEAD + q;
    assert body[..|context|] == context;
    assert body[|context|..|context| + |QUESTION_HEAD|] == QUESTION_HEAD;
    assert body[|context| + |QUESTION_HEAD|..] == q;
    HeaderAfterContext(context, q);
  }

  /** The search for the question header, on the user message without its
      context header. */
  lemma HeaderAfterContext(context: JStr, q: JStr)
    ensures IndexOf(context + QUESTION_HEAD + q, QUESTION_HEAD) == Some(|context|) <==> !Includes(context, QUESTION_HEAD)
  {
    var body := context + QUESTION_HEAD + q;
    HeaderOccursAfterContext(context, q);
    IndexOfIsFirst(body, QUESTION_HEAD);
    IncludesIff(context, QUESTION_HEAD);
    forall j | OccursAt(context, QUESTION_HEAD, j)
      ensures OccursAt(body, QUESTION_HEAD, j)
    {
      assert body[j..j + |QUESTION_HEAD|] == context[j..j + |QUESTION_HEAD|];
    }
    forall j | 0 <= j < |context| && OccursAt(body, QUESTION_HEAD, j)
      ensures OccursAt(context, QUESTION_HEAD, j)
    {
      NoStraddle(context, q, j);
      assert body[j..j + |QUESTION_HEAD|] == context[j..j + |QUESTION_HEAD|];
    }
  }

  lemma HeaderOccursAfterContext(context: JStr, q: JStr)
    ensures OccursAt(context + QUESTION_HEAD + q, QUESTION_HEAD, |context|)
  {
    var body := context + QUESTION_HEAD + q;
    assert body[|context|..|context| + |QUESTION_HEAD|] == QUESTION_HEAD;
  }

  /** An occurrence of the question header that starts inside the context
      ends inside it too: no proper suffix of the header is a prefix of it. */
  lemma NoStraddle(context: JStr, q: JStr, j: int)
    requires 0 <= j < |context|
    requires OccursAt(context + QUESTION_HEAD + q, QUESTION_HEAD, j)
    ensures j + |QUESTION_HEAD| <= |context|
  {
    var body := context + QUESTION_HEAD + q;
    QuestionHeadUnits();
    HeaderOccursAfterContext(context, q);
    if j + |QUESTION_HEAD| > |context| {
      var t := |context| - j;
      OccurrenceUnit(body, QUESTION_HEAD, j, t);
      OccurrenceUnit(body, QUESTION_HEAD, j, 2);
      OccurrenceUnit(body, QUESTION_HEAD, |context|, 0);
      OccurrenceUnit(body, QUESTION_HEAD, |context|, 1);
      assert false;
    }
  }

  /** Only the first two units of the question header are line feeds. */
  lemma QuestionHeadUnits()
    ensures |QUESTION_HEAD| == 12 && QUESTION_HEAD[0] == 0x0A && QUESTION_HEAD[1] == 0x0A
    ensures forall t :: 2 <= t < |QUESTION_HEAD| ==> QUESTION_HEAD[t] != 0x0A
  {
  }

  lemma OccurrenceUnit(s: JStr, pat: JStr, k: int, i: int)
    ensures OccursAt(s, pat, k) && 0 <= i < |pat| ==> s[k + i] == pat[i]
  {
    if OccursAt(s, pat, k) && 0 <= i < |pat| {
      assert s[k..k + |pat|][i] == s[k + i];
    }
  }

  /** A missing `prompt` is not rejected: the embedding request gets
      `undefined`, and when the providers succeed the answer is an event
      stream whose question reads `undefined`. */
  lemma MissingPromptIsNotRejected(
    language: JsValue, aiModel: JStr,
    embed: EmbeddingRequest -> Result<Embedding, Error>,
    query: VectorQuery -> Result<QueryResponse, Error>,
    complete: CompletionRequest -> Result<Completion, Error>)
    requires embed(EmbeddingRequest(EMBEDDING_MODEL, Undefined, ENCODING_FORMAT)).Success?
    requires query(VectorQuery(embed(EmbeddingRequest(EMBEDDING_MODEL, Undefined, ENCODING_FORMAT)).value, TOP_K, true)).Success?
    requires forall req :: complete(req).Success?
    ensures Post(Success(SearchFields(Undefined, language)), aiModel, embed, query, complete).response.EventStream?
    ensures forall ctx :: var user := BuildMessages(ctx, SearchFields(Undefined, language))[1].content;
              user[|user| - |Lit("undefined")|..] == Lit("undefined")
  {
  }

  // ---------------------------------------------------------------------
  // The event stream

  /** When every provider call succeeds the response is the event stream:
      the debug event first, then one event per chunk with content, in
      arrival order; it closes normally, or with the error the iteration
      threw, after the events already sent. */
  lemma SuccessfulSearchStreams(
    fields: SearchFields, aiModel: JStr, vector: Embedding, qr: QueryResponse, completion: Completion,
    embed: EmbeddingRequest -> Result<Embedding, Error>,
    query: VectorQuery -> Result<QueryResponse, Error>,
    complete: CompletionRequest -> Result<Completion, Error>)
    requires embed(EmbeddingRequest(EMBEDDING_MODEL, fields.prompt, ENCODING_FORMAT)) == Success(vector)
    requires query(VectorQuery(vector, TOP_K, true)) == Success(qr)
    requires complete(CompletionRequest(aiModel, BuildMessages(Context(qr.matches), fields), true)) == Success(completion)
    ensures var r := Post(Success(fields), aiModel, embed, query, complete).response;
            && r.EventStream?
            && |r.frames| == 1 + |ContentChunks(completion.chunks)|
            && r.frames[0] == Frame(DebugPayload(qr.json))
            && (forall i :: 0 <= i < |r.frames| - 1 ==> r.frames[i + 1] == Frame(ContentChunks(completion.chunks)[i].json))
            && (completion.failure.None? ==> r.termination == Closed)
            && (completion.failure.Some? ==> r.termination == Errored(completion.failure.value))
  {
    StreamFramesShape(qr.json, completion.chunks);
  }

  /** A chunk without content adds no event; the events of two runs of
      chunks are the events of each run, in order. */
  lemma ChunkEventsInArrivalOrder(a: seq<Chunk>, b: seq<Chunk>, c: Chunk)
    ensures ContentChunks(a + b) == ContentChunks(a) + ContentChunks(b)
    ensures ContentChunks([c]) == (if Truthy(c.content) then [c] else [])
  {
    ContentChunksAppend(a, b);
    assert [c][1..] == [];
  }

  /** Frames are not sanitised: a chunk with content whose JSON text holds
      a non-ASCII unit is sent with that unit, so the frame differs from its
      sanitised form. */
  lemma FramesAreNotSanitised(queryJson: JStr, c: Chunk)
    requires Truthy(c.content) && !IsAscii(c.json)
    ensures var f := StreamFrames(queryJson, [c]);
            |f| == 2 && f[1] == Frame(c.json) && Sanitize(f[1]) != f[1]
  {
    assert [c][1..] == [];
    assert ContentChunks([c]) == [c];
    var k :| 0 <= k < |c.json| && !IsAsciiUnit(c.json[k]);
    var f := Frame(c.json);
    assert f[|DATA_PREFIX| + k] == c.json[k];
    SanitizeProperties(f);
  }

  /** `data: ` followed by the payload: the field line of one event. */
  function DataLine(payload: JStr): JStr {
    DATA_PREFIX + payload
  }

  /** The `data` field of one event block, when the block is a `data: ` line. */
  function DataField(block: JStr): Option<JStr> {
    if |block| >= |DATA_PREFIX| && block[..|DATA_PREFIX|] == DATA_PREFIX then Some(block[|DATA_PREFIX|..])
    else None
  }

  /** What a client's event-stream parser dispatches for a body made of
      blank-line-terminated single-line `data:` events (the case of section
      9.2.6 of the WHATWG HTML Living Standard this stream uses). */
  function EventData(body: JStr): seq<Option<JStr>> {
    var blocks := Split(body, BLANK_LINE);
    seq(|blocks| - 1, i requires 0 <= i < |blocks| - 1 => DataField(blocks[i]))
  }

  /** The stream's events as payloads: the debug object, then every chunk
      with content. */
  function StreamPayloads(queryJson: JStr, chunks: seq<Chunk>): (r: seq<JStr>)
    ensures |r| == 1 + |ContentChunks(chunks)|
  {
    var cc := ContentChunks(chunks);
    [DebugPayload(queryJson)] + seq(|cc|, i requires 0 <= i < |cc| => cc[i].json)
  }

  lemma DebugPayloadNoLineFeed(queryJson: JStr)
    requires NoLineFeed(queryJson)
    ensures NoLineFeed(DebugPayload(queryJson))
  {
  }

  /** One `data:` line per payload. */
  function DataLines(p: seq<JStr>): (lines: seq<JStr>)
    ensures |lines| == |p|
  {
    seq(|p|, i requires 0 <= i < |p| => DataLine(p[i]))
  }

  /** The debug object and the JSON text of every chunk with content are free
      of line feeds when the inputs are. */
  lemma PayloadsNoLineFeed(queryJson: JStr, chunks: seq<Chunk>)
    requires NoLineFeed(queryJson)
    requires forall c :: c in chunks ==> NoLineFeed(c.json)
    ensures var p := StreamPayloads(queryJson, chunks);
            forall i :: 0 <= i < |p| ==> NoLineFeed(p[i])
  {
    var p := StreamPayloads(queryJson, chunks);
    DebugPayloadNoLineFeed(queryJson);
    forall i | 0 < i < |p| ensures NoLineFeed(p[i]) {
      assert ContentChunks(chunks)[i - 1] in chunks;
    }
  }

  /** A `data:` line adds no line feed to its payload. */
  lemma DataLinesNoLineFeed(p: seq<JStr>)
    requires forall i :: 0 <= i < |p| ==> NoLineFeed(p[i])
    ensures forall i, j :: 0 <= i < |DataLines(p)| && 0 <= j < |DataLines(p)[i]| ==> DataLines(p)[i][j] != 0x0A
  {
    var lines := DataLines(p);
    forall i, j | 0 <= i < |lines| && 0 <= j < |lines[i]| ensures lines[i][j] != 0x0A {
      if j >= |DATA_PREFIX| {
        assert lines[i][j] == p[i][j - |DATA_PREFIX|];
      }
    }
  }

  /** A body of blank-line-terminated blocks dispatches one event per block. */
  lemma EventDataOfTerminated(blocks: seq<JStr>)
    requires forall i, j :: 0 <= i < |blocks| && 0 <= j < |blocks[i]| ==> blocks[i][j] != 0x0A
    ensures EventData(Terminated(blocks, BLANK_LINE)) == seq(|blocks|, i requires 0 <= i < |blocks| => DataField(blocks[i]))
  {
    SplitTerminated(blocks, BLANK_LINE);
  }

  /** The field of a `data:` line is its payload. */
  lemma DataFieldOfLine(payload: JStr)
    ensures DataField(DataLine(payload)) == Some(payload)
  {
    var line := DataLine(payload);
    assert line[..|DATA_PREFIX|] == DATA_PREFIX;
    assert line[|DATA_PREFIX|..] == payload;
  }

  /** Each frame is a `data:` line followed by a blank line. */
  lemma StreamFramesAreDataLines(queryJson: JStr, chunks: seq<Chunk>)
    ensures var lines := DataLines(StreamPayloads(queryJson, chunks));
            StreamFrames(queryJson, chunks) == seq(|lines|, i requires 0 <= i < |lines| => lines[i] + BLANK_LINE)
  {
    StreamFramesShape(queryJson, chunks);
  }

  /** A client parsing the response body recovers the debug object and each
      chunk's JSON text, in order, provided these JSON texts hold no raw line
      feed (JSON.stringify escapes them). */
  lemma StreamBodyDecodes(queryJson: JStr, chunks: seq<Chunk>)
    requires NoLineFeed(queryJson)
    requires forall c :: c in chunks ==> NoLineFeed(c.json)
    ensures var p := StreamPayloads(queryJson, chunks);
            EventData(Concat(StreamFrames(queryJson, chunks))) == seq(|p|, i requires 0 <= i < |p| => Some(p[i]))
  {
    var p := StreamPayloads(queryJson, chunks);
    var lines := DataLines(p);
    StreamFramesAreDataLines(queryJson, chunks);
    ConcatTerminated(lines, BLANK_LINE);
    assert Concat(StreamFrames(queryJson, chunks)) == Terminated(lines, BLANK_LINE);
    PayloadsNoLineFeed(queryJson, chunks);
    DataLinesNoLineFeed(p);
    EventDataOfTerminated(lines);
    forall i | 0 <= i < |lines| ensures DataField(lines[i]) == Some(p[i]) {
      DataFieldOfLine(p[i]);
    }
  }
}
