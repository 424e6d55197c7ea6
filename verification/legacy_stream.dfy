/** The legacy completion stream (`OpenAIStream` in utils/index.ts): one
    streaming chat request with a fixed instruction, an optional French
    directive and the prompt, whose server-sent events are turned into a
    readable stream of text by the `onParse` callback. The HTTP call and
    `JSON.parse(data).choices[0].delta.content` are parameters. */
module LegacyStream {
  import opened Wrappers
  import opened Strings
  import opened JsValues
  import opened Chat

  /** The `OpenAIModel` enumeration. */
  const DAVINCI_TURBO: JStr := Lit("gpt-3.5-turbo")
  const GPT4: JStr := Lit("gpt-4")
  const GPT4_TURBO: JStr := Lit("gpt-4-1106-preview")

  const MAX_TOKENS: nat := 256
  const TEMPERATURE: real := 0.0

  const FRENCH: JStr := Lit("fr")
  const TRANSLATE_DIRECTIVE: JStr := Lit("Translate the output to french. ")

  /** The fixed system instruction, sentence by sentence (the source writes
      "it's website data"). */
  const INSTRUCTION: JStr := INSTRUCTION_ROLE + INSTRUCTION_WORDING + INSTRUCTION_LENGTH
  const INSTRUCTION_ROLE: JStr := Lit("You are a helpful assistant that accurately answers queries about the Financial Commission of New Brunswick (FCNB) from it's website data. ")
  const INSTRUCTION_WORDING: JStr := Lit("Use the text provided to form your answer, but avoid copying word-for-word from the original text. Try to use your own words when possible. ")
  const INSTRUCTION_LENGTH: JStr := Lit("Keep your answer under 5 sentences. Be accurate, helpful, concise, and clear.")

  const API_ERROR: Error := Error(Lit("Error"), Lit("OpenAI API returned an error"))

  /** The `[DONE]` sentinel that ends an OpenAI stream. */
  const DONE: JStr := Lit("[DONE]")

  /** The JSON body of the chat completion request. */
  datatype ChatRequest = ChatRequest(model: JStr, messages: seq<Message>, maxTokens: nat, temperature: real, stream: bool)

  /** What `eventsource-parser` hands to `onParse`. */
  datatype ParsedEvent = Event(data: JStr) | ReconnectInterval(ms: int)

  /** The HTTP answer: its status and the events its body parses into. */
  datatype ApiResponse = ApiResponse(status: int, events: seq<ParsedEvent>)

  /** The readable stream's controller: the chunks enqueued so far, and
      whether the stream is still open, closed, or errored. */
  datatype StreamState =
    | Open(chunks: seq<JStr>)
    | Closed(chunks: seq<JStr>)
    | Errored(chunks: seq<JStr>, error: Error)

  /** `lang === 'fr' ? 'Translate the output to french. ' : ''`. */
  function TranslateDirective(lang: JsValue): (r: JStr)
    ensures lang == String(FRENCH) ==> r == TRANSLATE_DIRECTIVE
    ensures lang != String(FRENCH) ==> r == []
  {
    if lang == String(FRENCH) then TRANSLATE_DIRECTIVE else []
  }

  /** The request: system instruction, assistant directive (sent even when
      empty), and the prompt as the user message. */
  function BuildRequest(prompt: JStr, lang: JsValue): ChatRequest {
    ChatRequest(GPT4_TURBO,
                [Message(System, INSTRUCTION), Message(Assistant, TranslateDirective(lang)), Message(User, prompt)],
                MAX_TOKENS, TEMPERATURE, true)
  }

  /** `encoder.encode(text)`, read back as text: an undefined argument takes
      the parameter's default `""`; anything else is converted to a string. */
  function EncodedText(v: JsValue): JStr {
    if v.Undefined? then [] else ToString(v)
  }

  /** `onParse`: reconnect intervals are ignored; `[DONE]` closes the stream;
      any other data is decoded and its content enqueued, or the stream is
      errored when decoding throws. A closed or errored stream accepts
      nothing more. */
  function OnParse(state: StreamState, event: ParsedEvent, decode: JStr -> Result<JsValue, Error>): (r: StreamState)
    ensures !state.Open? ==> r == state
    ensures state.chunks <= r.chunks && |r.chunks| <= |state.chunks| + 1
  {
    if !state.Open? then state
    else
      match event
      case ReconnectInterval(_) => state
      case Event(data) =>
        if data == DONE then Closed(state.chunks)
        else
          match decode(data)
          case Failure(e) => Errored(state.chunks, e)
          case Success(text) => Open(state.chunks + [EncodedText(text)])
  }

  /** The parser fed with the whole body: `onParse` on every event in order. */
  function Feed(state: StreamState, events: seq<ParsedEvent>, decode: JStr -> Result<JsValue, Error>): StreamState
    decreases |events|
  {
    if |events| == 0 then state else Feed(OnParse(state, events[0], decode), events[1..], decode)
  }

  /** `OpenAIStream(prompt, lang)`: a failed fetch or a status other than 200
      throws; otherwise the stream's final state after the body is parsed. */
  function OpenAIStream(prompt: JStr, lang: JsValue,
                        fetch: ChatRequest -> Result<ApiResponse, Error>,
                        decode: JStr -> Result<JsValue, Error>): (r: Result<StreamState, Error>)
    ensures r.Success? <==> fetch(BuildRequest(prompt, lang)).Success? && fetch(BuildRequest(prompt, lang)).value.status == 200
    ensures fetch(BuildRequest(prompt, lang)).Failure? ==> r == Failure(fetch(BuildRequest(prompt, lang)).error)
    ensures fetch(BuildRequest(prompt, lang)).Success? && fetch(BuildRequest(prompt, lang)).value.status != 200 ==>
              r == Failure(API_ERROR)
  {
    var res :- fetch(BuildRequest(prompt, lang));
    if res.status != 200 then Failure(API_ERROR)
    else Success(Feed(Open([]), res.events, decode))
  }

  /** The `for await` loop feeding the parser, event by event. */
  method RunParser(events: seq<ParsedEvent>, decode: JStr -> Result<JsValue, Error>) returns (state: StreamState)
    ensures state == Feed(Open([]), events, decode)
  {
    state := Open([]);
    var i := 0;
    while i < |events|
      invariant 0 <= i <= |events|
      invariant Feed(state, events[i..], decode) == Feed(Open([]), events, decode)
    {
      assert events[i..][1..] == events[i + 1..];
      state := OnParse(state, events[i], decode);
      i := i + 1;
    }
  }

  // ---------------------------------------------------------------------
  // Properties

  /** An event that neither ends nor breaks the stream. */
  predicate Plain(e: ParsedEvent, decode: JStr -> Result<JsValue, Error>) {
    e.ReconnectInterval? || (e.data != DONE && decode(e.data).Success?)
  }

  /** Reference definition of what a run of plain events enqueues: the
      encoded content of each data event, in order. */
  function Texts(events: seq<ParsedEvent>, decode: JStr -> Result<JsValue, Error>): seq<JStr>
    requires forall i :: 0 <= i < |events| ==> Plain(events[i], decode)
    decreases |events|
  {
    if |events| == 0 then []
    else
      assert Plain(events[0], decode);
      var head := if events[0].Event? then [EncodedText(decode(events[0].data).value)] else [];
      head + Texts(events[1..], decode)
  }

  /** A settled stream stays settled whatever else arrives. */
  lemma {:induction false} FeedSettled(state: StreamState, events: seq<ParsedEvent>, decode: JStr -> Result<JsValue, Error>)
    requires !state.Open?
    ensures Feed(state, events, decode) == state
    decreases |events|
  {
    if |events| > 0 {
      FeedSettled(state, events[1..], decode);
    }
  }

  /** Feeding two runs of events is feeding the first, then the second. */
  lemma {:induction false} FeedAppend(state: StreamState, a: seq<ParsedEvent>, b: seq<ParsedEvent>, decode: JStr -> Result<JsValue, Error>)
    ensures Feed(state, a + b, decode) == Feed(Feed(state, a, decode), b, decode)
    decreases |a|
  {
    if |a| > 0 {
      assert (a + b)[0] == a[0] && (a + b)[1..] == a[1..] + b;
      FeedAppend(OnParse(state, a[0], decode), a[1..], b, decode);
    } else {
      assert a + b == b;
    }
  }

  /** Plain events keep the stream open and enqueue exactly their texts. */
  lemma {:induction false} FeedPlain(chunks: seq<JStr>, events: seq<ParsedEvent>, decode: JStr -> Result<JsValue, Error>)
    requires forall i :: 0 <= i < |events| ==> Plain(events[i], decode)
    ensures Feed(Open(chunks), events, decode) == Open(chunks + Texts(events, decode))
    decreases |events|
  {
    if |events| > 0 {
      var next := OnParse(Open(chunks), events[0], decode);
      var head := if events[0].Event? then [EncodedText(decode(events[0].data).value)] else [];
      assert next == Open(chunks + head);
      FeedPlain(chunks + head, events[1..], decode);
      assert chunks + head + Texts(events[1..], decode) == chunks + Texts(events, decode);
    }
  }

  /** The stream ends at the first event that is not plain: `[DONE]` closes
      it with the texts before it, a decoding error errors it with them;
      nothing after that event has any effect. */
  lemma StreamStopsAtFirstBreak(a: seq<ParsedEvent>, e: ParsedEvent, b: seq<ParsedEvent>, decode: JStr -> Result<JsValue, Error>)
    requires forall i :: 0 <= i < |a| ==> Plain(a[i], decode)
    requires !Plain(e, decode)
    ensures e.data == DONE ==> Feed(Open([]), a + [e] + b, decode) == Closed(Texts(a, decode))
    ensures e.data != DONE ==> Feed(Open([]), a + [e] + b, decode) == Errored(Texts(a, decode), decode(e.data).error)
  {
    FeedAppend(Open([]), a + [e], b, decode);
    FeedAppend(Open([]), a, [e], decode);
    FeedPlain([], a, decode);
    assert [] + Texts(a, decode) == Texts(a, decode);
    var s := Feed(Open(Texts(a, decode)), [e], decode);
    assert s == OnParse(Open(Texts(a, decode)), e, decode);
    FeedSettled(s, b, decode);
  }

  /** A body that never sends `[DONE]` and always decodes leaves the stream
      open, holding every text. */
  lemma UnterminatedBodyStaysOpen(events: seq<ParsedEvent>, decode: JStr -> Result<JsValue, Error>)
    requires forall i :: 0 <= i < |events| ==> Plain(events[i], decode)
    ensures Feed(Open([]), events, decode) == Open(Texts(events, decode))
  {
    FeedPlain([], events, decode);
    assert [] + Texts(events, decode) == Texts(events, decode);
  }

  /** A chunk whose delta has no content enqueues an empty chunk rather than
      the text "undefined". */
  lemma MissingContentEnqueuesEmpty(chunks: seq<JStr>, data: JStr, decode: JStr -> Result<JsValue, Error>)
    requires data != DONE && decode(data) == Success(Undefined)
    ensures OnParse(Open(chunks), Event(data), decode) == Open(chunks + [[]])
  {
  }

  /** The request: the turbo model, at most 256 tokens, temperature zero,
      streamed; three messages in the order system, assistant, user, the
      assistant one carrying the French directive exactly when `lang` is the
      string `fr`, the user one the prompt unchanged. */
  lemma RequestProperties(prompt: JStr, lang: JsValue)
    ensures var req := BuildRequest(prompt, lang);
            && req.model == GPT4_TURBO && req.maxTokens == 256 && req.temperature == 0.0 && req.stream
            && |req.messages| == 3
            && req.messages[0] == Message(System, INSTRUCTION)
            && req.messages[1].role == Assistant
            && (req.messages[1].content == TRANSLATE_DIRECTIVE <==> lang == String(FRENCH))
            && (req.messages[1].content == [] <==> lang != String(FRENCH))
            && req.messages[2] == Message(User, prompt)
  {
    assert |TRANSLATE_DIRECTIVE| > 0;
  }
}
