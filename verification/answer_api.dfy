/** The legacy answer endpoint (pages/api/answer.ts): wraps the query and
    the retrieved passages in a summarisation prompt, forwards `lang`
    unchanged to the legacy stream, and answers with the stream, or with a
    plain 500 `Error` for anything thrown before the stream exists. */
module AnswerApi {
  import opened Wrappers
  import opened Strings
  import opened SplitJoin
  import opened JsValues
  import opened LegacyStream

  /** The three fields destructured from the JSON body; nothing checks them. */
  datatype AnswerFields = AnswerFields(query: JsValue, context: JsValue, lang: JsValue)

  datatype AnswerResponse = Streamed(stream: StreamState) | Failed(status: int, body: JStr)

  /** The response, and the chat requests sent to the provider. */
  datatype Answered = Answered(response: AnswerResponse, sent: seq<ChatRequest>)

  const PROMPT_HEAD: JStr := Lit("Use the following passages to provide an answer to the query: \"")
  const PROMPT_MIDDLE: JStr := Lit("\"\n\n")
  const ERROR_BODY: JStr := Lit("Error")

  const DOUBLE_QUOTE: Unit := 0x22

  /** The summarisation prompt, a template literal over the two fields. */
  function Prompt(query: JsValue, context: JsValue): JStr {
    PROMPT_HEAD + ToString(query) + PROMPT_MIDDLE + ToString(context)
  }

  /** The handler. `body` is the outcome of `req.json()` and the
      destructuring; `fetch` and `decode` are those of the legacy stream. */
  function Handler(body: Result<AnswerFields, Error>,
                   fetch: ChatRequest -> Result<ApiResponse, Error>,
                   decode: JStr -> Result<JsValue, Error>): (r: Answered)
    ensures r.response.Failed? ==> r.response.status == 500 && r.response.body == ERROR_BODY
    ensures body.Failure? ==> r == Answered(Failed(500, ERROR_BODY), [])
    ensures body.Success? ==>
              var f := body.value;
              var stream := OpenAIStream(Prompt(f.query, f.context), f.lang, fetch, decode);
              && r.sent == [BuildRequest(Prompt(f.query, f.context), f.lang)]
              && (r.response.Streamed? <==> stream.Success?)
              && (stream.Success? ==> r.response.stream == stream.value)
  {
    match body
    case Failure(_) => Answered(Failed(500, ERROR_BODY), [])
    case Success(f) =>
      var prompt := Prompt(f.query, f.context);
      match OpenAIStream(prompt, f.lang, fetch, decode)
      case Failure(_) => Answered(Failed(500, ERROR_BODY), [BuildRequest(prompt, f.lang)])
      case Success(stream) => Answered(Streamed(stream), [BuildRequest(prompt, f.lang)])
  }

  // ---------------------------------------------------------------------
  // Properties

  /** The prompt reads back: the fixed head, the query, the closing quote
      and a blank line, then the passages. When the query holds no double
      quote, the first double quote after the head is the one closing it. */
  lemma PromptReadsBack(query: JsValue, context: JsValue)
    ensures var p := Prompt(query, context);
            var q := ToString(query);
            && p[..|PROMPT_HEAD|] == PROMPT_HEAD
            && p[|PROMPT_HEAD|..|PROMPT_HEAD| + |q|] == q
            && p[|PROMPT_HEAD| + |q|..|PROMPT_HEAD| + |q| + |PROMPT_MIDDLE|] == PROMPT_MIDDLE
            && p[|p| - |ToString(context)|..] == ToString(context)
            && |p| == |PROMPT_HEAD| + |q| + |PROMPT_MIDDLE| + |ToString(context)|
    ensures (forall j :: 0 <= j < |ToString(query)| ==> ToString(query)[j] != DOUBLE_QUOTE) ==>
              IndexOf(Prompt(query, context)[|PROMPT_HEAD|..], [DOUBLE_QUOTE]) == Some(|ToString(query)|)
  {
    var p := Prompt(query, context);
    var q := ToString(query);
    var c := ToString(context);
    assert PROMPT_MIDDLE == [DOUBLE_QUOTE] + PROMPT_MIDDLE[1..];
    assert p[|PROMPT_HEAD|..] == q + [DOUBLE_QUOTE] + (PROMPT_MIDDLE[1..] + c);
    if forall j :: 0 <= j < |q| ==> q[j] != DOUBLE_QUOTE {
      FirstOccurrenceAfter(q, [DOUBLE_QUOTE], PROMPT_MIDDLE[1..] + c);
    }
  }

  /** A query that is absent or not a string still reaches the prompt,
      through its string conversion. */
  lemma AbsentQueryReadsUndefined(context: JsValue)
    ensures var p := Prompt(Undefined, context);
            p[|PROMPT_HEAD|..|PROMPT_HEAD| + |Lit("undefined")|] == Lit("undefined")
  {
    PromptReadsBack(Undefined, context);
  }

  /** `lang` goes through untouched: the assistant message of the one
      request sent carries the French directive exactly when `lang` is the
      string `fr`. */
  lemma LanguageIsForwarded(f: AnswerFields,
                            fetch: ChatRequest -> Result<ApiResponse, Error>,
                            decode: JStr -> Result<JsValue, Error>)
    ensures var r := Handler(Success(f), fetch, decode);
            && |r.sent| == 1
            && (r.sent[0].messages[1].content == TRANSLATE_DIRECTIVE <==> f.lang == String(FRENCH))
  {
    RequestProperties(Prompt(f.query, f.context), f.lang);
  }

  /** Every failure before the stream exists is the same plain 500: a body
      that does not parse, a failed fetch, and a non-200 provider status. */
  lemma FailuresBeforeStreamAre500(f: AnswerFields, e: Error, status: int, events: seq<ParsedEvent>,
                                   decode: JStr -> Result<JsValue, Error>)
    requires status != 200
    ensures Handler(Failure(e), (req: ChatRequest) => Success(ApiResponse(200, events)), decode).response == Failed(500, ERROR_BODY)
    ensures Handler(Success(f), (req: ChatRequest) => Failure(e), decode).response == Failed(500, ERROR_BODY)
    ensures Handler(Success(f), (req: ChatRequest) => Success(ApiResponse(status, events)), decode).response == Failed(500, ERROR_BODY)
  {
  }

  /** Once the provider answers 200 the response is the stream, even when a
      later event fails to decode: that error reaches the stream, not the
      status code. */
  lemma StreamErrorsAreNotStatusErrors(f: AnswerFields, events: seq<ParsedEvent>,
                                       decode: JStr -> Result<JsValue, Error>)
    ensures var r := Handler(Success(f), (req: ChatRequest) => Success(ApiResponse(200, events)), decode);
            r.response == Streamed(Feed(Open([]), events, decode))
  {
  }
}
