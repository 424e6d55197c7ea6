# FCNB semantic search — a Dafny model of its core logic

This project models the pure logic of a retrieval-augmented search
application over the website of the Financial Commission of New Brunswick
(FCNB), and proves properties of that model. The
application embeds a question, looks up similar passages in a vector index,
asks a chat model to answer from them, and streams the answer to a React
front end. The model covers these parts:

- **Search endpoint** (`app/api/search/route.ts`):
  - the text sanitiser;
  - assembly of the context block and of the two chat messages;
  - the server-sent-event frames of the response;
  - the mapping of every thrown error to a 500 JSON body.

  The embedding, vector-query and completion calls are function parameters.
- **Legacy completion stream** (`utils/index.ts`):
  - the chat request, with its optional French directive;
  - the `onParse` state machine over parsed server-sent events.
- **Legacy answer endpoint** (`pages/api/answer.ts`): the prompt template
  and the error mapping.
- **Ingestion script** (`scripts/embedder.ts`):
  - `fix_urls`, which points each chunk's source at the scraped URL that
    contains its file stem;
  - the token statistics loop.
- **UI logic**:
  - the answer view's word split, de-duplication of links by title, and
    icon choice;
  - the typewriter reveal of the streaming result;
  - the submit gate and vanish animation of the search input;
  - the rotating border gradient;
  - translation lookup, language persistence and the en/fr toggle.

Strings are JavaScript strings: sequences of UTF-16 code units (`Strings.JStr`).
`Strings.Lit` writes a literal as code units. `SplitJoin.Split` is
`String.prototype.split` with a string separator; `JsTrim.Trim` is
`String.prototype.trim`. JavaScript values that reach a template literal or
a truthiness test are `JsValues.JsValue`.

Four behaviours of the code worth noting, all modelled as written:

- The search endpoint never rejects a request without `prompt`. The
  embedding request gets `undefined`, and the question reads `undefined`
  (`SearchProperties.MissingPromptIsNotRejected`).
- The `safeEncode` helper is never called, so the streamed frames are not
  sanitised (`SearchProperties.FramesAreNotSanitised`).
- The user message puts the prompt after `"\n\nQuestion: "`, with a space
  and no line break.
- The legacy instruction says "from it's website data".

## Model

| member | source | states |
|---|---|---|
| `Sanitizer.ReplaceClassConcat` | app/api/search/route.ts:42-53 | A global character-class replacement works unit by unit: it distributes over concatenation |
| `Sanitizer.ReplaceClassOutside` | app/api/search/route.ts:42-53 | A replacement leaves text with no unit of its class unchanged |
| `Sanitizer.UnitImage` | app/api/search/route.ts:42-53 | What the chain does to one unit is ASCII, at most three units long |
| `Sanitizer.SanitizeByUnit` | app/api/search/route.ts:39-54 | The unit-by-unit reference sanitiser yields ASCII, at most three times the input length |
| `Sanitizer.SanitizeConcat` | app/api/search/route.ts:39-54 | `sanitizeText(a + b)` is `sanitizeText(a) + sanitizeText(b)` |
| `Sanitizer.SanitizeAsciiFixed` | app/api/search/route.ts:42-53 | ASCII text passes through all eight replacements unchanged and in order |
| `Sanitizer.SanitizeUnit` | app/api/search/route.ts:42-53 | On one code unit, the eight-step chain gives the reference table's image of that unit |
| `Sanitizer.SanitizeIsByUnit` | app/api/search/route.ts:39-54 | The replacement chain equals the unit-by-unit reference table on every string, including `""` |
| `SanitizerProperties.SanitizeProperties` | app/api/search/route.ts:39-54 | The output is ASCII and at most three times as long; sanitising twice equals sanitising once; a string is a fixed point iff it is ASCII |
| `SanitizerProperties.TypographicMappings` | app/api/search/route.ts:44-51 | U+2018/2019 become `'`; U+201C/201D become `"`; U+2012–2015 become `-`; U+2026 becomes `...`; U+2022 becomes `*` |
| `SanitizerProperties.DeletedAndBlankedUnits` | app/api/search/route.ts:42-53 | U+FEFF, U+200B–200D, U+FFFE and U+FFFF are deleted; every other non-ASCII unit outside the table becomes one space |
| `SanitizerProperties.AstralCharacterBecomesTwoSpaces` | app/api/search/route.ts:53 | A character outside the BMP, a surrogate pair, becomes two spaces |
| `SearchRoute.Segments` | app/api/search/route.ts:64-70 | One segment per match, in match order: the sanitised text, or empty when `metadata.text` is not a string |
| `SearchProperties.ContextProperties` | app/api/search/route.ts:64-71 | The context is ASCII; zero matches give `""` and one match gives its segment; each further match adds a blank line and its segment; a match without string text gives an empty segment |
| `SearchProperties.ContextKeepsRankOrder` | app/api/search/route.ts:64-71 | Two ASCII match texts A, B give exactly `A\n\nB`, in rank order |
| `SearchProperties.SystemMessageIsBareIff` | app/api/search/route.ts:77-79 | The system content is the base instruction alone iff `language` is falsy |
| `SearchProperties.SystemMessageDeterminesLanguage` | app/api/search/route.ts:77-79 | Every system message opens with the base instruction. Two requests get the same system message iff both languages are falsy, or both are truthy with the same string form |
| `SearchProperties.UserMessageReadsBack` | app/api/search/route.ts:74-85 | There are exactly two messages, system then user. The user message is `Context:\n`, the context, `\n\nQuestion: `, then the prompt, each read back at its place. After `Context:\n`, the first `\n\nQuestion: ` is the one ahead of the prompt iff the context does not contain that header |
| `SearchRoute.Post` | app/api/search/route.ts:19-153 | Providers are called in the order embed, query, complete, and only until one fails. An event stream comes only after all three succeed. Each of the four failure points gives status 500 with the fixed error text and that error's message and name. The failure points are the request body, the embedding, the vector query and the completion call, and each pins the calls made up to it |
| `SearchProperties.MissingPromptIsNotRejected` | app/api/search/route.ts:21-91 | An absent `prompt` is embedded as `undefined`; when the providers succeed the response is an event stream; the question ends in `undefined` |
| `SearchRoute.ContentChunks` | app/api/search/route.ts:117-122 | The chunks kept have truthy content and come from the input; there are no more of them than chunks |
| `SearchRoute.ContentChunksAppend` | app/api/search/route.ts:117-122 | Keeping chunks with content distributes over concatenation: arrival order is kept |
| `SearchRoute.ChunkFrames` | app/api/search/route.ts:117-122 | One `data:` frame per chunk with content, carrying that chunk's JSON |
| `SearchRoute.ChunkFramesAppend` | app/api/search/route.ts:117-122 | One more chunk adds its frame iff its content is truthy |
| `SearchRoute.StreamFramesShape` | app/api/search/route.ts:113-122 | The debug frame comes first, then one frame per chunk with content, in order |
| `SearchRoute.RelayCompletion` | app/api/search/route.ts:110-130 | The relay loop emits exactly the reference frame list; the stream closes normally, or errors with the error thrown |
| `SearchProperties.SuccessfulSearchStreams` | app/api/search/route.ts:110-143 | When all providers succeed, the response is the debug frame plus the content frames, closed or errored as the completion ends |
| `SearchProperties.ChunkEventsInArrivalOrder` | app/api/search/route.ts:117-122 | A chunk without content emits nothing; the events of two runs of chunks are those of each run, in order |
| `SearchProperties.FramesAreNotSanitised` | app/api/search/route.ts:104-120 | A chunk whose JSON holds non-ASCII is sent as it is, so its frame is not its own sanitised form |
| `SearchProperties.StreamPayloads` | app/api/search/route.ts:114-120 | One payload for the debug object and one per chunk with content |
| `SearchProperties.DebugPayloadNoLineFeed` | app/api/search/route.ts:114 | Wrapping the query JSON as `{"debug":...}` adds no line feed |
| `SearchProperties.StreamFramesAreDataLines` | app/api/search/route.ts:114-120 | Each frame is a `data: <payload>` line followed by a blank line |
| `SearchProperties.StreamBodyDecodes` | app/api/search/route.ts:114-120 | When the JSON texts hold no raw line feed, an event-stream parser recovers the debug object and every chunk's JSON, in order |
| `LegacyStream.TranslateDirective` | utils/index.ts:12 | The directive is `Translate the output to french. ` exactly when `lang` is the string `fr`, and empty otherwise |
| `LegacyStream.OpenAIStream` | utils/index.ts:11-84 | A failed fetch throws its own error. A status other than 200 throws `OpenAI API returned an error` before any stream exists. Otherwise a stream results |
| `LegacyStream.OnParse` | utils/index.ts:55-73 | A closed or errored stream is unchanged (for a drained reader, see Left out). Otherwise chunks are only appended, at most one per event |
| `LegacyStream.RunParser` | utils/index.ts:75-79 | Feeding events one by one gives the reference fold of `onParse` over them |
| `LegacyStream.FeedSettled` | utils/index.ts:59-71 | Once closed or errored, no further event has any effect (for a reader that has drained the queue, see Left out) |
| `LegacyStream.FeedAppend` | utils/index.ts:75-79 | Feeding two runs of events equals feeding the first, then the second |
| `LegacyStream.FeedPlain` | utils/index.ts:56-68 | Reconnect intervals are ignored. Data events that decode keep the stream open and enqueue their content, in arrival order |
| `LegacyStream.StreamStopsAtFirstBreak` | utils/index.ts:56-71 | `[DONE]` closes the stream after the earlier texts and enqueues nothing; unparsable data errors it with its error; later events change nothing |
| `LegacyStream.UnterminatedBodyStaysOpen` | utils/index.ts:56-79 | A body without `[DONE]` whose data always decodes leaves the stream open, holding every text |
| `LegacyStream.MissingContentEnqueuesEmpty` | utils/index.ts:66-67 | An event whose delta has no content enqueues an empty chunk |
| `AnswerApi.Handler` | pages/api/answer.ts:7-36 | A body that does not parse, a failed fetch or a non-200 status gives 500 `Error`. On success the response is the stream from one request built from the prompt and `lang` |
| `AnswerApi.PromptReadsBack` | pages/api/answer.ts:16 | The prompt is the fixed head, the query, `"\n\n`, then the context; when the query has no `"`, the first `"` after the head closes it |
| `AnswerApi.AbsentQueryReadsUndefined` | pages/api/answer.ts:9-16 | Fields are never checked: an absent query reads `undefined` in the prompt |
| `AnswerApi.LanguageIsForwarded` | pages/api/answer.ts:18 | `lang` reaches the one request unchanged: its directive is French exactly when `lang` is `fr` |
| `AnswerApi.FailuresBeforeStreamAre500` | pages/api/answer.ts:32-35 | A bad body, a failed fetch and a non-200 status all give status 500 with body `Error` |
| `AnswerApi.StreamErrorsAreNotStatusErrors` | pages/api/answer.ts:18-31 | After a 200 the response is the stream, unchanged, even when a later event fails to decode |
| `Embedder.UrlList` | scripts/embedder.ts:12 | Splitting the file on line feeds gives at least one URL |
| `Embedder.UrlListShape` | scripts/embedder.ts:12 | There is one more URL than the file has line feeds, and no URL holds a line feed |
| `Embedder.LastSegmentShape` | scripts/embedder.ts:20 | The last segment is the suffix after the last `/`; it holds no `/` |
| `Embedder.StemShape` | scripts/embedder.ts:20 | The stem is the last segment up to its first `.`: a prefix with no `.` and no `/` |
| `Embedder.FirstIncluding` | scripts/embedder.ts:21-26 | It gives the first URL in list order that includes the stem; there is none iff no URL includes it |
| `Embedder.FixedDoc` | scripts/embedder.ts:20-26 | The source becomes a URL containing the stem, or stays unchanged when none does; the page content is untouched |
| `Embedder.FixUrls` | scripts/embedder.ts:15-27 | Same number and order of documents; each is fixed by the first-match rule; page contents are unchanged |
| `Embedder.EmptyStemTakesFirstUrl` | scripts/embedder.ts:20-25 | A source whose last segment starts with `.` has an empty stem and takes the file's first line |
| `Embedder.Counts` | scripts/embedder.ts:67-68 | One token count per document, in order |
| `Embedder.TokenStats` | scripts/embedder.ts:64-73 | `total_tokens` is the sum. `max_tokens` bounds every count and is 0 or one of them. `max_tokens <= total_tokens` |
| `AnswerView.WordsRender` | components/Answer/Answer.tsx:18-30 | The word spans read back as the text plus one space. There is one more word than spaces, and no word holds a space |
| `AnswerView.DocTypeShape` | components/Answer/Answer.tsx:44 | The type is the prefix of the source up to its first `/` |
| `AnswerView.PdfIff` | components/Answer/Answer.tsx:44-45 | The PDF icon is chosen iff the source is `pdf` or starts with `pdf/` |
| `AnswerView.RenderLinks` | components/Answer/Answer.tsx:38-42 | The loop with the `uniqueDocs` set renders exactly the reference list; the set ends with every title |
| `AnswerView.Render` | components/Answer/Answer.tsx:13-60 | After the `[text]` effect has run, the words are the split text. The link list is rendered iff `showDocuments`, and then it is the reference list |
| `AnswerView.FirstLinksPositions` | components/Answer/Answer.tsx:38-47 | Each link comes from a document no earlier document shares a title with; links keep document order |
| `AnswerView.LinkTitlesDistinct` | components/Answer/Answer.tsx:39-42 | No title is rendered twice |
| `AnswerView.EveryTitleLinked` | components/Answer/Answer.tsx:38-42 | Every document's title is rendered |
| `AnswerView.LinksPointAtUrls` | components/Answer/Answer.tsx:47-53 | Each link's href is its document's URL and its text is the document's title |
| `StreamingResult.Step` | components/StreamingResult.tsx:14-36 | An empty result clears the text. A shorter text grows by one unit of the clean text. A text at least as long stays |
| `StreamingResult.RunInterval` | components/StreamingResult.tsx:28-36 | The loop sets exactly the reference list `IntervalSets`: tick k sets the clean text's prefix of length start+k+1; it stops at the target length, ending on the whole clean text |
| `StreamingResult.CleanTextShape` | components/StreamingResult.tsx:20-21 | Without `---\n` the clean text is the whole result; otherwise it is the text between the first separator and the next one, or the end |
| `StreamingResult.CleanTextIsStable` | components/StreamingResult.tsx:23 | Once the clean text is shown, nothing changes |
| `StreamingResult.StaleWhenLongEnough` | components/StreamingResult.tsx:25-32 | A displayed text at least as long as the clean text is never changed |
| `StreamingResult.RevealConverges` | components/StreamingResult.tsx:25-35 | From a shorter displayed text, k ticks show the clean prefix k units longer; the existing prefix is extended, not restarted |
| `StreamingResult.IntervalMatchesSteps` | components/StreamingResult.tsx:28-36 | The interval's k-th text, started from the displayed length, equals what k+1 tick-by-tick effect re-runs show |
| `StreamingResult.PreambleOnlyHasNoCleanText` | components/StreamingResult.tsx:20-21 | A result that is only a preamble and the separator has an empty clean text |
| `StreamingResult.PreambleOnlyLeavesTextStale` | components/StreamingResult.tsx:20-32 | While only the preamble and the separator have arrived, the displayed text is kept, not cleared |
| `JsTrim.Trim` | components/VanishingInput.tsx:133 | `trim` gives a slice with only white space around it, whose ends are not white space |
| `JsTrim.TrimNonEmptyIff` | components/VanishingInput.tsx:133 | The trimmed value is non-empty iff the value holds a unit that is not white space |
| `JsTrim.TrimIdempotent` | components/VanishingInput.tsx:133-136 | Trimming twice equals trimming once |
| `VanishingInput.MaxFrom` | components/VanishingInput.tsx:138-141 | The reduce gives the maximum of the start value and every `x`, attained unless it is the start value |
| `VanishingInput.MaxX` | components/VanishingInput.tsx:138-141 | `maxX` is at least 0 and at least every `x`; it is 0 or some particle's `x` |
| `VanishingInput.VanishAndSubmit` | components/VanishingInput.tsx:132-144 | When the trimmed value is non-empty and nothing blocks: start animating, pass the trimmed value on, and start the sweep at `maxX`. Otherwise nothing changes |
| `VanishingInput.SubmitGate` | components/VanishingInput.tsx:133-136 | A submit happens iff the value holds a non-white-space unit and the input is neither disabled nor animating; the query passed on is non-empty and trimmed |
| `VanishingInput.EnterAndSubmitAgree` | components/VanishingInput.tsx:126-151 | Enter and the form submit both act exactly as `vanishAndSubmit`; any other key does nothing |
| `VanishingInput.SubmitIsIgnoredWhileAnimating` | components/VanishingInput.tsx:126-151 | A second submit during the animation is ignored, so the query is sent once. Enter and submit change nothing while animating |
| `VanishingInput.SweepStartsAtRightEdge` | components/VanishingInput.tsx:138-142 | No drawn particle lies right of the starting sweep line |
| `VanishingInput.Survivors` | components/VanishingInput.tsx:85-101 | A frame never adds particles. It drops none when none is spent, and drops all when all are spent |
| `VanishingInput.AnimationFrame` | components/VanishingInput.tsx:82-124 | With survivors left, the sweep moves 8 left. When none survive, the animation stops and the value is cleared |
| `VanishingInput.MovedParticle` | components/VanishingInput.tsx:95-97 | A moving particle steps one unit on each axis and loses less than 0.05 of radius |
| `VanishingInput.VanishEndsWithPlaceholder` | components/VanishingInput.tsx:115-188 | After the last particle goes, the input is enabled unless disabled or loading; the placeholder shows and the canvas hides |
| `VanishingInput.AnimationInvariant` | components/VanishingInput.tsx:82-124 | Across any number of frames, no query is added. The value is kept while the animation runs and cleared with the particles when it stops. After a frame, the animation runs iff particles remain |
| `VanishingInput.InputLockedWhileVanishing` | components/VanishingInput.tsx:132-201 | After a submit and any number of frames with particles left, the query was passed on once, the input is disabled, the canvas is shown and the typed value replaces the placeholder. Once the last particle is gone, the input is enabled unless disabled or loading, the placeholder shows and the canvas hides |
| `HoverBorder.Index` | components/HoverBorderGradient.tsx:26-27 | `indexOf` finds every direction in the list |
| `HoverBorder.ClockwiseOrder` | components/HoverBorderGradient.tsx:25-32 | Clockwise cycles TOP→RIGHT→BOTTOM→LEFT→TOP; counter-clockwise cycles TOP→LEFT→BOTTOM→RIGHT→TOP |
| `HoverBorder.RotationsAreInverse` | components/HoverBorderGradient.tsx:28-30 | Clockwise and counter-clockwise rotation undo each other; each is injective |
| `HoverBorder.Tick` | components/HoverBorderGradient.tsx:43-50 | A tick moves the direction only when not hovered, and then always to another side |
| `HoverBorder.FourTicksReturn` | components/HoverBorderGradient.tsx:25-50 | Any multiple of four ticks returns to the starting state |
| `HoverBorder.TicksFollowCycle` | components/HoverBorderGradient.tsx:23-50 | From the initial TOP, tick k shows the side k steps along the cycle |
| `HoverBorder.HoverFreezes` | components/HoverBorderGradient.tsx:43-75 | While hovered the direction never changes. Entering and leaving keep it. Only hovering adds the highlight keyframe |
| `HoverBorder.Keyframes` | components/HoverBorderGradient.tsx:70-75 | The animation starts at the current side's gradient; the highlight is added iff hovered |
| `LanguageContext.T` | utils/LanguageContext.tsx:67-69 | `t` returns the key or a table entry; for any language other than en/fr it returns the key |
| `LanguageContext.TranslatesFromTable` | utils/LanguageContext.tsx:13-69 | Every entry has non-empty en and fr texts, so `t` returns the table's text for en/fr and the key for unknown keys |
| `LanguageContext.Mount` | utils/LanguageContext.tsx:53-60 | The initial language is `en`, replaced by a truthy stored value, which is not validated |
| `LanguageContext.ChoiceSurvivesReload` | utils/LanguageContext.tsx:53-65 | `changeLanguage` stores the choice, and mounting restores it |
| `LanguageContext.UnknownStoredLanguageShowsKeys` | utils/LanguageContext.tsx:55-69 | A stored language other than en/fr is adopted, and then every key translates to itself |
| `LanguageContext.UseLanguage` | utils/LanguageContext.tsx:78-84 | Outside a provider it throws `useLanguage must be used within a LanguageProvider`; inside, it returns the context |
| `LanguageContext.HookSeesLatestChoice` | utils/LanguageContext.tsx:62-84 | Under the provider, the hook returns the language last passed to `setLanguage`, also stored, and `t` answers from that language's table text. Outside a provider it fails with the fixed message |
| `LanguageToggle.Toggle` | components/LanguageToggle.tsx:12-14 | The result is always `en` or `fr`; it is `en` iff the input is not `en` |
| `LanguageToggle.ToggleIsInvolution` | components/LanguageToggle.tsx:13 | On en/fr, toggling swaps the two and twice is the identity; any other value goes to `en` |
| `LanguageToggle.LabelAndTranslationDisagree` | components/LanguageToggle.tsx:12-21 | The button shows the current language; `t('languageToggle')` names the toggled language's label, so the two differ |
| `LanguageToggle.ToggleRecoversFromUnknown` | components/LanguageToggle.tsx:12-21 | From an unknown language, the label reads `FR` and a click stores `en` |

## Left out

- Provider calls are function parameters, not modelled: the OpenAI embedding and chat endpoints, the Pinecone query, and `fetch`. So are `JSON.parse` and the `choices[0].delta.content` access in `onParse`, and `JSON.stringify` of the query response and of chunks.
- Console and telemetry logging, response headers, and the `TextEncoder` byte encoding are left out. Frames and chunks are modelled as strings.
- The search stream's second `controller.close()` is not modelled. The stream ends closed or errored, as the relay loop ends.
- `LegacyStream.OnParse`: the model does not track the stream's reader. It states the case where the reader has drained the queue before a later event, and then nothing changes. An errored stream ignores later events: `enqueue` throws, the throw is caught, and `error()` does nothing. A closed stream whose queue is empty ignores them in the same way.
- `LegacyStream.FeedSettled`: does not cover a close with chunks still unread. Under the WHATWG Streams standard the stream then stays readable with a close pending. A later data event makes `enqueue` throw, and the catch's `error()` then errors the stream and discards the unread chunks. A second `[DONE]` makes `close()` throw out of `start`, with the same effect.
- The `eventsource-parser` decoding of the legacy body is not modelled. Its output, a list of parsed events, is the input. The bytes-to-events split and the client's event-stream parser appear only as `SearchProperties.EventData`, for the blank-line-terminated single-line `data:` events this server sends. A body read that fails partway is not modelled either: the `for await` loop then rejects and the stream is errored (utils/index.ts:77-79).
- `Embedder.FixUrls`: assumes that every document has its own `metadata` object. The source writes `doc.metadata['source']` in place (scripts/embedder.ts:23). If the splitter gave two chunks one shared object, the later chunk would take its stem from the URL already written. A URL ending in `/` would then give the empty stem, and that chunk would take the file's first line. Whether chunks share metadata depends on the splitter, which is not part of this model.
- Loading, splitting and the vector store of the ingestion script are left out, as is reading the URL file. The file's text and the tokenizer are parameters.
- VanishingInput: the canvas pixel scan, colours and drawing are left out. The drawn particles are a parameter, and so are the `Math.random()` draws of each frame. Real radii are plain `real`s, not floating point. The `requestAnimationFrame` loop is `VanishingInput.Animate`, which runs at most a given number of frames: the model says nothing about whether the loop ends, since a particle whose random shrink stays 0 is never spent. The value lives in the parent through `onChange`/`setValue`; the model keeps it in the state.
- HoverBorderGradient: the interval period, the framer-motion tween and all styling are left out. A tick is one interval callback.
- StreamingResult: the 5 ms period, the per-character spans and the motion components are left out. One step is one run of the effect plus the first tick of its interval.
- Answer: styling and animation delays are left out. Titles are strings: a non-string `metadata.title` in the `Set` is not modelled.
- `LanguageContext.T`: keys and languages that name properties of `Object.prototype` (such as `constructor`, `toString` or `__proto__`) are not modelled. For such a key, `translations[key]` is not `undefined` in JavaScript. For such a language (a stored value is adopted unchecked) and a key in the table, `translations[key][language]` is an inherited truthy value, not the key. The ensures for languages other than en/fr holds only for other names.
- `LanguageContext.UnknownStoredLanguageShowsKeys`: holds for stored languages that do not name an `Object.prototype` property; see the line above.
- `localStorage` is the stored value, a parameter. React state updates, effects and rendering are modelled as pure functions of state.
