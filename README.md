# Chat backend core: PDF extraction, conversation context, routing, server address

A Dafny model of the sequential core of a NestJS chat backend. It covers four parts:

- **PDF text extraction** (`PdfProcessService`). The size guard and error wrapping of `process`, and the callback-driven machine of `extractTextFromPdf`. The machine's state is the accumulated text, the current page, whether any content was accepted, and an item counter. The parser's callbacks arrive as a sequence of events. The promise settles on the first event that settles it, and later events change nothing. The model also covers the watermark test `isLikelyWatermark` and the `escapeRegex` it relies on.
- **Conversation context** (`LoadContextService`).
  - `loadContext` returns the newest `limit` stored messages, oldest first.
  - `loadContextWithTokenLimit` walks back from the newest message, estimating `ceil(length/4)` tokens each, until 70% of the budget is reached. What lies before the counted slice is replaced by a summary entry or dropped.
  - Both append the new user message when it is a non-empty string.
- **Routing.**
  - `generateResponseByFlag` sends the AI reply to the generator its output flag selects, or to none.
  - `processAttachment` sends an attachment to the extractor its media type selects, or to none.
  - Both behaviours are taken from their test suites. The implementation files are not part of this model.
- **Server address** (`getServerConfig`). The environment name, host and `parseInt`-parsed port, and the base URL built from them.

Modules:

- `Wrappers`: `Option` and `Result`.
- `JsText`: JavaScript `trim`, ASCII case folding under a regular expression's `i` flag, and non-overlapping literal match counting.
- `JsNumber`: `parseInt` without a radix, and integer-to-text printing.
- `PdfWatermark` and `PdfProcess`: the PDF extractor.
  - `Step` is one callback invocation, as a function.
  - `Feed` and `Run` are the callback applied to an event sequence until the first settlement.
  - `OnEvent` is the callback as a method over the closure variables.
  - `ExtractTextFromPdf` is the imperative loop, proved equal to `Run`.
- `LoadContext`: both context builders.
  - `CountBackwards` is the counting loop of `loadContextWithTokenLimit`.
  - `LoadContextWithTokenLimit` is proved equal to the specification `TokenWindow`.
- `ResponseGenerator`, `AttachmentProcessor`: the two routing switches. They take the generators and extractors as function parameters and record the calls they make.
- `ServerConfig`: the base URL.

## Model

| member | source | states |
|---|---|---|
| JsText.TrimStart | src/bootstrap/server.config.ts:4 | the leading whitespace `parseInt` skips: the result is a suffix, all of the dropped prefix is ECMAScript whitespace, and the result does not start with whitespace |
| JsText.Trim | src/socket/services/payloads/pdf-process.service.ts:111 | `trim` never lengthens; the result neither starts nor ends with whitespace; it is empty exactly when the input is all whitespace; an input without whitespace at its ends is unchanged (what it removes: `TrimDropsOnlyEnds`) |
| JsText.TrimDropsOnlyEnds | src/socket/services/payloads/pdf-process.service.ts:111 | `trim` removes whitespace at the two ends and nothing else: its result is the slice of the input starting where the leading whitespace ends, with only whitespace before and after it |
| JsText.FoldedPrefixByChars | src/socket/services/payloads/pdf-process.service.ts:138-146 | a character-by-character case-insensitive agreement at the start is a folded prefix |
| JsText.FoldedOccurrenceFound | src/socket/services/payloads/pdf-process.service.ts:138-149 | a case-insensitive occurrence of a lower-case literal at any position makes the `i`-flag search succeed |
| JsText.CountMatches | src/socket/services/payloads/pdf-process.service.ts:152-153 | the number of matches of a global literal search, scanning from the left and resuming after each match; never more than the text has characters (the sharper bound is `MatchesAreDisjoint`) |
| JsText.MatchesAreDisjoint | src/socket/services/payloads/pdf-process.service.ts:152-153 | the matches of a global search do not overlap: n matches use up n times the pattern's length |
| JsText.NoMatchesIffAbsent | src/socket/services/payloads/pdf-process.service.ts:152-153 | a global match finds nothing exactly when the literal does not occur anywhere in the text |
| JsText.ContainsWithoutHead | src/socket/services/payloads/pdf-process.service.ts:152-153 | with no occurrence at index 0, the literal occurs in the text iff it occurs after the first character |
| JsNumber.ParseInt | src/bootstrap/server.config.ts:4 | `parseInt` without a radix: leading whitespace skipped, optional sign, `0x` switches to base 16, the longest digit run read, NaN without digits; its contract is `ParseIntOfPrinted` and `ServerConfig.UnsetPortIsNaN` |
| JsNumber.ParseSigned | src/bootstrap/server.config.ts:4 | the sign step of `parseInt`: a leading `-` negates, a leading `+` is skipped (contract through `ParseIntOfPrinted`) |
| JsNumber.ParseMagnitude | src/bootstrap/server.config.ts:4 | the radix step of `parseInt`: a `0x`/`0X` prefix selects base 16, otherwise base 10 (contract through `MagnitudeOfNumeral`) |
| JsNumber.ParseDigits | src/bootstrap/server.config.ts:4 | the digit run's value, or NaN when there is none (contract through `DigitPrefix` and `DecimalValue`) |
| JsNumber.NumberToString | src/bootstrap/server.config.ts:8-9 | `${port}`: "NaN", or the decimal numeral with a leading `-` for negatives; read back by `ParseIntOfPrinted` |
| JsNumber.DigitPrefix | src/bootstrap/server.config.ts:4 | where `parseInt` stops: the longest prefix of digits of the radix, followed by a non-digit or the end |
| JsNumber.NatToString | src/bootstrap/server.config.ts:8-9 | an integer printed in a template literal is a non-empty run of decimal digits with no leading zero |
| JsNumber.DecimalValue | src/bootstrap/server.config.ts:4-9 | reading a printed integer's digits back gives the integer |
| JsNumber.ParseIntOfPrinted | src/bootstrap/server.config.ts:4 | `parseInt` reads back any printed integer, negative ones included, whatever non-digit text follows it (except `x` after a lone `0`) |
| JsNumber.MagnitudeOfNumeral | src/bootstrap/server.config.ts:4 | the unsigned part of `parseInt` reads back a numeral followed by a non-digit |
| JsNumber.DigitsOfNumeral | src/bootstrap/server.config.ts:4 | the digit run at the head of a numeral followed by a non-digit is the numeral itself |
| PdfWatermark.EscapeRegex | src/socket/services/payloads/pdf-process.service.ts:162-164 | the escaped pattern escapes exactly the special characters and, read as a regular expression, denotes the original text (round trip) |
| PdfWatermark.MatchesWatermarkPattern | src/socket/services/payloads/pdf-process.service.ts:137-149 | the nine boilerplate patterns, case-insensitive except ©, ® and ™; one of the facts it gives is `ConfidentialIsWatermark` |
| PdfWatermark.IsLikelyWatermark | src/socket/services/payloads/pdf-process.service.ts:132-160 | fragments shorter than 3 characters and fragments matching any of the nine boilerplate patterns are watermarks |
| PdfWatermark.RepeatedFragmentIffWatermark | src/socket/services/payloads/pdf-process.service.ts:151-159 | for a 3–49 character fragment matching no pattern: it is a watermark iff it already occurs more than 3 times (literally, without overlap) in the content so far |
| PdfWatermark.FreshFragmentIsContent | src/socket/services/payloads/pdf-process.service.ts:149-159 | a fragment of 3 or more characters that matches no pattern and does not occur in the content is kept |
| PdfWatermark.LongFragmentOnlyByPattern | src/socket/services/payloads/pdf-process.service.ts:149-159 | a fragment of 50 or more characters is a watermark iff it matches a pattern, however often it repeats |
| PdfWatermark.ConfidentialIsWatermark | src/socket/services/payloads/pdf-process.service.ts:138 | "confidential" in any letter case, anywhere in the fragment, makes it a watermark |
| PdfProcess.Step | src/socket/services/payloads/pdf-process.service.ts:54-120 | one callback invocation; its contract is the per-case lemmas `StepCountsOneItem`, `ItemCeilingStep`, `EndStep`, `PageStep`, `PastCeilingStep`, `TextKeptStep`, `TextDroppedStep`, `StepOnlyAppends` and `OnlyTextSetsContent` |
| PdfProcess.Feed | src/socket/services/payloads/pdf-process.service.ts:39-128 | the callback over a sequence of events until the promise settles; its contract is `FeedConcat`, `SettlesFirst`, `ItemsCounted`, `TextOnlyGrows` and `NoTextKeepsNoContent` |
| PdfProcess.Run | src/socket/services/payloads/pdf-process.service.ts:39-130 | the promise's outcome, the timer's failure when the events run out unsettled; its contract is `LaterEventsIgnored`, `OnlyFirstItemsMatter`, `FailureEventFailsRun`, `NoTextYieldsSentinel` and `PageCeilingTruncates` |
| PdfProcess.StepCountsOneItem | src/socket/services/payloads/pdf-process.service.ts:64-74 | every callback that does not settle counts exactly one item, and the count never passes 100000 |
| PdfProcess.ItemCeilingStep | src/socket/services/payloads/pdf-process.service.ts:64-74 | the 100001st counted event settles successfully with the trimmed text, or the truncation notice when it is empty, whatever the event |
| PdfProcess.EndStep | src/socket/services/payloads/pdf-process.service.ts:76-89 | the end of the stream settles with the trimmed text if content was accepted, else with the no-text sentinel |
| PdfProcess.PageStep | src/socket/services/payloads/pdf-process.service.ts:91-107 | a page below the ceiling appends its header, after "\n\n" exactly when a page was seen before, becomes the current page, and leaves `hasContent` alone |
| PdfProcess.PastCeilingStep | src/socket/services/payloads/pdf-process.service.ts:91-99 | a page when the current page is at 500 or beyond settles with the trimmed text and the truncation marker |
| PdfProcess.TextKeptStep | src/socket/services/payloads/pdf-process.service.ts:110-119 | a non-watermark text item appends its trimmed text and one space and sets `hasContent` |
| PdfProcess.TextDroppedStep | src/socket/services/payloads/pdf-process.service.ts:110-116 | a watermark text item changes nothing but the item count |
| PdfProcess.StepOnlyAppends | src/socket/services/payloads/pdf-process.service.ts:101-119 | no callback removes or rewrites accumulated text: the old text is a prefix of the new |
| PdfProcess.OnlyTextSetsContent | src/socket/services/payloads/pdf-process.service.ts:79-118 | only a text item can make `hasContent` true (page headers do not) |
| PdfProcess.OnEvent | src/socket/services/payloads/pdf-process.service.ts:54-120 | the callback on its closure variables: either their new values or the settled outcome, exactly as `Step` prescribes |
| PdfProcess.ExtractTextFromPdf | src/socket/services/payloads/pdf-process.service.ts:38-130 | the promise's outcome is `Run` of the event sequence from the initial state: the first settling event decides, a stream that never settles times out |
| PdfProcess.Process | src/socket/services/payloads/pdf-process.service.ts:12-36 | a payload over 50 MiB fails with the size message before any event is read; otherwise success is "File: " + name + "\n\n" + text and every failure is re-raised with the common prefix |
| PdfProcess.FeedConcat | src/socket/services/payloads/pdf-process.service.ts:54-128 | running two event sequences in turn is running the second from where the first stopped, unless the first settled |
| PdfProcess.SettlesFirst | src/socket/services/payloads/pdf-process.service.ts:56-98 | an event that settles decides the outcome whatever events follow it |
| PdfProcess.LaterEventsIgnored | src/socket/services/payloads/pdf-process.service.ts:39-98 | once settled, further events do not change the outcome |
| PdfProcess.ItemsCounted | src/socket/services/payloads/pdf-process.service.ts:64-74 | after events that did not settle the run, the item count has grown by exactly their number and is at most 100000 |
| PdfProcess.OnlyFirstItemsMatter | src/socket/services/payloads/pdf-process.service.ts:64-74 | the outcome depends only on the first 100001 events |
| PdfProcess.FailureEventFailsRun | src/socket/services/payloads/pdf-process.service.ts:49-62 | a parse error or the timer fails the run with its own message, whatever text was accumulated |
| PdfProcess.NoTextYieldsSentinel | src/socket/services/payloads/pdf-process.service.ts:76-89 | a stream whose events before its end contain no text item yields the no-text sentinel, even after page headers |
| PdfProcess.NoTextKeepsNoContent | src/socket/services/payloads/pdf-process.service.ts:79-118 | events without text items never set `hasContent` |
| PdfProcess.TextOnlyGrows | src/socket/services/payloads/pdf-process.service.ts:101-119 | over any event sequence, the accumulated text only grows at its end |
| PdfProcess.PagesFeed | src/socket/services/payloads/pdf-process.service.ts:91-107 | pages 1 to n (n at most 500) leave exactly their headers separated by blank lines, set the current page to n, count n items and no content |
| PdfProcess.PageCeilingTruncates | src/socket/services/payloads/pdf-process.service.ts:91-99 | after 500 pages, the next page settles the run with the trimmed headers and the truncation marker, whatever follows |
| PdfProcess.RepeatGrows | src/socket/services/payloads/pdf-process.service.ts:119 | appending one more copy of a fragment gives one more repetition |
| PdfProcess.MatchesInRepeat | src/socket/services/payloads/pdf-process.service.ts:113-153 | a trimmed fragment accepted j times, each followed by a space, is found exactly j times by the global search |
| PdfProcess.FeedCopies | src/socket/services/payloads/pdf-process.service.ts:54-128 | n copies of an event are its first step followed by the remaining n-1 copies |
| PdfProcess.RepeatDecision | src/socket/services/payloads/pdf-process.service.ts:151-156 | content holding a fragment j times makes it a watermark exactly when j > 3 |
| PdfProcess.RepeatedFragmentStep | src/socket/services/payloads/pdf-process.service.ts:110-156 | one more copy of a repeated fragment is appended while the content holds it at most three times, and only counted afterwards |
| PdfProcess.FeedCopiesChain | src/socket/services/payloads/pdf-process.service.ts:54-128 | feeding n copies of an event walks a chain of states in which each steps to the next |
| PdfProcess.RepeatedFragmentKeptFourTimes | src/socket/services/payloads/pdf-process.service.ts:110-156 | a short fragment sent n times is kept in the text four times, then dropped as a running header or footer, while every copy is counted |
| LoadContext.ToEntry | src/socket/services/load-context.service.ts:35-38 | content is the stored text unchanged; the role is user exactly when the type is "user", assistant otherwise, never system |
| LoadContext.Newest | src/socket/services/load-context.service.ts:29-33 | the store's `take`: the first min(limit, count) messages of the newest-first history |
| LoadContext.Chronological | src/socket/services/load-context.service.ts:35-38 | reverse-and-map: entry i is the message at position count-1-i of the newest-first list |
| LoadContext.AppendUserMessage | src/socket/services/load-context.service.ts:40-42 | a non-empty user message is appended last, verbatim, as a user entry; otherwise nothing is added; the existing entries are untouched |
| LoadContext.LoadContext | src/socket/services/load-context.service.ts:24-45 | the newest min(limit, count) messages oldest first, as entries, then the user message if it is non-empty |
| LoadContext.Transcript | src/socket/services/load-context.service.ts:77 | the `role: content` lines joined with newlines that the summarizer receives |
| LoadContext.Windowed | src/socket/services/load-context.service.ts:73-98 | with at most one entry before the stopping point the history is unchanged; in every case the counted slice ends the result verbatim, preceded by at most one summary entry when entries were removed |
| LoadContext.TokenWindow | src/socket/services/load-context.service.ts:47-105 | the token-mode window; its contract is `UnderBudgetKeepsHistory`, `WindowCases`, `OneOlderMessageIsKept`, `NoBudgetLeavesNoHistory` and `WindowSizeBounded` |
| LoadContext.EstimateTokens | src/socket/services/load-context.service.ts:63 | `ceil(length / 4)`: 4·t is the least multiple of 4 not below the length |
| LoadContext.CountedStart | src/socket/services/load-context.service.ts:65-71 | the backward walk stops at the start of the shortest suffix whose cost reaches 70% of the budget, or at 0 when none does |
| LoadContext.WalkBack | src/socket/services/load-context.service.ts:66-71 | continuing the walk from position j, when every shorter suffix (those starting after j) stayed under the threshold, reaches a valid stopping point at or before j |
| LoadContext.WalkStopIsUnique | src/socket/services/load-context.service.ts:68-71 | the walk has only one possible stopping point |
| LoadContext.CountBackwards | src/socket/services/load-context.service.ts:65-71 | the counting loop leaves `index` one before that stopping point |
| LoadContext.LoadContextWithTokenLimit | src/socket/services/load-context.service.ts:47-105 | the method's result is the specification `TokenWindow` of the stored history, user message, budget and summarizer |
| LoadContext.SuffixCostBounded | src/socket/services/load-context.service.ts:68-71 | dropping older entries never raises the estimated cost |
| LoadContext.UnderBudgetKeepsHistory | src/socket/services/load-context.service.ts:65-98 | a history costing less than 70% of the budget is returned whole, oldest first, with the user message appended |
| LoadContext.WindowCases | src/socket/services/load-context.service.ts:73-98 | with at most one entry before the counted slice nothing is removed; otherwise the earlier entries become one "Previous conversation summary: " system entry when the summarizer is loaded and answers, and are dropped otherwise; the counted slice stays verbatim |
| LoadContext.OneOlderMessageIsKept | src/socket/services/load-context.service.ts:73-98 | the `index > 0` guard: with two messages whose newer one alone reaches the threshold, the older one is kept rather than summarized or dropped |
| LoadContext.NoBudgetLeavesNoHistory | src/socket/services/load-context.service.ts:68-98 | a budget of zero or less, with two or more stored messages and no summarizer, leaves only the user message |
| LoadContext.WindowSizeBounded | src/socket/services/load-context.service.ts:52-56 | token mode returns at most 100 history entries besides the new user message |
| ResponseGenerator.FlagOf | tests/services/response-generator.service.spec.ts:86-154 | the flag each generator answers to; `FlagRoutesToItsGenerator` shows it is the switch's inverse |
| ResponseGenerator.ArtifactFor | tests/services/response-generator.service.spec.ts:86-191 | a recognised flag names the generator that answers to exactly that flag; every other flag names none |
| ResponseGenerator.GenerateResponseByFlag | tests/services/response-generator.service.spec.ts:86-260 | at most one generator call, made exactly when the flag is recognised, with the reply text and room id unchanged; the URL it returns becomes `responseFileUrl`, its error is the result; otherwise the URL is null; `formattedResponse` is always the reply text |
| ResponseGenerator.FlagRoutesToItsGenerator | tests/services/response-generator.service.spec.ts:86-154 | each of the five generators is reached through its own flag and no other |
| ResponseGenerator.PlainTextFlags | tests/services/response-generator.service.spec.ts:156-191 | "text" and "" call no generator and give a null URL |
| AttachmentProcessor.ExtractorFor | tests/services/attachment-processor.service.spec.ts:72-192 | the media-type switch with a default arm; its contract is `SwitchMatchesTable` |
| AttachmentProcessor.MediaTypesOf | tests/services/attachment-processor.service.spec.ts:72-178 | the media types each extractor serves, the routing table read per extractor |
| AttachmentProcessor.SwitchMatchesTable | tests/services/attachment-processor.service.spec.ts:72-192 | the switch sends a media type to an extractor exactly when that extractor serves it, so no media type is served twice |
| AttachmentProcessor.ProcessAttachment | tests/services/attachment-processor.service.spec.ts:72-200 | at most one extractor call, made exactly when the media type is supported, with the attachment itself; the result is the extractor's, error included; an unsupported type gives "" |
| AttachmentProcessor.SpreadsheetsShareOneExtractor | tests/services/attachment-processor.service.spec.ts:111-151 | xls, xlsx and ods all go to the Excel extractor |
| ServerConfig.GetServerConfig | src/bootstrap/server.config.ts:1-12 | `nodeEnv` and `host` are returned as read, `port` is `parseInt(BACKEND_PORT)`, and the base URL is built from that port |
| ServerConfig.BaseUrl | src/bootstrap/server.config.ts:6-9 | the advertised URL for a mode, host and port; its contract is the lemmas in the following rows |
| ServerConfig.SecureSchemeIffProduction | src/bootstrap/server.config.ts:6-9 | the base URL starts with "https://" exactly when NODE_ENV is "production" |
| ServerConfig.WildcardHostRewrittenOnlyInUrl | src/bootstrap/server.config.ts:7-9 | host 0.0.0.0 is advertised as localhost outside production and verbatim in production |
| ServerConfig.SameAddressInBothModes | src/bootstrap/server.config.ts:6-9 | for any other host, both modes advertise host:port verbatim and differ only in the scheme |
| ServerConfig.UrlEndsWithPort | src/bootstrap/server.config.ts:8-9 | the base URL always ends with ":" and the printed port |
| ServerConfig.PortFromDecimalVariable | src/bootstrap/server.config.ts:4-9 | a BACKEND_PORT starting with a decimal numeral gives that number as the port, and the URL ends with ":" and the numeral |
| ServerConfig.UnsetPortIsNaN | src/bootstrap/server.config.ts:2-9 | an unset BACKEND_PORT gives port NaN and a URL ending in ":NaN" |

## Left out

- Base64 decoding of the attachment is not modelled. `Process` takes the decoded length as a parameter.
- The `pdfreader` library is not modelled. The sequence of callback invocations it would make is an input.
- The 60-second timer is modelled as a `Timeout` event, or as the event stream ending without a settlement. Real time, and any interleaving of the timer with callbacks other than "it fires before the next callback", are not modelled.
- `try`/`catch` around the callback body is not modelled. Nothing in the modelled callback throws, so that branch of `extractTextFromPdf` never occurs here.
- Logger and `console` calls are left out. They do not affect results.
- PdfProcess.PastCeilingStep, PdfProcess.PageStep: the page ceiling compares the current page number with 500, as `extractTextFromPdf` does, not the number of pages seen.
- PdfWatermark.IsLikelyWatermark: the pattern `/do not (copy|distribute)/i` is modelled as its two literal alternatives. Case folding is ASCII only. The count of matches uses the escaped text read back as a literal, and that this equals the text is proved.
- JsText.Trim: strings are sequences of code points, not UTF-16 code units. This matters for `length` and for characters outside the Basic Multilingual Plane.
- JsNumber.ParseIntOfPrinted: integers are unbounded. `parseInt` loses precision above 2^53, and `${n}` prints exponent notation for large values; neither is modelled.
- LoadContext.EstimateTokens: `maxTokens * 0.7` is compared in integers as `10 * total < 7 * maxTokens`. Floating-point rounding of the product is not modelled.
- LoadContext.Newest: the message store's `take` is modelled as taking the first `limit` messages. Its handling of a limit of 0 or a negative limit (no limit in TypeORM) is not modelled.
- The summarizer model (a transformer pipeline) is an oracle. It is absent when it failed to load, and otherwise returns a summary or fails. Its options (`max_length`, `min_length`) and its output format beyond the summary text are not modelled.
- The message repository query (filtering by room and ordering by creation time) is not modelled. The room's history is given newest first.
- The implementations of the response generators, of the five artifact services and of the six attachment extractors are not part of this model. They are function parameters.
- The socket gateway, connection registry, room coordination, message pipeline, object storage adapter, bootstrap and logger configuration are not part of this model.
