/** `PdfProcessService`: turns a PDF attachment into text. The PDF parser is
    replaced by the sequence of callback events it would deliver; the 60 s
    timer firing is one more kind of event. A promise settles once, so the
    first event that settles the extraction decides its result and later
    events have no effect. */
module PdfProcess {
  import opened Wrappers
  import opened JsText
  import opened JsNumber
  import opened PdfWatermark

  const MaxFileSize: nat := 50 * 1024 * 1024
  const MaxPages: nat := 500
  const MaxItems: nat := 100000

  const TooLargeMessage := "PDF file is too large. Maximum size is 50MB"
  /** The timer is set to 60000 ms; the model has no clock, only this message. */
  const TimeoutMessage := "PDF processing timeout exceeded (60000ms)"
  const ParseErrorPrefix := "PDF parsing error: "
  const FailurePrefix := "Failed to process PDF file: "
  const TruncatedBySize := "[PDF processed, but content truncated due to size]"
  const NoTextSentinel := "[PDF file contains no extractable text content. It may be image-based or encrypted.]"
  const PageLimitMarker := "\n\n[Truncated: PDF has more than 500 pages]"

  /** One call of the parser's callback, or the timer firing. An item's
      `page` or `text` counts only when truthy: page 0 and the empty text fall
      through every branch. */
  datatype Event =
    | ParseError(message: string)  // the callback's `err` argument
    | EndOfStream                  // `item` is null: the parser is done
    | PageItem(page: nat)          // an item with a `page` field
    | TextItem(text: string)       // an item with a `text` field
    | OtherItem                    // any other item (file metadata)
    | Timeout                      // the 60 s timer fired first

  /** The callback's closure variables. */
  datatype Extraction = Extraction(text: string, currentPage: nat, hasContent: bool, itemCount: nat)

  const Initial := Extraction("", 0, false, 0)

  /** Either the extraction goes on from a new state, or the promise settled. */
  datatype Progress = Continue(state: Extraction) | Settled(result: Result<string, string>)

  function PageHeader(page: nat): string {
    "--- Page " + NatToString(page) + " ---\n"
  }

  /** One callback invocation. A parse error or the timer settles with a
      failure and is not counted; every other event is counted first, and
      the 100001st one settles with the text so far. The end of the stream
      settles with the trimmed text, or with the no-text sentinel when no
      fragment was ever accepted. A page at or beyond page 500 settles with
      a truncation marker; other pages add a header. A text fragment is
      trimmed and, unless it looks like a watermark, appended. */
  function Step(st: Extraction, e: Event): Progress {
    if e.Timeout? then Settled(Err(TimeoutMessage))
    else if e.ParseError? then Settled(Err(ParseErrorPrefix + e.message))
    else
      var count := st.itemCount + 1;
      var trimmed := Trim(st.text);
      if count > MaxItems then Settled(Ok(if trimmed != "" then trimmed else TruncatedBySize))
      else if e.EndOfStream? then Settled(Ok(if st.hasContent then trimmed else NoTextSentinel))
      else if e.PageItem? && e.page != 0 then
        if st.currentPage >= MaxPages then Settled(Ok(trimmed + PageLimitMarker))
        else
          var separator := if st.currentPage > 0 then "\n\n" else "";
          Continue(Extraction(st.text + separator + PageHeader(e.page), e.page, st.hasContent, count))
      else if e.TextItem? && e.text != "" then
        var fragment := Trim(e.text);
        if IsLikelyWatermark(fragment, st.text) then Continue(st.(itemCount := count))
        else Continue(Extraction(st.text + fragment + " ", st.currentPage, true, count))
      else Continue(st.(itemCount := count))
  }

  /** Each step that does not settle counts one item, never past the ceiling. */
  lemma StepCountsOneItem(st: Extraction, e: Event)
    ensures Step(st, e).Continue? ==> Step(st, e).state.itemCount == st.itemCount + 1 <= MaxItems
  {
  }

  /** The 100001st counted event settles successfully, whatever it is, with
      the trimmed text or, when that is empty, the truncation notice. */
  lemma ItemCeilingStep(st: Extraction, e: Event)
    requires st.itemCount >= MaxItems && !e.Timeout? && !e.ParseError?
    ensures Step(st, e) == Settled(Ok(if Trim(st.text) != "" then Trim(st.text) else TruncatedBySize))
  {
  }

  /** The end of the stream settles with the trimmed text once a fragment
      has been accepted, and with the no-text sentinel otherwise. */
  lemma EndStep(st: Extraction)
    requires st.itemCount < MaxItems
    ensures Step(st, EndOfStream) == Settled(Ok(if st.hasContent then Trim(st.text) else NoTextSentinel))
  {
  }

  /** A page below the ceiling adds its header, after a blank line unless
      it is the first page seen. */
  lemma PageStep(st: Extraction, page: nat)
    requires page > 0 && st.currentPage < MaxPages && st.itemCount < MaxItems
    ensures Step(st, PageItem(page))
            == Continue(Extraction(st.text + (if st.currentPage > 0 then "\n\n" else "") + PageHeader(page),
                                   page, st.hasContent, st.itemCount + 1))
  {
  }

  /** A non-empty text item whose trimmed text is not a watermark is
      appended with a trailing space, and the document has content. */
  lemma TextKeptStep(st: Extraction, raw: string)
    requires raw != "" && st.itemCount < MaxItems && !IsLikelyWatermark(Trim(raw), st.text)
    ensures Step(st, TextItem(raw))
            == Continue(Extraction(st.text + Trim(raw) + " ", st.currentPage, true, st.itemCount + 1))
  {
  }

  /** A text item whose trimmed text is a watermark is only counted. */
  lemma TextDroppedStep(st: Extraction, raw: string)
    requires raw != "" && st.itemCount < MaxItems && IsLikelyWatermark(Trim(raw), st.text)
    ensures Step(st, TextItem(raw)) == Continue(st.(itemCount := st.itemCount + 1))
  {
  }

  /** A step only ever appends to the text. */
  lemma StepOnlyAppends(st: Extraction, e: Event)
    ensures Step(st, e).Continue? ==>
              |st.text| <= |Step(st, e).state.text| && Step(st, e).state.text[..|st.text|] == st.text
  {
    if !e.Timeout? && !e.ParseError? && st.itemCount < MaxItems {
      if e.PageItem? && e.page != 0 && st.currentPage < MaxPages {
        PageStep(st, e.page);
        AppendsKeepPrefix(st.text, if st.currentPage > 0 then "\n\n" else "", PageHeader(e.page),
                          Step(st, e).state.text);
      } else if e.TextItem? && e.text != "" && !IsLikelyWatermark(Trim(e.text), st.text) {
        TextKeptStep(st, e.text);
        AppendsKeepPrefix(st.text, Trim(e.text), " ", Step(st, e).state.text);
      }
    }
  }

  lemma AppendsKeepPrefix(s: string, a: string, b: string, t: string)
    requires t == s + a + b
    ensures |s| <= |t| && t[..|s|] == s
  {
    assert t == s + (a + b);
  }

  /** Only a text item can set `hasContent`. */
  lemma OnlyTextSetsContent(st: Extraction, e: Event)
    ensures Step(st, e).Continue? && Step(st, e).state.hasContent ==> st.hasContent || e.TextItem?
  {
  }

  /** The callback run over a sequence of events, up to the first settlement. */
  function Feed(events: seq<Event>, st: Extraction): Progress
    decreases |events|
  {
    if events == [] then Continue(st)
    else match Step(st, events[0])
      case Settled(r) => Settled(r)
      case Continue(next) => Feed(events[1..], next)
  }

  /** The promise's outcome. A stream that stops without settling leaves the
      60 s timer to fire. */
  function Run(events: seq<Event>, st: Extraction): Result<string, string> {
    match Feed(events, st)
    case Settled(r) => r
    case Continue(_) => Err(TimeoutMessage)
  }

  /** The callback of `extractTextFromPdf`, on its closure variables: the
      new values of the variables, or the value the promise settles with. */
  method OnEvent(st: Extraction, e: Event) returns (next: Extraction, settled: Option<Result<string, string>>)
    ensures settled.None? ==> Step(st, e) == Continue(next)
    ensures settled.Some? ==> Step(st, e) == Settled(settled.value)
  {
    var textContent := st.text;
    var currentPage := st.currentPage;
    var hasContent := st.hasContent;
    var itemCount := st.itemCount;
    settled := None;
    if e.Timeout? {
      settled := Some(Err(TimeoutMessage));
    } else if e.ParseError? {
      settled := Some(Err(ParseErrorPrefix + e.message));
    } else {
      itemCount := itemCount + 1;
      if itemCount > MaxItems {
        var trimmed := Trim(textContent);
        settled := Some(Ok(if trimmed != "" then trimmed else TruncatedBySize));
      } else if e.EndOfStream? {
        settled := Some(Ok(if !hasContent then NoTextSentinel else Trim(textContent)));
      } else if e.PageItem? && e.page != 0 {
        if currentPage >= MaxPages {
          settled := Some(Ok(Trim(textContent) + PageLimitMarker));
        } else {
          var separator := if currentPage > 0 then "\n\n" else "";
          currentPage := e.page;
          textContent := textContent + separator + PageHeader(e.page);
        }
      } else if e.TextItem? && e.text != "" {
        var text := Trim(e.text);
        if !IsLikelyWatermark(text, textContent) {
          hasContent := true;
          textContent := textContent + text + " ";
        }
      }
    }
    next := Extraction(textContent, currentPage, hasContent, itemCount);
  }

  /** `extractTextFromPdf`: the callback runs on each event in turn until
      the promise settles. */
  method ExtractTextFromPdf(events: seq<Event>) returns (r: Result<string, string>)
    ensures r == Run(events, Initial)
  {
    var state := Initial;
    var settled: Option<Result<string, string>> := None;
    var i := 0;
    while i < |events| && settled.None?
      invariant 0 <= i <= |events|
      invariant settled.None? ==> Feed(events, Initial) == Feed(events[i..], state)
      invariant settled.Some? ==> Feed(events, Initial) == Settled(settled.value)
      decreases |events| - i
    {
      assert events[i..][0] == events[i] && events[i..][1..] == events[i + 1..];
      ghost var before := state;
      state, settled := OnEvent(state, events[i]);
      assert settled.None? ==> Feed(events[i..], before) == Feed(events[i + 1..], state);
      i := i + 1;
    }
    if settled.Some? {
      r := settled.value;
    } else {
      r := Err(TimeoutMessage);
    }
  }

  /** `process`: a decoded payload over 50 MiB is refused before the parser
      sees anything; otherwise the extracted text comes back under a
      `File:` header, and every failure is re-raised with a common prefix. */
  method Process(filename: string, decodedSize: nat, events: seq<Event>) returns (r: Result<string, string>)
    ensures decodedSize > MaxFileSize ==> r == Err(FailurePrefix + TooLargeMessage)
    ensures decodedSize <= MaxFileSize ==>
              r == match Run(events, Initial)
                   case Ok(text) => Ok("File: " + filename + "\n\n" + text)
                   case Err(message) => Err(FailurePrefix + message)
  {
    if decodedSize > MaxFileSize {
      return Err(FailurePrefix + TooLargeMessage);
    }
    var extracted := ExtractTextFromPdf(events);
    match extracted
    case Ok(text) => r := Ok("File: " + filename + "\n\n" + text);
    case Err(message) => r := Err(FailurePrefix + message);
  }

  // ---------------------------------------------------------------------------
  // Properties of the extraction

  /** Feeding two runs of events one after the other is feeding the second
      from where the first left off, unless the first already settled. */
  lemma {:induction false} FeedConcat(first: seq<Event>, second: seq<Event>, st: Extraction)
    ensures Feed(first + second, st) == match Feed(first, st)
                                        case Settled(r) => Settled(r)
                                        case Continue(next) => Feed(second, next)
    decreases |first|
  {
    if first != [] {
      var whole := first + second;
      assert whole != [] && whole[0] == first[0];
      assert whole[1..] == first[1..] + second;
      match Step(st, first[0])
      case Settled(r) =>
        assert Feed(whole, st) == Settled(r);
        assert Feed(first, st) == Settled(r);
      case Continue(next) =>
        FeedConcat(first[1..], second, next);
        assert Feed(whole, st) == Feed(first[1..] + second, next);
        assert Feed(first, st) == Feed(first[1..], next);
    } else {
      assert first + second == second;
    }
  }

  lemma SplitAt(prefix: seq<Event>, e: Event, rest: seq<Event>)
    ensures prefix + [e] + rest == prefix + ([e] + rest)
  {
  }

  /** An event that settles decides the run, whatever follows it. */
  lemma SettlesFirst(st: Extraction, e: Event, rest: seq<Event>, r: Result<string, string>)
    requires Step(st, e) == Settled(r)
    ensures Feed([e] + rest, st) == Settled(r)
  {
    assert ([e] + rest)[0] == e;
  }

  /** The promise settles once: events after the settling one change nothing. */
  lemma LaterEventsIgnored(events: seq<Event>, later: seq<Event>, st: Extraction)
    requires Feed(events, st).Settled?
    ensures Run(events + later, st) == Run(events, st)
  {
    FeedConcat(events, later, st);
  }

  /** Every event that does not settle is counted, and the count never
      passes the ceiling. */
  lemma {:induction false} ItemsCounted(events: seq<Event>, st: Extraction)
    ensures Feed(events, st).Continue? ==> Feed(events, st).state.itemCount == st.itemCount + |events|
    ensures Feed(events, st).Continue? && events != [] ==> Feed(events, st).state.itemCount <= MaxItems
    decreases |events|
  {
    if events != [] {
      StepCountsOneItem(st, events[0]);
      match Step(st, events[0])
      case Settled(_) =>
      case Continue(next) => ItemsCounted(events[1..], next);
    }
  }

  /** At most 100001 events are ever looked at: the outcome depends on
      nothing after them. */
  lemma OnlyFirstItemsMatter(events: seq<Event>)
    requires |events| > MaxItems + 1
    ensures Run(events, Initial) == Run(events[..MaxItems + 1], Initial)
  {
    var head := events[..MaxItems + 1];
    ItemsCounted(head, Initial);
    assert head + events[MaxItems + 1..] == events;
    LaterEventsIgnored(head, events[MaxItems + 1..], Initial);
  }

  /** A parse error or the timer fails the run with its own message, however
      much text has been accumulated before it. */
  lemma FailureEventFailsRun(prefix: seq<Event>, e: Event, rest: seq<Event>)
    requires Feed(prefix, Initial).Continue?
    requires e.ParseError? || e.Timeout?
    ensures Run(prefix + [e] + rest, Initial)
            == Err(if e.ParseError? then ParseErrorPrefix + e.message else TimeoutMessage)
  {
    SplitAt(prefix, e, rest);
    FeedConcat(prefix, [e] + rest, Initial);
  }

  /** Page headers do not count as content: a stream whose events before its
      end hold no text item yields the no-text sentinel, not an error. */
  lemma NoTextYieldsSentinel(prefix: seq<Event>, rest: seq<Event>)
    requires forall i :: 0 <= i < |prefix| ==> !prefix[i].TextItem?
    requires Feed(prefix, Initial).Continue? && |prefix| < MaxItems
    ensures Run(prefix + [EndOfStream] + rest, Initial) == Ok(NoTextSentinel)
  {
    NoTextKeepsNoContent(prefix, Initial);
    ItemsCounted(prefix, Initial);
    var st := Feed(prefix, Initial).state;
    SettlesFirst(st, EndOfStream, rest, Ok(NoTextSentinel));
    SplitAt(prefix, EndOfStream, rest);
    FeedConcat(prefix, [EndOfStream] + rest, Initial);
  }

  lemma {:induction false} NoTextKeepsNoContent(events: seq<Event>, st: Extraction)
    requires forall i :: 0 <= i < |events| ==> !events[i].TextItem?
    requires !st.hasContent
    ensures Feed(events, st).Continue? ==> !Feed(events, st).state.hasContent
    decreases |events|
  {
    if events != [] {
      OnlyTextSetsContent(st, events[0]);
      match Step(st, events[0])
      case Settled(_) =>
      case Continue(next) => NoTextKeepsNoContent(events[1..], next);
    }
  }

  /** The text accumulated so far is only ever appended to. */
  lemma {:induction false} TextOnlyGrows(events: seq<Event>, st: Extraction)
    ensures Feed(events, st).Continue? ==>
              |st.text| <= |Feed(events, st).state.text| && Feed(events, st).state.text[..|st.text|] == st.text
    decreases |events|
  {
    if events != [] {
      StepOnlyAppends(st, events[0]);
      match Step(st, events[0])
      case Settled(_) =>
      case Continue(next) =>
        TextOnlyGrows(events[1..], next);
    }
  }

  // Pages

  /** Page events for pages 1 to n, in order. */
  function Pages(n: nat): seq<Event>
    decreases n
  {
    if n == 0 then [] else Pages(n - 1) + [PageItem(n)]
  }

  /** The headers pages 1 to n leave behind, separated by blank lines. */
  function PageHeaders(n: nat): string
    decreases n
  {
    if n == 0 then "" else PageHeaders(n - 1) + (if n > 1 then "\n\n" else "") + PageHeader(n)
  }

  /** Pages 1 to n, up to the ceiling, leave only their headers and count
      as items; they never make the document have content. */
  lemma {:induction false} PagesFeed(n: nat)
    requires n <= MaxPages
    ensures Feed(Pages(n), Initial) == Continue(Extraction(PageHeaders(n), n, false, n))
    decreases n
  {
    if n > 0 {
      PagesFeed(n - 1);
      FeedConcat(Pages(n - 1), [PageItem(n)], Initial);
    }
  }

  /** Once the current page is at the ceiling, the next page settles with
      the trimmed text and the truncation marker. */
  lemma PastCeilingStep(st: Extraction, page: nat)
    requires st.currentPage >= MaxPages && st.itemCount < MaxItems && page > 0
    ensures Step(st, PageItem(page)) == Settled(Ok(Trim(st.text) + PageLimitMarker))
  {
  }

  /** After 500 pages (`pages` is the ceiling), the next page settles the
      run successfully with the headers so far and the truncation marker,
      whatever follows. */
  lemma PageCeilingTruncates(pages: nat, page: nat, rest: seq<Event>)
    requires pages == MaxPages && page > 0
    ensures Run(Pages(pages) + [PageItem(page)] + rest, Initial)
            == Ok(Trim(PageHeaders(pages)) + PageLimitMarker)
  {
    PagesFeed(pages);
    var st := Extraction(PageHeaders(pages), pages, false, pages);
    PastCeilingStep(st, page);
    SettlesFirst(st, PageItem(page), rest, Ok(Trim(st.text) + PageLimitMarker));
    SplitAt(Pages(pages), PageItem(page), rest);
    FeedConcat(Pages(pages), [PageItem(page)] + rest, Initial);
  }

  // Repeated fragments

  function Repeat(s: string, n: nat): string
    decreases n
  {
    if n == 0 then "" else s + Repeat(s, n - 1)
  }

  /** `n` copies of the same event. */
  function Copies(e: Event, n: nat): seq<Event>
    decreases n
  {
    if n == 0 then [] else [e] + Copies(e, n - 1)
  }

  lemma {:induction false} RepeatGrows(s: string, n: nat)
    ensures Repeat(s, n) + s == Repeat(s, n + 1)
    decreases n
  {
    if n > 0 {
      RepeatGrows(s, n - 1);
    }
  }

  /** A trimmed fragment, accepted `j` times, is found exactly `j` times. */
  lemma {:induction false} MatchesInRepeat(t: string, j: nat)
    requires |t| >= 2 && !IsJsWhitespace(t[0])
    ensures CountMatches(Repeat(t + " ", j), t) == j
    decreases j
  {
    if j > 0 {
      var rest := Repeat(t + " ", j - 1);
      var s := Repeat(t + " ", j);
      assert s == t + (" " + rest);
      assert s[..|t|] == t && s[|t|..] == " " + rest;
      MatchesInRepeat(t, j - 1);
      if j > 1 {
        assert |rest| >= |t| + 1;
        assert (" " + rest)[0] == ' ' != t[0];
        assert (" " + rest)[1..] == rest;
      }
    }
  }

  lemma FeedCopies(e: Event, n: nat, st: Extraction)
    requires n > 0
    ensures Feed(Copies(e, n), st) == match Step(st, e)
                                      case Settled(r) => Settled(r)
                                      case Continue(next) => Feed(Copies(e, n - 1), next)
  {
    assert Copies(e, n)[0] == e && Copies(e, n)[1..] == Copies(e, n - 1);
  }

  /** A fragment that trimming leaves unchanged. */
  predicate Trimmed(t: string) {
    t != [] && !IsJsWhitespace(t[0]) && !IsJsWhitespace(t[|t| - 1])
  }

  /** The content holding a fragment `j` times makes it a watermark
      exactly from the fourth copy on. */
  lemma RepeatDecision(t: string, j: nat)
    requires Trimmed(t) && 3 <= |t| < 50 && !MatchesWatermarkPattern(t)
    ensures IsLikelyWatermark(t, Repeat(t + " ", j)) <==> j > 3
  {
    MatchesInRepeat(t, j);
    RepeatedFragmentIffWatermark(t, Repeat(t + " ", j));
  }

  /** One more copy of a repeated fragment is appended while the content
      holds it at most three times, and dropped afterwards. */
  lemma RepeatedFragmentStep(t: string, k: nat)
    requires Trimmed(t) && 3 <= |t| < 50 && !MatchesWatermarkPattern(t)
    requires k < MaxItems
    ensures Step(RepeatState(t, k), TextItem(t)) == Continue(RepeatState(t, k + 1))
  {
    if k < 4 {
      RepeatKeptStep(t, k);
    } else {
      RepeatDroppedStep(t, k);
    }
  }

  lemma RepeatKeptStep(t: string, k: nat)
    requires Trimmed(t) && 3 <= |t| < 50 && !MatchesWatermarkPattern(t)
    requires k < 4
    ensures Step(RepeatState(t, k), TextItem(t)) == Continue(RepeatState(t, k + 1))
  {
    assert Trim(t) == t;
    RepeatDecision(t, k);
    TextKeptStep(RepeatState(t, k), t);
    RepeatGrows(t + " ", k);
  }

  lemma RepeatDroppedStep(t: string, k: nat)
    requires Trimmed(t) && 3 <= |t| < 50 && !MatchesWatermarkPattern(t)
    requires 4 <= k < MaxItems
    ensures Step(RepeatState(t, k), TextItem(t)) == Continue(RepeatState(t, k + 1))
  {
    assert Trim(t) == t;
    RepeatDecision(t, 4);
    TextDroppedStep(RepeatState(t, k), t);
  }

  /** Feeding `n` copies of an event walks through the given chain of
      states, when each state steps to the next one. */
  lemma {:induction false} FeedCopiesChain(e: Event, n: nat, states: seq<Extraction>)
    requires |states| == n + 1
    requires forall k :: 0 <= k < n ==> Step(states[k], e) == Continue(states[k + 1])
    ensures Feed(Copies(e, n), states[0]) == Continue(states[n])
    decreases n
  {
    if n > 0 {
      FeedCopies(e, n, states[0]);
      FeedCopiesChain(e, n - 1, states[1..]);
    }
  }

  /** The state after `k` copies of a repeated fragment. */
  function RepeatState(t: string, k: nat): Extraction {
    Extraction(Repeat(t + " ", if k < 4 then k else 4), 0, k > 0, k)
  }

  /** A short fragment that keeps coming back is kept four times and then
      dropped as a running header or footer. */
  lemma RepeatedFragmentKeptFourTimes(t: string, n: nat)
    requires Trimmed(t) && 3 <= |t| < 50 && !MatchesWatermarkPattern(t)
    requires n <= MaxItems
    ensures Feed(Copies(TextItem(t), n), Initial) == Continue(RepeatState(t, n))
  {
    var states := seq(n + 1, k requires 0 <= k => RepeatState(t, k));
    forall k | 0 <= k < n
      ensures Step(states[k], TextItem(t)) == Continue(states[k + 1])
    {
      RepeatedFragmentStep(t, k);
    }
    FeedCopiesChain(TextItem(t), n, states);
  }
}
