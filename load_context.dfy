/** `LoadContextService`: builds the conversation history handed to the AI
    for a room. The room's stored messages are an input, newest first, as the
    message store returns them for `order: { createdAt: 'DESC' }`; taking the
    first `take` of them is the store's `take` option. The summarizer model is
    an oracle: absent when it failed to load, otherwise a function that yields
    a summary or `None` when the call throws. */
module LoadContext {
  import opened Wrappers

  datatype StoredMessage = StoredMessage(messageType: string, text: string)

  datatype Role = User | Assistant | System

  /** One `{ role, content }` pair of the context. */
  datatype Entry = Entry(role: Role, content: string)

  datatype Summarizer = Absent | Present(summarize: string -> Option<string>)

  const DefaultLimit: nat := 50
  const FetchLimit: nat := 100
  const DefaultMaxTokens: int := 10000
  const SummaryPrefix := "Previous conversation summary: "

  function RoleName(role: Role): string {
    match role
    case User => "user"
    case Assistant => "assistant"
    case System => "system"
  }

  /** A stored message as a context entry: its text unchanged, and the user
      role exactly when its type is "user" (everything else is the assistant). */
  function ToEntry(m: StoredMessage): (e: Entry)
    ensures e.content == m.text
    ensures e.role != System
    ensures e.role == User <==> m.messageType == "user"
  {
    Entry(if m.messageType == "user" then User else Assistant, m.text)
  }

  /** The store's answer to `take: limit` on a newest-first history. */
  function Newest(history: seq<StoredMessage>, limit: nat): (r: seq<StoredMessage>)
    ensures |r| == if |history| < limit then |history| else limit
    ensures r == history[..|r|]
  {
    if |history| < limit then history else history[..limit]
  }

  /** `messages.reverse().map(...)`: oldest first, each message as an entry. */
  function Chronological(newestFirst: seq<StoredMessage>): (r: seq<Entry>)
    ensures |r| == |newestFirst|
    ensures forall i :: 0 <= i < |r| ==> r[i] == ToEntry(newestFirst[|newestFirst| - 1 - i])
    decreases |newestFirst|
  {
    if newestFirst == [] then [] else Chronological(newestFirst[1..]) + [ToEntry(newestFirst[0])]
  }

  /** `if (userMessage)`: an absent or empty message is not added. */
  predicate Truthy(userMessage: Option<string>) {
    userMessage.Some? && userMessage.value != ""
  }

  /** The new user message goes last, untouched, when it is a non-empty string. */
  function AppendUserMessage(context: seq<Entry>, userMessage: Option<string>): (r: seq<Entry>)
    ensures Truthy(userMessage) ==> |r| == |context| + 1 && r[|context|] == Entry(User, userMessage.value)
    ensures !Truthy(userMessage) ==> |r| == |context|
    ensures r[..|context|] == context
  {
    if Truthy(userMessage) then context + [Entry(User, userMessage.value)] else context
  }

  /** `loadContext`: at most `limit` (by default 50) of the newest stored
      messages, oldest first, then the new user message if there is one. */
  function LoadContext(history: seq<StoredMessage>, userMessage: Option<string> := None,
                       limit: nat := DefaultLimit): (r: seq<Entry>)
    ensures var n := if |history| < limit then |history| else limit;
            && |r| == n + (if Truthy(userMessage) then 1 else 0)
            && (forall i :: 0 <= i < n ==> r[i] == ToEntry(history[n - 1 - i]))
            && (Truthy(userMessage) ==> r[n] == Entry(User, userMessage.value))
  {
    var context := Chronological(Newest(history, limit));
    assert forall i :: 0 <= i < |context| ==> AppendUserMessage(context, userMessage)[i] == context[i];
    AppendUserMessage(context, userMessage)
  }

  // ---------------------------------------------------------------------------
  // Token-budgeted mode

  /** `Math.ceil(text.length / 4)`. */
  function EstimateTokens(text: string): (t: nat)
    ensures |text| <= 4 * t < |text| + 4
  {
    (|text| + 3) / 4
  }

  /** The estimated cost of a run of entries. */
  function Cost(entries: seq<Entry>): nat
    decreases |entries|
  {
    if entries == [] then 0 else EstimateTokens(entries[0].content) + Cost(entries[1..])
  }

  /** `totalTokens < maxTokens * 0.7`, kept in integers. */
  predicate UnderThreshold(total: int, maxTokens: int) {
    10 * total < 7 * maxTokens
  }

  /** Where the backward walk stops: entries from `k` on are the counted
      (recent) slice. The walk stops at the first suffix whose cost reaches
      the threshold, or when it has counted everything (`k == 0`). */
  ghost predicate WalkStopsAt(context: seq<Entry>, maxTokens: int, k: int) {
    && 0 <= k <= |context|
    && (k == 0 || !UnderThreshold(Cost(context[k..]), maxTokens))
    && (forall j :: k < j <= |context| ==> UnderThreshold(Cost(context[j..]), maxTokens))
  }

  /** The walk's stopping point: the start of the shortest suffix whose cost
      reaches the threshold, or 0 when no suffix does. */
  function CountedStart(context: seq<Entry>, maxTokens: int): (k: nat)
    ensures WalkStopsAt(context, maxTokens, k)
  {
    WalkBack(context, maxTokens, |context|)
  }

  function WalkBack(context: seq<Entry>, maxTokens: int, j: nat): (k: nat)
    requires j <= |context|
    requires forall i :: j < i <= |context| ==> UnderThreshold(Cost(context[i..]), maxTokens)
    ensures k <= j && WalkStopsAt(context, maxTokens, k)
    decreases j
  {
    if j == 0 || !UnderThreshold(Cost(context[j..]), maxTokens) then j
    else
      assert forall i :: j - 1 < i <= |context| ==> UnderThreshold(Cost(context[i..]), maxTokens) by {
        forall i | j - 1 < i <= |context| ensures UnderThreshold(Cost(context[i..]), maxTokens) {
          if i == j {
          }
        }
      }
      WalkBack(context, maxTokens, j - 1)
  }

  /** The walk has only one possible stopping point. */
  lemma WalkStopIsUnique(context: seq<Entry>, maxTokens: int, k1: int, k2: int)
    requires WalkStopsAt(context, maxTokens, k1) && WalkStopsAt(context, maxTokens, k2)
    ensures k1 == k2
  {
  }

  /** `${msg.role}: ${msg.content}` lines joined with "\n": the text handed
      to the summarizer. */
  function Transcript(entries: seq<Entry>): string
    decreases |entries|
  {
    if entries == [] then ""
    else
      var line := RoleName(entries[0].role) + ": " + entries[0].content;
      if |entries| == 1 then line else line + "\n" + Transcript(entries[1..])
  }

  /** What replaces the history once the walk stopped at `k`: when at least
      two entries lie before `k` (`index > 0` in `loadContextWithTokenLimit`), a working
      summarizer's summary followed by the recent slice, or else the recent
      slice alone; otherwise the whole history. */
  function Windowed(context: seq<Entry>, k: nat, summarizer: Summarizer): (r: seq<Entry>)
    requires k <= |context|
    ensures k <= 1 ==> r == context
    ensures |context| - k <= |r| && r[|r| - (|context| - k)..] == context[k..]
    ensures k >= 2 ==> |r| <= |context| - k + 1
  {
    if k <= 1 then
      assert context[|context| - (|context| - k)..] == context[k..];
      context
    else match summarizer
      case Absent => context[k..]
      case Present(summarize) =>
        match summarize(Transcript(context[..k]))
        case Some(summary) =>
          var r := [Entry(System, SummaryPrefix + summary)] + context[k..];
          assert r[1..] == context[k..];
          r
        case None => context[k..]
  }

  /** The specification of `loadContextWithTokenLimit`. */
  function TokenWindow(history: seq<StoredMessage>, userMessage: Option<string>, maxTokens: int,
                       summarizer: Summarizer): seq<Entry>
  {
    var context := Chronological(Newest(history, FetchLimit));
    AppendUserMessage(Windowed(context, CountedStart(context, maxTokens), summarizer), userMessage)
  }

  /** The counting loop of `loadContextWithTokenLimit`: from the newest
      entry backwards, add up estimated tokens while the total stays under
      70% of the budget. `index` is left one before the counted slice. */
  method CountBackwards(context: seq<Entry>, maxTokens: int) returns (index: int)
    ensures -1 <= index < |context|
    ensures index + 1 == CountedStart(context, maxTokens)
  {
    var totalTokens := 0;
    index := |context| - 1;
    while index >= 0 && 10 * totalTokens < 7 * maxTokens
      invariant -1 <= index < |context|
      invariant totalTokens == Cost(context[index + 1..])
      invariant forall j :: index + 1 < j <= |context| ==> UnderThreshold(Cost(context[j..]), maxTokens)
      decreases index
    {
      assert UnderThreshold(Cost(context[index + 1..]), maxTokens);
      assert context[index..][1..] == context[index + 1..];
      totalTokens := totalTokens + EstimateTokens(context[index].content);
      index := index - 1;
    }
    WalkStopIsUnique(context, maxTokens, index + 1, CountedStart(context, maxTokens));
  }

  /** `loadContextWithTokenLimit`: the newest 100 stored messages oldest
      first, counted backwards until 70% of the budget (by default 10000
      tokens) is reached; what lies before the counted slice is summarized
      by the service's summarizer, or dropped. */
  method LoadContextWithTokenLimit(summarizer: Summarizer, history: seq<StoredMessage>,
                                   userMessage: Option<string> := None, maxTokens: int := DefaultMaxTokens)
    returns (context: seq<Entry>)
    ensures context == TokenWindow(history, userMessage, maxTokens, summarizer)
  {
    context := Chronological(Newest(history, FetchLimit));
    ghost var all := context;
    var index := CountBackwards(context, maxTokens);
    ghost var k := index + 1;

    if index > 0 && summarizer.Present? {
      var oldMessages := context[..index + 1];
      var recentMessages := context[index + 1..];
      var textToSummarize := Transcript(oldMessages);
      var summary := summarizer.summarize(textToSummarize);
      if summary.Some? {
        context := [Entry(System, SummaryPrefix + summary.value)] + recentMessages;
      } else {
        context := recentMessages;
      }
      assert context == Windowed(all, k, summarizer);
    } else if index > 0 {
      context := context[index + 1..];
      assert context == Windowed(all, k, summarizer);
    }

    if Truthy(userMessage) {
      context := context + [Entry(User, userMessage.value)];
    }
  }

  // ---------------------------------------------------------------------------
  // Properties of the token-budgeted window

  /** Dropping older entries never raises the cost. */
  lemma {:induction false} SuffixCostBounded(context: seq<Entry>, j: nat)
    requires j <= |context|
    ensures Cost(context[j..]) <= Cost(context)
    decreases j
  {
    if j > 0 {
      SuffixCostBounded(context, j - 1);
      assert context[j - 1..][1..] == context[j..];
    }
  }

  /** A history whose whole cost stays under 70% of the budget is returned
      verbatim, oldest first, with the new message appended. */
  lemma UnderBudgetKeepsHistory(history: seq<StoredMessage>, userMessage: Option<string>, maxTokens: int,
                                summarizer: Summarizer)
    requires UnderThreshold(Cost(Chronological(Newest(history, FetchLimit))), maxTokens)
    ensures TokenWindow(history, userMessage, maxTokens, summarizer)
            == AppendUserMessage(Chronological(Newest(history, FetchLimit)), userMessage)
  {
    var context := Chronological(Newest(history, FetchLimit));
    var k := CountedStart(context, maxTokens);
    if k > 0 {
      SuffixCostBounded(context, k);
    }
  }

  /** The walk's stopping point splits the history in three cases: with at
      most one entry before the counted slice nothing is removed; otherwise
      every entry before it is replaced by one summary entry, when the
      summarizer is loaded and answers, or removed entirely. The counted
      slice itself is kept verbatim. */
  lemma WindowCases(history: seq<StoredMessage>, userMessage: Option<string>, maxTokens: int,
                    summarizer: Summarizer, k: int)
    requires WalkStopsAt(Chronological(Newest(history, FetchLimit)), maxTokens, k)
    ensures var context := Chronological(Newest(history, FetchLimit));
            var r := TokenWindow(history, userMessage, maxTokens, summarizer);
            && (k <= 1 ==> r == AppendUserMessage(context, userMessage))
            && (k >= 2 && summarizer.Present? && summarizer.summarize(Transcript(context[..k])).Some? ==>
                  r == AppendUserMessage([Entry(System, SummaryPrefix + summarizer.summarize(Transcript(context[..k])).value)]
                                         + context[k..], userMessage))
            && (k >= 2 && (summarizer.Absent? || summarizer.summarize(Transcript(context[..k])).None?) ==>
                  r == AppendUserMessage(context[k..], userMessage))
  {
    var context := Chronological(Newest(history, FetchLimit));
    WalkStopIsUnique(context, maxTokens, k, CountedStart(context, maxTokens));
    var w := Windowed(context, k, summarizer);
    assert TokenWindow(history, userMessage, maxTokens, summarizer) == AppendUserMessage(w, userMessage);
    if k >= 2 && summarizer.Present? {
      var answer := summarizer.summarize(Transcript(context[..k]));
      assert answer.Some? ==> w == [Entry(System, SummaryPrefix + answer.value)] + context[k..];
      assert answer.None? ==> w == context[k..];
    }
  }

  /** The subtle `index > 0` guard: with two messages of which the newer one
      alone reaches the threshold, the older one lies outside the counted
      slice and is still kept, never summarized or dropped. */
  lemma OneOlderMessageIsKept(older: StoredMessage, newer: StoredMessage, userMessage: Option<string>,
                              maxTokens: int, summarizer: Summarizer)
    requires maxTokens > 0 && !UnderThreshold(EstimateTokens(newer.text), maxTokens)
    ensures TokenWindow([newer, older], userMessage, maxTokens, summarizer)
            == AppendUserMessage([ToEntry(older), ToEntry(newer)], userMessage)
  {
    var context := Chronological(Newest([newer, older], FetchLimit));
    assert context == [ToEntry(older), ToEntry(newer)];
    assert context[1..] == [ToEntry(newer)] && context[2..] == [];
    assert WalkStopsAt(context, maxTokens, 1);
    WindowCases([newer, older], userMessage, maxTokens, summarizer, 1);
  }

  /** A zero or negative budget counts nothing, so with two or more stored
      messages every one of them is summarized away or dropped. */
  lemma NoBudgetLeavesNoHistory(history: seq<StoredMessage>, userMessage: Option<string>, maxTokens: int)
    requires maxTokens <= 0 && |history| >= 2
    ensures TokenWindow(history, userMessage, maxTokens, Absent) == AppendUserMessage([], userMessage)
  {
    var context := Chronological(Newest(history, FetchLimit));
    assert WalkStopsAt(context, maxTokens, |context|);
    WindowCases(history, userMessage, maxTokens, Absent, |context|);
  }

  /** Token mode looks at no more than the newest 100 stored messages, so the
      window holds at most 100 entries besides the new message. */
  lemma WindowSizeBounded(history: seq<StoredMessage>, userMessage: Option<string>, maxTokens: int,
                          summarizer: Summarizer)
    ensures |TokenWindow(history, userMessage, maxTokens, summarizer)| <= FetchLimit + 1
  {
    var context := Chronological(Newest(history, FetchLimit));
    var k := CountedStart(context, maxTokens);
    WindowCases(history, userMessage, maxTokens, summarizer, k);
  }
}
