/** `isLikelyWatermark` and `escapeRegex` of the PDF extractor: the test
    deciding whether a text fragment is boilerplate (a header, footer or
    copyright notice) rather than document content. */
module PdfWatermark {
  import opened JsText

  /** The characters `escapeRegex` puts a backslash in front of. */
  predicate IsRegexSpecial(c: char) {
    c in ".*+?^${}()|[]\\"
  }

  /** A pattern in which every special character is escaped and no other
      character is: what the escaping produces. */
  predicate WellEscaped(p: string)
    decreases |p|
  {
    if p == [] then true
    else if p[0] == '\\' then |p| >= 2 && IsRegexSpecial(p[1]) && WellEscaped(p[2..])
    else !IsRegexSpecial(p[0]) && WellEscaped(p[1..])
  }

  /** The one string a well-escaped pattern matches: each escape `\c` stands
      for `c`, every other character for itself. */
  function PatternLiteral(p: string): string
    requires WellEscaped(p)
    decreases |p|
  {
    if p == [] then []
    else if p[0] == '\\' then [p[1]] + PatternLiteral(p[2..])
    else [p[0]] + PatternLiteral(p[1..])
  }

  /** `str.replace(/[.*+?^${}()|[\]\\]/g, '\\$&')`. The result is a pattern
      that matches exactly the original text. */
  function EscapeRegex(s: string): (p: string)
    ensures WellEscaped(p)
    ensures PatternLiteral(p) == s
    decreases |s|
  {
    if s == [] then []
    else
      var rest := EscapeRegex(s[1..]);
      var head := if IsRegexSpecial(s[0]) then ['\\', s[0]] else [s[0]];
      assert (head + rest)[|head|..] == rest;
      head + rest
  }

  /** `watermarkPatterns.some((pattern) => pattern.test(text))` for the
      patterns `/confidential/i`, `/draft/i`, `/watermark/i`, `/copyright/i`,
      `/©/`, `/®/`, `/™/`, `/proprietary/i` and `/do not (copy|distribute)/i`,
      the last as its two alternatives. */
  predicate MatchesWatermarkPattern(text: string) {
    || ContainsFolded(text, "confidential")
    || ContainsFolded(text, "draft")
    || ContainsFolded(text, "watermark")
    || ContainsFolded(text, "copyright")
    || '©' in text
    || '®' in text
    || '™' in text
    || ContainsFolded(text, "proprietary")
    || ContainsFolded(text, "do not copy")
    || ContainsFolded(text, "do not distribute")
  }

  /** `isLikelyWatermark(text, existingContent)`: fragments shorter than 3
      characters, fragments matching a boilerplate pattern, and fragments
      shorter than 50 characters that the content so far already holds more
      than 3 times. */
  function IsLikelyWatermark(text: string, existingContent: string): (r: bool)
    ensures |text| < 3 ==> r
    ensures MatchesWatermarkPattern(text) ==> r
  {
    if |text| < 3 then true
    else
      var isWatermarkPattern := MatchesWatermarkPattern(text);
      var pattern := EscapeRegex(text);
      if |existingContent| > 0 && CountMatches(existingContent, PatternLiteral(pattern)) > 3 && |text| < 50 then true
      else isWatermarkPattern
  }

  /** For a fragment of 3 to 49 characters that matches no pattern, being a
      watermark means exactly occurring more than 3 times, literally and
      without overlap, in the content so far. */
  lemma RepeatedFragmentIffWatermark(text: string, existingContent: string)
    requires 3 <= |text| < 50 && !MatchesWatermarkPattern(text)
    ensures IsLikelyWatermark(text, existingContent) <==> CountMatches(existingContent, text) > 3
  {
    if existingContent == [] {
      assert CountMatches(existingContent, text) == 0;
    }
  }

  /** A fragment of at least 3 characters that matches no pattern and does
      not occur in the content so far is never a watermark. */
  lemma FreshFragmentIsContent(text: string, existingContent: string)
    requires |text| >= 3 && !MatchesWatermarkPattern(text) && !Contains(existingContent, text)
    ensures !IsLikelyWatermark(text, existingContent)
  {
    NoMatchesIffAbsent(existingContent, text);
  }

  /** Fragments of 50 characters or more are never dropped for repeating:
      they are watermarks exactly when they match a pattern. */
  lemma LongFragmentOnlyByPattern(text: string, existingContent: string)
    requires |text| >= 50
    ensures IsLikelyWatermark(text, existingContent) <==> MatchesWatermarkPattern(text)
  {
  }

  /** "Confidential", in any case, is a watermark wherever it appears. */
  lemma ConfidentialIsWatermark(text: string, existingContent: string, at: nat)
    requires at + 12 <= |text|
    requires forall k :: 0 <= k < 12 ==> LowerAscii(text[at + k]) == "confidential"[k]
    ensures IsLikelyWatermark(text, existingContent)
  {
    FoldedOccurrenceFound(text, "confidential", at);
  }
}
