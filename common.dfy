/**
 * The pure text helpers of `_effect_common.ts`: whitespace normalisation,
 * heading slugs and levels, anchors, snippets and age formatting.
 */
module Common {
  import opened Wrappers
  import opened Strings

  // ---------------------------------------------------------------------------
  // normalizeWhitespace
  // ---------------------------------------------------------------------------

  /** `normalizeWhitespace`: every run of `\s` becomes one space, then the ends are trimmed. */
  function NormalizeWhitespace(input: string): string {
    Trim(ReplaceRuns(input, IsSpace, ' '))
  }

  /** Single spaces between words and nothing else: what `NormalizeWhitespace` produces. */
  predicate WellSpaced(s: string) {
    && RunsCollapsed(s, IsSpace, ' ')
    && (s == [] || (!IsSpace(s[0]) && !IsSpace(s[|s| - 1])))
  }

  lemma DropWhileUnchanged(s: string, p: char -> bool)
    requires s == [] || !p(s[0])
    ensures DropWhile(s, p) == s
  {
  }

  lemma DropLastWhileUnchanged(s: string, p: char -> bool)
    requires s == [] || !p(s[|s| - 1])
    ensures DropLastWhile(s, p) == s
  {
  }

  /**
   * The result of `NormalizeWhitespace` is well spaced: it neither starts nor
   * ends with whitespace, its only whitespace character is the plain space,
   * and no two spaces are adjacent.
   */
  lemma NormalizeWhitespaceWellSpaced(input: string)
    ensures WellSpaced(NormalizeWhitespace(input))
  {
    var collapsed := ReplaceRuns(input, IsSpace, ' ');
    ReplaceRunsCollapses(input, IsSpace, ' ');
    TrimKeepsRunsCollapsed(collapsed, IsSpace, IsSpace, ' ');
    TrimShape(collapsed, IsSpace);
  }

  /** A well-spaced string is left unchanged, so normalising twice is normalising once. */
  lemma NormalizeWhitespaceIdempotent(input: string)
    ensures WellSpaced(input) ==> NormalizeWhitespace(input) == input
    ensures NormalizeWhitespace(NormalizeWhitespace(input)) == NormalizeWhitespace(input)
  {
    forall s | WellSpaced(s) ensures NormalizeWhitespace(s) == s {
      ReplaceRunsFixed(s, IsSpace, ' ');
      DropWhileUnchanged(s, IsSpace);
      DropLastWhileUnchanged(s, IsSpace);
    }
    NormalizeWhitespaceWellSpaced(input);
  }

  lemma {:induction false} OthersAppend(a: string, b: string, p: char -> bool)
    ensures Others(a + b, p) == Others(a, p) + Others(b, p)
    decreases |a|
  {
    if a == [] {
      assert a + b == b;
    } else {
      assert (a + b)[0] == a[0];
      assert (a + b)[1..] == a[1..] + b;
      OthersAppend(a[1..], b, p);
    }
  }

  lemma {:induction false} OthersOfAll(s: string, p: char -> bool)
    requires forall i :: 0 <= i < |s| ==> p(s[i])
    ensures Others(s, p) == []
    decreases |s|
  {
    if s != [] {
      OthersOfAll(s[1..], p);
    }
  }

  /** Dropping `p`-characters at either end keeps the other characters. */
  lemma OthersOfTrimmed(s: string, p: char -> bool)
    ensures Others(DropLastWhile(DropWhile(s, p), p), p) == Others(s, p)
  {
    var t := DropWhile(s, p);
    OthersOfDropped(s, p);
    var k := |t| - BackSpanLength(t, p);
    BackSpanLengthIsMaximal(t, p);
    assert t == t[..k] + t[k..];
    OthersAppend(t[..k], t[k..], p);
    OthersOfAll(t[k..], p);
  }

  /** Normalising keeps every non-whitespace character, in order. */
  lemma NormalizeWhitespaceKeepsText(input: string)
    ensures Others(NormalizeWhitespace(input), IsSpace) == Others(input, IsSpace)
  {
    ReplaceRunsKeepsOthers(input, IsSpace, ' ');
    OthersOfTrimmed(ReplaceRuns(input, IsSpace, ' '), IsSpace);
  }

  // ---------------------------------------------------------------------------
  // headingTextToSlug
  // ---------------------------------------------------------------------------

  /**
   * The Markdown link `[text](target)` at the start of `s`, as the pattern
   * `\[([^\]]+)\]\([^)]+\)` matches it: its text and its length.
   */
  function LinkAt(s: string): (r: Option<(string, nat)>)
    ensures r.Some? ==> 6 <= r.value.1 <= |s|
  {
    if s == [] || s[0] != '[' then None
    else
      match IndexOf(s[1..], "]")
      case None => None
      case Some(j) =>
        if j == 0 || 2 + j >= |s| || s[2 + j] != '(' then None
        else
          match IndexOf(s[3 + j..], ")")
          case None => None
          case Some(k) => if k == 0 then None else Some((s[1..1 + j], 4 + j + k))
  }

  /**
   * `s` starts with `[text](target)`, where the text has no `]` and the
   * target no `)`, neither empty.
   */
  predicate LinkSpans(s: string, text: string, target: string) {
    var j, k := |text|, |target|;
    && text != [] && ']' !in text && target != [] && ')' !in target
    && 4 + j + k <= |s| && s[0] == '[' && s[1..1 + j] == text && s[1 + j] == ']' && s[2 + j] == '('
    && s[3 + j..3 + j + k] == target && s[3 + j + k] == ')'
  }

  /** A recognised link is a `[text](target)` at the start, with the captured text. */
  lemma LinkAtSound(s: string) returns (text: string, target: string)
    requires LinkAt(s).Some?
    ensures LinkSpans(s, text, target) && LinkAt(s) == Some((text, |text| + |target| + 4))
  {
    var rest := s[1..];
    IndexOfCharFound(rest, "]");
    var j := IndexOf(rest, "]").value;
    var after := s[3 + j..];
    IndexOfCharFound(after, ")");
    var k := IndexOf(after, ")").value;
    text, target := rest[..j], after[..k];
    assert s[1..1 + j] == text;
    assert s[3 + j..3 + j + k] == target;
  }

  /** A `[text](target)` at the start is recognised, with its text and length. */
  lemma LinkAtComplete(s: string, text: string, target: string)
    requires LinkSpans(s, text, target)
    ensures LinkAt(s) == Some((text, |text| + |target| + 4))
  {
    var j, k := |text|, |target|;
    var rest := s[1..];
    assert rest[..j] == text && rest[j] == ']';
    IndexOfCharAt(rest, "]", j);
    var after := s[3 + j..];
    assert after[..k] == target && after[k] == ')';
    IndexOfCharAt(after, ")", k);
  }

  /** A link is recognised exactly when `s` starts with one. */
  lemma LinkAtIff(s: string)
    ensures LinkAt(s).Some? <==> exists text, target :: LinkSpans(s, text, target)
    ensures forall text, target :: LinkSpans(s, text, target) ==> LinkAt(s) == Some((text, |text| + |target| + 4))
  {
    if LinkAt(s).Some? {
      var text, target := LinkAtSound(s);
    }
    forall text, target | LinkSpans(s, text, target)
      ensures LinkAt(s) == Some((text, |text| + |target| + 4))
    {
      LinkAtComplete(s, text, target);
    }
  }

  /** `replace(/\[([^\]]+)\]\([^)]+\)/g, "$1")`: every link is replaced by its text. */
  function StripLinks(s: string): string
    decreases |s|
  {
    if s == [] then []
    else
      match LinkAt(s)
      case Some((text, len)) => text + StripLinks(s[len..])
      case None => [s[0]] + StripLinks(s[1..])
  }

  /** The length of the tag `<...>` at the start of `s`, as `<[^>]+>` matches it. */
  function TagAt(s: string): (r: Option<nat>)
    ensures r.Some? ==> 3 <= r.value <= |s|
  {
    if s == [] || s[0] != '<' then None
    else
      match IndexOf(s[1..], ">")
      case None => None
      case Some(j) => if j == 0 then None else Some(j + 2)
  }

  /** `s` starts with `<body>`, where the body is non-empty and has no `>`. */
  predicate TagSpans(s: string, body: string) {
    var j := |body|;
    body != [] && '>' !in body && 2 + j <= |s| && s[0] == '<' && s[1..1 + j] == body && s[1 + j] == '>'
  }

  /** A tag is recognised exactly when `s` starts with one, and its length runs to the first `>`. */
  lemma TagAtIff(s: string)
    ensures TagAt(s).Some? <==> exists body :: TagSpans(s, body)
    ensures forall body :: TagSpans(s, body) ==> TagAt(s) == Some(|body| + 2)
  {
    if TagAt(s).Some? {
      var rest := s[1..];
      IndexOfCharFound(rest, ">");
      var j := IndexOf(rest, ">").value;
      assert rest[..j] == s[1..1 + j];
      assert TagSpans(s, s[1..1 + j]);
    }
    forall body | TagSpans(s, body)
      ensures TagAt(s) == Some(|body| + 2)
    {
      var rest := s[1..];
      assert rest[..|body|] == body && rest[|body|] == '>';
      IndexOfCharAt(rest, ">", |body|);
    }
  }

  /** `replace(/<[^>]+>/g, "")`: every tag is removed. */
  function StripTags(s: string): string
    decreases |s|
  {
    if s == [] then []
    else
      match TagAt(s)
      case Some(len) => StripTags(s[len..])
      case None => [s[0]] + StripTags(s[1..])
  }

  /** `replace(/c/g, "")`. */
  function RemoveChar(s: string, c: char): string {
    if s == [] then [] else (if s[0] == c then [] else [s[0]]) + RemoveChar(s[1..], c)
  }

  predicate IsSlugChar(c: char) { 'a' <= c <= 'z' || '0' <= c <= '9' }

  predicate NotSlugChar(c: char) { !IsSlugChar(c) }

  predicate IsHyphen(c: char) { c == '-' }

  /** `headingTextToSlug`: the anchor the documentation site derives from a heading's text. */
  function HeadingTextToSlug(text: string): string {
    var stripped := ToLower(Trim(ReplaceRuns(StripTags(RemoveChar(StripLinks(text), '`')), IsSpace, ' ')));
    DropLastWhile(DropWhile(ReplaceRuns(stripped, NotSlugChar, '-'), IsHyphen), IsHyphen)
  }

  /** A slug: lower-case letters, digits and single inner hyphens. */
  predicate IsSlug(s: string) {
    && (forall i :: 0 <= i < |s| ==> IsSlugChar(s[i]) || s[i] == '-')
    && (forall i :: 0 <= i < |s| - 1 ==> !(s[i] == '-' && s[i + 1] == '-'))
    && (s == [] || (s[0] != '-' && s[|s| - 1] != '-'))
  }

  /** Every slug is made of `[a-z0-9-]`, has no `--`, and does not start or end with `-`. */
  lemma SlugIsSlug(text: string)
    ensures IsSlug(HeadingTextToSlug(text))
  {
    var stripped := ToLower(Trim(ReplaceRuns(StripTags(RemoveChar(StripLinks(text), '`')), IsSpace, ' ')));
    var hyphenated := ReplaceRuns(stripped, NotSlugChar, '-');
    ReplaceRunsCollapses(stripped, NotSlugChar, '-');
    TrimKeepsRunsCollapsed(hyphenated, NotSlugChar, IsHyphen, '-');
    TrimShape(hyphenated, IsHyphen);
  }

  lemma {:induction false} StripLinksUnchanged(s: string)
    requires forall i :: 0 <= i < |s| ==> s[i] != '['
    ensures StripLinks(s) == s
    decreases |s|
  {
    if s != [] {
      StripLinksUnchanged(s[1..]);
    }
  }

  lemma {:induction false} StripTagsUnchanged(s: string)
    requires forall i :: 0 <= i < |s| ==> s[i] != '<'
    ensures StripTags(s) == s
    decreases |s|
  {
    if s != [] {
      StripTagsUnchanged(s[1..]);
    }
  }

  lemma {:induction false} RemoveCharUnchanged(s: string, c: char)
    requires forall i :: 0 <= i < |s| ==> s[i] != c
    ensures RemoveChar(s, c) == s
    decreases |s|
  {
    if s != [] {
      RemoveCharUnchanged(s[1..], c);
    }
  }

  /** Link, backtick and tag stripping leave a slug alone. */
  lemma SlugSurvivesStripping(s: string)
    requires IsSlug(s)
    ensures StripTags(RemoveChar(StripLinks(s), '`')) == s
  {
    StripLinksUnchanged(s);
    RemoveCharUnchanged(s, '`');
    StripTagsUnchanged(s);
  }

  /** Whitespace folding, trimming and lower-casing leave a slug alone. */
  lemma SlugSurvivesSpacing(s: string)
    requires IsSlug(s)
    ensures ToLower(Trim(ReplaceRuns(s, IsSpace, ' '))) == s
  {
    assert RunsCollapsed(s, IsSpace, ' ');
    ReplaceRunsFixed(s, IsSpace, ' ');
    DropWhileUnchanged(s, IsSpace);
    DropLastWhileUnchanged(s, IsSpace);
    ToLowerFixed(s);
  }

  /** Hyphenation and hyphen trimming leave a slug alone. */
  lemma SlugSurvivesHyphenation(s: string)
    requires IsSlug(s)
    ensures DropLastWhile(DropWhile(ReplaceRuns(s, NotSlugChar, '-'), IsHyphen), IsHyphen) == s
  {
    assert RunsCollapsed(s, NotSlugChar, '-');
    ReplaceRunsFixed(s, NotSlugChar, '-');
    DropWhileUnchanged(s, IsHyphen);
    DropLastWhileUnchanged(s, IsHyphen);
  }

  /** A slug is its own slug. */
  lemma SlugOfSlug(s: string)
    requires IsSlug(s)
    ensures HeadingTextToSlug(s) == s
  {
    SlugSurvivesStripping(s);
    SlugSurvivesSpacing(s);
    SlugSurvivesHyphenation(s);
  }

  /** Slugging is idempotent. */
  lemma SlugIdempotent(text: string)
    ensures HeadingTextToSlug(HeadingTextToSlug(text)) == HeadingTextToSlug(text)
  {
    SlugIsSlug(text);
    SlugOfSlug(HeadingTextToSlug(text));
  }

  // ---------------------------------------------------------------------------
  // headingLevel
  // ---------------------------------------------------------------------------

  predicate IsHash(c: char) { c == '#' }

  /** `headingLevel`: the depth of a line matching `^(#{1,6})\s+`, or `None`. */
  function HeadingLevel(line: string): Option<nat> {
    var n := SpanLength(line, IsHash);
    if 1 <= n <= 6 && n < |line| && IsSpace(line[n]) then Some(n) else None
  }

  /** The line opens with exactly `k` marker characters followed by whitespace. */
  predicate MarkedWith(line: string, k: nat) {
    && 1 <= k <= 6 && k < |line|
    && (forall i :: 0 <= i < k ==> line[i] == '#')
    && IsSpace(line[k])
  }

  /** `HeadingLevel` is `k` exactly when `^(#{1,6})\s+` matches with a `k`-character marker. */
  lemma HeadingLevelIff(line: string, k: nat)
    ensures HeadingLevel(line) == Some(k) <==> MarkedWith(line, k)
  {
    SpanLengthIsMaximal(line, IsHash);
    var n := SpanLength(line, IsHash);
    if MarkedWith(line, k) {
      SpanLengthExactly(line, IsHash, k);
    }
  }

  /** The heading text: the marker and the whitespace after it removed, then trimmed. */
  function HeadingText(line: string): string {
    var n := SpanLength(line, IsHash);
    Trim(DropWhile(line[n..], IsSpace))
  }

  // ---------------------------------------------------------------------------
  // normalizeAnchor
  // ---------------------------------------------------------------------------

  /** `normalizeAnchor`: drop one leading `#`, trim, lower-case. */
  function NormalizeAnchor(value: string): string {
    ToLower(Trim(if value != [] && value[0] == '#' then value[1..] else value))
  }

  /** The anchor written `#slug` for a slug normalises back to that slug. */
  lemma NormalizeAnchorOfSlug(s: string)
    requires IsSlug(s)
    ensures NormalizeAnchor("#" + s) == s
  {
    assert ("#" + s)[1..] == s;
    DropWhileUnchanged(s, IsSpace);
    DropLastWhileUnchanged(s, IsSpace);
    ToLowerFixed(s);
  }

  /** A normalised anchor has no upper-case letter and no whitespace at either end. */
  lemma NormalizeAnchorShape(value: string)
    ensures var a := NormalizeAnchor(value);
      && (forall i :: 0 <= i < |a| ==> !IsUpper(a[i]))
      && (a == [] || (!IsSpace(a[0]) && !IsSpace(a[|a| - 1])))
  {
    var v := if value != [] && value[0] == '#' then value[1..] else value;
    TrimShape(v, IsSpace);
  }

  // ---------------------------------------------------------------------------
  // extractSnippet
  // ---------------------------------------------------------------------------

  /** The default `width` of `extractSnippet`, the only one the scripts use. */
  const SnippetWidth: nat := 180

  const Ellipsis: string := "\U{2026}"

  function Max(a: int, b: int): int { if a < b then b else a }

  function Min(a: int, b: int): int { if a < b then a else b }

  /** `extractSnippet(content, query)`: at most 180 characters of the normalised content, centred on the query. */
  function ExtractSnippet(content: string, query: string): string {
    var normalized := NormalizeWhitespace(content);
    if |normalized| <= SnippetWidth then normalized
    else
      var q := ToLower(query);
      match IndexOf(ToLower(normalized), q)
      case None => normalized[..SnippetWidth - 1] + Ellipsis
      case Some(index) =>
        var start := Max(0, index - SnippetWidth / 3);
        var end := Min(|normalized|, start + SnippetWidth);
        (if start > 0 then Ellipsis else "") + normalized[start..end] + (if end < |normalized| then Ellipsis else "")
  }

  lemma ToLowerSlice(s: string, i: nat, j: nat)
    requires i <= j <= |s|
    ensures ToLower(s[i..j]) == ToLower(s)[i..j]
  {
  }

  lemma ToLowerAppend(a: string, b: string)
    ensures ToLower(a + b) == ToLower(a) + ToLower(b)
  {
  }

  /** A snippet is never longer than the width plus its two ellipses, and short content comes back whole. */
  lemma ExtractSnippetLength(content: string, query: string)
    ensures |ExtractSnippet(content, query)| <= SnippetWidth + 2
    ensures |NormalizeWhitespace(content)| <= SnippetWidth ==> ExtractSnippet(content, query) == NormalizeWhitespace(content)
  {
  }

  /** The lower-cased window `s[start..end]`, framed by `pre` and `post`, shows the occurrence of `q` at `index`. */
  lemma WindowShowsMatch(s: string, q: string, index: nat, start: nat, end: nat, pre: string, post: string)
    requires start <= index && index + |q| <= end <= |s|
    requires OccursAt(ToLower(s), q, index)
    ensures Contains(ToLower(pre + s[start..end] + post), q)
  {
    var low := ToLower(s);
    var r := pre + s[start..end] + post;
    ToLowerSlice(s, start, end);
    ToLowerAppend(pre + s[start..end], post);
    ToLowerAppend(pre, s[start..end]);
    var mid := low[start..end];
    assert ToLower(r) == ToLower(pre) + mid + ToLower(post);
    var at := |pre| + index - start;
    assert ToLower(r)[at..at + |q|] == mid[index - start..index - start + |q|];
    assert mid[index - start..index - start + |q|] == low[index..index + |q|];
    ContainsIff(ToLower(r), q, at);
  }

  /** Long content with an occurrence of the query is cut to the window that starts a third of the width before it. */
  lemma SnippetIsWindow(content: string, query: string) returns (start: nat, end: nat)
    requires |NormalizeWhitespace(content)| > SnippetWidth
    requires IndexOf(ToLower(NormalizeWhitespace(content)), ToLower(query)).Some?
    ensures var index := IndexOf(ToLower(NormalizeWhitespace(content)), ToLower(query)).value;
      start == Max(0, index - SnippetWidth / 3) && end == Min(|NormalizeWhitespace(content)|, start + SnippetWidth)
    ensures start <= end <= |NormalizeWhitespace(content)|
    ensures ExtractSnippet(content, query)
      == (if start > 0 then Ellipsis else "") + NormalizeWhitespace(content)[start..end]
         + (if end < |NormalizeWhitespace(content)| then Ellipsis else "")
  {
    var index := IndexOf(ToLower(NormalizeWhitespace(content)), ToLower(query)).value;
    start := Max(0, index - SnippetWidth / 3);
    end := Min(|NormalizeWhitespace(content)|, start + SnippetWidth);
  }

  /**
   * When the query occurs in the normalised content (ignoring case) and is at
   * most 120 characters long, the snippet shows that occurrence.
   */
  lemma ExtractSnippetShowsQuery(content: string, query: string)
    requires Contains(ToLower(NormalizeWhitespace(content)), ToLower(query))
    requires |query| <= SnippetWidth - SnippetWidth / 3
    ensures Contains(ToLower(ExtractSnippet(content, query)), ToLower(query))
  {
    var normalized := NormalizeWhitespace(content);
    var q := ToLower(query);
    var low := ToLower(normalized);
    IndexOfIffContains(low, q);
    var index := IndexOf(low, q).value;
    if |normalized| > SnippetWidth {
      var start, end := SnippetIsWindow(content, query);
      var pre := if start > 0 then Ellipsis else "";
      var post := if end < |normalized| then Ellipsis else "";
      WindowShowsMatch(normalized, q, index, start, end, pre, post);
    } else {
      assert OccursAt(low, q, index);
    }
  }

  // ---------------------------------------------------------------------------
  // formatAgeMs
  // ---------------------------------------------------------------------------

  /** `formatAgeMs`: an age in milliseconds in the largest unit that keeps it readable. */
  function FormatAgeMs(ms: int): string {
    if ms < 1000 then IntToString(ms) + "ms"
    else
      var seconds := ms / 1000;
      if seconds < 60 then NatToString(seconds) + "s"
      else
        var minutes := seconds / 60;
        if minutes < 60 then NatToString(minutes) + "m"
        else
          var hours := minutes / 60;
          if hours < 48 then NatToString(hours) + "h"
          else NatToString(hours / 24) + "d"
  }

  /**
   * For an age of at least one second, `FormatAgeMs` writes the number of
   * whole units `n` followed by the unit, and the unit is the largest one in
   * which the age stays under the next threshold: seconds below one minute,
   * minutes below one hour, hours below 48 hours, days from there on.
   */
  lemma FormatAgeMsUnits(ms: int) returns (n: nat, unit: string)
    requires ms >= 1000
    ensures FormatAgeMs(ms) == NatToString(n) + unit
    ensures unit == "s" <==> ms < 60 * 1000
    ensures unit == "m" <==> 60 * 1000 <= ms < 60 * 60 * 1000
    ensures unit == "h" <==> 60 * 60 * 1000 <= ms < 48 * 60 * 60 * 1000
    ensures unit == "d" <==> 48 * 60 * 60 * 1000 <= ms
    ensures unit == "s" ==> n == ms / 1000
    ensures unit == "m" ==> n == ms / (60 * 1000)
    ensures unit == "h" ==> n == ms / (60 * 60 * 1000)
    ensures unit == "d" ==> n == ms / (24 * 60 * 60 * 1000)
  {
    var seconds := ms / 1000;
    var minutes := seconds / 60;
    var hours := minutes / 60;
    assert minutes == ms / 60000;
    assert hours == ms / 3600000;
    assert hours / 24 == ms / 86400000;
    if seconds < 60 {
      n, unit := seconds, "s";
    } else if minutes < 60 {
      n, unit := minutes, "m";
    } else if hours < 48 {
      n, unit := hours, "h";
    } else {
      n, unit := hours / 24, "d";
    }
  }
}
