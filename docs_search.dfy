/**
 * `effect-docs-search.ts`: lexical search over `llms.txt` (one row per
 * linked page) or `llms-full.txt` (one row per heading with up to six lines
 * of body), scored field by field, ranked and cut at `--limit`.
 */
module DocsSearch {
  import opened Wrappers
  import opened Strings
  import opened Common
  import opened Args
  import opened DocsLinks
  import opened Scan
  import opened Ranking
  import Cache

  // ---------------------------------------------------------------------------
  // scoreField
  // ---------------------------------------------------------------------------

  /** The points one query term earns against a lower-cased field `v`. */
  function TermPoints(v: string, term: string, weight: int): int {
    if v == term then weight * 4
    else if StartsWith(v, term) then weight * 3
    else if Contains(v, term) then weight * 1
    else 0
  }

  /** The points of the terms, added in order. */
  function TermsPoints(v: string, terms: seq<string>, weight: int): int {
    if terms == [] then 0
    else TermsPoints(v, terms[..|terms| - 1], weight) + TermPoints(v, terms[|terms| - 1], weight)
  }

  /**
   * The score of one field: nothing for an empty field; `8w` for a field equal
   * to the query, `6w` or `4w` when the query is a prefix of it or occurs in
   * it, and the points of each term of the query.
   */
  function FieldScore(query: string, value: string, weight: int): (r: int)
    ensures value == [] ==> r == 0
  {
    var q := ToLower(query);
    var v := ToLower(value);
    if v == [] then 0
    else
      (if v == q then weight * 8 else 0)
      + (if Contains(v, q) then weight * (if StartsWith(v, q) then 6 else 4) else 0)
      + TermsPoints(v, Terms(q), weight)
  }

  /** `scoreField(query, value, weight)`. */
  method ScoreField(query: string, value: string, weight: int) returns (score: int)
    ensures score == FieldScore(query, value, weight)
  {
    var q := ToLower(query);
    var v := ToLower(value);
    if v == [] {
      return 0;
    }
    score := 0;
    if v == q {
      score := score + weight * 8;
    }
    if Contains(v, q) {
      score := score + weight * (if StartsWith(v, q) then 6 else 4);
    }
    var terms := Terms(q);
    ghost var base := score;
    for k := 0 to |terms|
      invariant score == base + TermsPoints(v, terms[..k], weight)
    {
      var term := terms[k];
      if v == term {
        score := score + weight * 4;
      } else if StartsWith(v, term) {
        score := score + weight * 3;
      } else if Contains(v, term) {
        score := score + weight * 1;
      }
      assert terms[..k + 1][..k] == terms[..k];
    }
    assert terms[..|terms|] == terms;
  }

  lemma Distribute(w: int, a: int, b: int)
    ensures w * (a + b) == w * a + w * b
  {
  }

  lemma TermPointsLinear(v: string, term: string, weight: int)
    ensures TermPoints(v, term, weight) == weight * TermPoints(v, term, 1)
    ensures TermPoints(v, term, 1) >= 0
  {
  }

  lemma {:induction false} TermsPointsLinear(v: string, terms: seq<string>, weight: int)
    ensures TermsPoints(v, terms, weight) == weight * TermsPoints(v, terms, 1)
    ensures TermsPoints(v, terms, 1) >= 0
  {
    if terms != [] {
      var init := terms[..|terms| - 1];
      var last := terms[|terms| - 1];
      TermsPointsLinear(v, init, weight);
      TermPointsLinear(v, last, weight);
      var a, b := TermsPoints(v, init, 1), TermPoints(v, last, 1);
      assert TermsPoints(v, terms, 1) == a + b;
      assert TermsPoints(v, terms, weight) == weight * a + weight * b;
      Distribute(weight, a, b);
    }
  }

  /** Every increment is the weight times a constant: a field's score is its weight times its unit score. */
  lemma FieldScoreLinear(query: string, value: string, weight: int)
    ensures FieldScore(query, value, weight) == weight * FieldScore(query, value, 1)
    ensures weight >= 0 ==> FieldScore(query, value, weight) >= 0
  {
    var q := ToLower(query);
    var v := ToLower(value);
    TermsPointsLinear(v, Terms(q), weight);
    if v != [] {
      var e := if v == q then 8 else 0;
      var c := if Contains(v, q) then (if StartsWith(v, q) then 6 else 4) else 0;
      var t := TermsPoints(v, Terms(q), 1);
      assert FieldScore(query, value, 1) == e + c + t;
      assert FieldScore(query, value, weight) == weight * e + weight * c + weight * t;
      Distribute(weight, e + c, t);
      Distribute(weight, e, c);
      if weight >= 0 {
        assert weight * (e + c + t) >= 0;
      }
    }
  }

  lemma TermPointsPositive(v: string, term: string, weight: int)
    requires weight > 0
    ensures TermPoints(v, term, weight) > 0 <==> Contains(v, term)
    ensures TermPoints(v, term, weight) >= 0
  {
    if v == term {
      assert OccursAt(v, term, 0);
    } else if StartsWith(v, term) {
      StartsWithContains(v, term);
    }
  }

  lemma {:induction false} TermsPointsPositive(v: string, terms: seq<string>, weight: int)
    requires weight > 0
    ensures TermsPoints(v, terms, weight) > 0 <==> exists t :: t in terms && Contains(v, t)
    ensures TermsPoints(v, terms, weight) >= 0
  {
    if terms != [] {
      var init := terms[..|terms| - 1];
      var last := terms[|terms| - 1];
      TermsPointsPositive(v, init, weight);
      TermPointsPositive(v, last, weight);
      assert terms == init + [last];
      assert forall t :: t in terms <==> t in init || t == last;
    }
  }

  /**
   * For a query with at least one term and a positive weight, a field scores
   * exactly when it is non-empty and some term of the query occurs in it
   * (the whole query occurring implies its terms do).
   */
  lemma FieldScorePositive(query: string, value: string, weight: int)
    requires weight > 0 && Terms(ToLower(query)) != []
    ensures FieldScore(query, value, weight) > 0 <==>
      value != [] && exists t :: t in Terms(ToLower(query)) && Contains(ToLower(value), t)
  {
    var q := ToLower(query);
    var v := ToLower(value);
    var terms := Terms(q);
    TermsPointsPositive(v, terms, weight);
    if v != [] && (v == q || Contains(v, q)) {
      if v == q {
        assert OccursAt(v, q, 0);
      }
      TermsOccur(q);
      assert terms[0] in terms;
      ContainsTransitive(v, q, terms[0]);
    }
  }

  // ---------------------------------------------------------------------------
  // parseLlmsIndex
  // ---------------------------------------------------------------------------

  datatype IndexEntry = IndexEntry(title: string, url: string, description: string)

  /** The row a line of `llms.txt` gives: the trimmed line read as `- [title](url): description`. */
  function IndexEntryOf(line: string): Option<IndexEntry> {
    match ParseLinkLine(Trim(line), IndexRow)
    case None => None
    case Some(m) => Some(IndexEntry(m.title, m.url, m.rest))
  }

  function IndexEntryAt(lines: seq<string>): nat -> Option<IndexEntry> {
    (i: nat) => if i < |lines| then IndexEntryOf(lines[i]) else None
  }

  /** Position `i` of the index rows is what line `i` gives. */
  lemma IndexEntryAtIs(lines: seq<string>, i: nat)
    requires i < |lines|
    ensures IndexEntryAt(lines)(i) == IndexEntryOf(lines[i])
  {
  }

  function IndexEntries(text: string): seq<IndexEntry> {
    var lines := SplitLines(text);
    Collect(IndexEntryAt(lines), |lines|)
  }

  /** `parseLlmsIndex(text)`. */
  method ParseLlmsIndex(text: string) returns (rows: seq<IndexEntry>)
    ensures rows == IndexEntries(text)
  {
    var lines := SplitLines(text);
    rows := [];
    for i := 0 to |lines|
      invariant rows == Collect(IndexEntryAt(lines), i)
    {
      var entry := ReadIndexLine(lines[i]);
      IndexEntryAtIs(lines, i);
      CollectNext(IndexEntryAt(lines), i, entry);
      if entry.None? {
        continue;
      }
      rows := rows + [entry.value];
    }
  }

  /** One step of the `llms.txt` parser: match one trimmed line against the link-line patterns. */
  method ReadIndexLine(line: string) returns (entry: Option<IndexEntry>)
    ensures entry == IndexEntryOf(line)
  {
    var m := ParseLinkLine(Trim(line), IndexRow);
    if m.None? {
      return None;
    }
    entry := Some(IndexEntry(m.value.title, m.value.url, m.value.rest));
  }

  /** Every row names a non-empty title and a page below the docs prefix, and its description has no line break. */
  lemma IndexEntryShape(line: string)
    requires IndexEntryOf(line).Some?
    ensures var e := IndexEntryOf(line).value;
      && e.title != [] && DocsPrefix <= e.url && |e.url| > |DocsPrefix|
      && NoneSatisfy(e.description, IsLineTerminator)
  {
    var _ := ParsedLineShape(Trim(line), IndexRow);
  }

  /**
   * A row written `- [title](https://effect.website/docs/path): description`
   * reads back as that title, URL and description.
   */
  lemma IndexEntryRoundTrip(title: string, path: string, description: string)
    requires title != [] && NoneSatisfy(title, IsLineTerminator) && !Contains(title, "](")
    requires path != [] && NoneSatisfy(path, IsCloseParen)
    requires description != [] && !IsSpace(description[0]) && !IsSpace(description[|description| - 1])
    requires NoneSatisfy(description, IsLineTerminator)
    ensures IndexEntryOf(RenderLine(IndexRow, title, DocsPrefix + path, ": " + description))
      == Some(IndexEntry(title, DocsPrefix + path, description))
  {
    var tail := ": " + description;
    var line := RenderLine(IndexRow, title, DocsPrefix + path, tail);
    assert tail[1..] == " " + description;
    assert DropWhile(tail[1..], IsSpace) == description by {
      SpanLengthExactly(tail[1..], IsSpace, 1);
    }
    var pre := Opener(IndexRow) + title + "](" + (DocsPrefix + path) + ")";
    assert line == pre + tail;
    assert line[0] == pre[0] == '-';
    assert line[|line| - 1] == tail[|tail| - 1] == description[|description| - 1];
    TrimUnchanged(line);
    RenderedLineParses(IndexRow, title, path, tail, description);
  }

  lemma TrimUnchanged(s: string)
    requires s != [] && !IsSpace(s[0]) && !IsSpace(s[|s| - 1])
    ensures Trim(s) == s
  {
    DropWhileUnchanged(s, IsSpace);
    DropLastWhileUnchanged(s, IsSpace);
  }

  // ---------------------------------------------------------------------------
  // parseLlmsFull
  // ---------------------------------------------------------------------------

  /**
   * The heading pattern `/^(#{1,6})\s+(.+)$/` of the `llms-full.txt` parser,
   * and the trimmed text it captures. After a marker of one to six `#` and
   * whitespace, `(.+)$` needs a non-empty rest free of line terminators; when
   * the whitespace runs to the end of the line, `\s+` gives back its last
   * character, which `.` takes unless it is a line terminator, and the text
   * is empty.
   */
  function SearchHeading(line: string): Option<(nat, string)> {
    var n := SpanLength(line, IsHash);
    if !(1 <= n <= 6 && n < |line| && IsSpace(line[n])) then None
    else
      var w := SpanLength(line[n..], IsSpace);
      var rest := line[n + w..];
      if rest != [] then
        if NoneSatisfy(rest, IsLineTerminator) then Some((n, Trim(rest))) else None
      else if w >= 2 && !IsLineTerminator(line[|line| - 1]) then Some((n, ""))
      else None
  }

  /**
   * A line this recogniser accepts is a heading line for `headingLevel`, of the
   * same level and with the same text; on a line without line terminators and
   * with non-blank text the two agree.
   */
  lemma SearchHeadingIsHeading(line: string)
    ensures SearchHeading(line).Some? ==>
      && HeadingLevel(line) == Some(SearchHeading(line).value.0)
      && SearchHeading(line).value.1 == HeadingText(line)
    ensures HeadingLevel(line).Some? && NoneSatisfy(line, IsLineTerminator) && HeadingText(line) != [] ==>
      SearchHeading(line).Some?
  {
    if SearchHeading(line).Some? {
      SearchHeadingAgrees(line);
    }
    if HeadingLevel(line).Some? && NoneSatisfy(line, IsLineTerminator) && HeadingText(line) != [] {
      SearchHeadingComplete(line);
    }
  }

  /** After the marker and the whitespace, the rest of a heading line is what `HeadingText` trims. */
  lemma HeadingRest(line: string)
    requires HeadingLevel(line).Some?
    ensures var n := SpanLength(line, IsHash);
      var w := SpanLength(line[n..], IsSpace);
      n + w <= |line| && DropWhile(line[n..], IsSpace) == line[n + w..]
  {
    var n := SpanLength(line, IsHash);
    var w := SpanLength(line[n..], IsSpace);
    assert line[n..][w..] == line[n + w..];
  }

  lemma SearchHeadingAgrees(line: string)
    requires SearchHeading(line).Some?
    ensures HeadingLevel(line) == Some(SearchHeading(line).value.0)
    ensures SearchHeading(line).value.1 == HeadingText(line)
  {
    HeadingRest(line);
  }

  lemma SearchHeadingComplete(line: string)
    requires HeadingLevel(line).Some? && NoneSatisfy(line, IsLineTerminator) && HeadingText(line) != []
    ensures SearchHeading(line).Some?
  {
    HeadingRest(line);
    var n := SpanLength(line, IsHash);
    var w := SpanLength(line[n..], IsSpace);
    var rest := line[n + w..];
    forall k | 0 <= k < |rest|
      ensures !IsLineTerminator(rest[k])
    {
      assert rest[k] == line[n + w + k];
    }
  }

  /** How `parseLlmsFull` reads one line: a page heading, a heading that makes a row, or neither. */
  datatype FullLineKind = PageStart(title: string, url: string) | HeadingRow(level: nat, text: string) | Plain

  function ClassifyFull(line: string): FullLineKind {
    match ParseLinkLine(line, PageHeading)
    case Some(m) => PageStart(m.title, m.url)
    case None =>
      match SearchHeading(line)
      case None => Plain
      case Some(h) => HeadingRow(h.0, h.1)
  }

  function FullKinds(lines: seq<string>): (r: seq<FullLineKind>)
    ensures |r| == |lines|
    ensures forall i :: 0 <= i < |lines| ==> r[i] == ClassifyFull(lines[i])
  {
    seq(|lines|, i requires 0 <= i < |lines| => ClassifyFull(lines[i]))
  }

  /** The title and URL of the last page heading before line `i`. */
  function CurrentPage(kinds: seq<FullLineKind>, i: nat): Option<(string, string)>
    requires i <= |kinds|
  {
    if i == 0 then None
    else if kinds[i - 1].PageStart? then Some((kinds[i - 1].title, kinds[i - 1].url))
    else CurrentPage(kinds, i - 1)
  }

  /** The current page is that of the nearest page heading above, and there is none before the first. */
  lemma {:induction false} CurrentPageIsNearest(kinds: seq<FullLineKind>, i: nat)
    requires i <= |kinds|
    ensures CurrentPage(kinds, i).None? <==> forall j :: 0 <= j < i ==> !kinds[j].PageStart?
    ensures CurrentPage(kinds, i).Some? ==> exists j ::
      && 0 <= j < i && kinds[j] == PageStart(CurrentPage(kinds, i).value.0, CurrentPage(kinds, i).value.1)
      && forall k :: j < k < i ==> !kinds[k].PageStart?
  {
    if i > 0 {
      CurrentPageIsNearest(kinds, i - 1);
      if !kinds[i - 1].PageStart? && CurrentPage(kinds, i).Some? {
        var p := CurrentPage(kinds, i - 1).value;
        var j :| 0 <= j < i - 1 && kinds[j] == PageStart(p.0, p.1) && forall k :: j < k < i - 1 ==> !kinds[k].PageStart?;
        assert forall k :: j < k < i ==> !kinds[k].PageStart?;
      }
    }
  }

  /** The non-blank lines of `ls`, trimmed. */
  function NonBlank(ls: seq<string>): seq<string> {
    if ls == [] then []
    else (if Trim(ls[0]) != [] then [Trim(ls[0])] else []) + NonBlank(ls[1..])
  }

  /** The body text of a heading: the non-blank trimmed lines from line `j` on, up to the next heading and at most six, with `acc` already collected. */
  function BodyFrom(lines: seq<string>, j: nat, acc: seq<string>): seq<string>
    decreases |lines| - j
  {
    if j >= |lines| || HeadingLevel(lines[j]).Some? then acc
    else
      var next := if Trim(lines[j]) != [] then acc + [Trim(lines[j])] else acc;
      if |next| >= 6 then next else BodyFrom(lines, j + 1, next)
  }

  /**
   * The body is the non-blank trimmed lines from `j` up to a stop: no heading
   * line lies before the stop, at most six lines are taken, and the scan stops
   * early only at a heading line or once six lines are taken.
   */
  lemma {:induction false} BodyFromShape(lines: seq<string>, j: nat, acc: seq<string>) returns (end: nat)
    requires j <= |lines| && |acc| < 6
    ensures j <= end <= |lines|
    ensures BodyFrom(lines, j, acc) == acc + NonBlank(lines[j..end])
    ensures forall k :: j <= k < end ==> HeadingLevel(lines[k]).None?
    ensures |BodyFrom(lines, j, acc)| <= 6
    ensures end < |lines| ==> HeadingLevel(lines[end]).Some? || |BodyFrom(lines, j, acc)| == 6
    decreases |lines| - j
  {
    if j == |lines| || HeadingLevel(lines[j]).Some? {
      end := j;
      assert lines[j..end] == [];
    } else {
      var next := if Trim(lines[j]) != [] then acc + [Trim(lines[j])] else acc;
      if |next| >= 6 {
        end := j + 1;
        assert lines[j..end] == [lines[j]];
        assert NonBlank(lines[j..end][1..]) == [];
      } else {
        end := BodyFromShape(lines, j + 1, next);
        assert lines[j..end][0] == lines[j] && lines[j..end][1..] == lines[j + 1..end];
      }
    }
  }

  /** The loop that collects a heading's body lines, from the line after the heading. */
  method CollectBody(lines: seq<string>, from: nat) returns (bodyLines: seq<string>)
    requires from <= |lines|
    ensures bodyLines == BodyFrom(lines, from, [])
  {
    bodyLines := [];
    var j := from;
    while j < |lines|
      invariant from <= j <= |lines|
      invariant |bodyLines| < 6
      invariant BodyFrom(lines, j, bodyLines) == BodyFrom(lines, from, [])
      decreases |lines| - j
    {
      var next := lines[j];
      if HeadingLevel(next).Some? {
        return;
      }
      if Trim(next) != [] {
        bodyLines := bodyLines + [Trim(next)];
      }
      if |bodyLines| >= 6 {
        return;
      }
      j := j + 1;
    }
  }

  datatype FullRow = FullRow(title: string, url: Option<string>, body: string)

  /** A heading below level 1 on a page is suffixed with the page title. */
  function RowTitle(heading: string, level: nat, page: Option<(string, string)>): string {
    if page.Some? && page.value.0 != [] && level > 1 then heading + " (" + page.value.0 + ")" else heading
  }

  /** The row line `i` produces, if it is a heading line other than a page heading. */
  function FullRowAt(lines: seq<string>, kinds: seq<FullLineKind>, i: nat): Option<FullRow>
    requires |kinds| == |lines|
  {
    if i >= |lines| then None
    else match kinds[i]
      case HeadingRow(level, heading) =>
        var page := CurrentPage(kinds, i);
        Some(FullRow(
          RowTitle(heading, level, page),
          if page.Some? then Some(page.value.1) else None,
          NormalizeWhitespace(Join(BodyFrom(lines, i + 1, []), " "))))
      case _ => None
  }

  function FullRowsOf(lines: seq<string>): seq<FullRow> {
    var kinds := FullKinds(lines);
    Collect((i: nat) => FullRowAt(lines, kinds, i), |lines|)
  }

  /** `parseLlmsFull(text)`: one forward pass carrying the current page. */
  method ParseLlmsFull(text: string) returns (rows: seq<FullRow>)
    ensures rows == FullRowsOf(SplitLines(text))
  {
    var lines := SplitLines(text);
    ghost var kinds := FullKinds(lines);
    ghost var f := (i: nat) => FullRowAt(lines, kinds, i);
    rows := [];
    var currentPageTitle: Option<string> := None;
    var currentPageUrl: Option<string> := None;
    for i := 0 to |lines|
      invariant rows == Collect(f, i)
      invariant CurrentPage(kinds, i).Some? <==> currentPageTitle.Some?
      invariant CurrentPage(kinds, i).Some? ==> currentPageTitle == Some(CurrentPage(kinds, i).value.0)
      invariant currentPageUrl == if CurrentPage(kinds, i).Some? then Some(CurrentPage(kinds, i).value.1) else None
    {
      var line := lines[i];
      assert kinds[i] == ClassifyFull(line);
      CollectNext(f, i, FullRowAt(lines, kinds, i));
      var pageMatch := ParseLinkLine(line, PageHeading);
      if pageMatch.Some? {
        currentPageTitle := Some(pageMatch.value.title);
        currentPageUrl := Some(pageMatch.value.url);
        continue;
      }
      var headingMatch := SearchHeading(line);
      if headingMatch.None? {
        continue;
      }
      var level := headingMatch.value.0;
      var heading := headingMatch.value.1;
      var bodyLines := CollectBody(lines, i + 1);
      var contextPrefix :=
        if currentPageTitle.Some? && currentPageTitle.value != [] && level > 1 then heading + " (" + currentPageTitle.value + ")" else heading;
      rows := rows + [FullRow(contextPrefix, currentPageUrl, NormalizeWhitespace(Join(bodyLines, " ")))];
    }
  }

  /** The lines that make a row: heading lines that are not page headings. */
  predicate RowLine(line: string) {
    ParseLinkLine(line, PageHeading).None? && SearchHeading(line).Some?
  }

  /**
   * `parseLlmsFull` gives one row per heading line that is not a page heading,
   * in line order, and no other row: the `k`-th row comes from line `idx[k]`.
   */
  lemma FullRowsFromHeadingLines(lines: seq<string>) returns (idx: seq<nat>)
    ensures |idx| == |FullRowsOf(lines)|
    ensures forall k :: 0 <= k < |idx| ==>
      idx[k] < |lines| && RowLine(lines[idx[k]]) && FullRowAt(lines, FullKinds(lines), idx[k]) == Some(FullRowsOf(lines)[k])
    ensures forall k, l :: 0 <= k < l < |idx| ==> idx[k] < idx[l]
    ensures forall i :: 0 <= i < |lines| && RowLine(lines[i]) ==> i in idx
  {
    var kinds := FullKinds(lines);
    var f := (i: nat) => FullRowAt(lines, kinds, i);
    CollectAtPositions(f, |lines|);
    idx := Positions(f, |lines|);
    forall i | 0 <= i < |lines|
      ensures f(i).Some? <==> RowLine(lines[i])
    {
      assert kinds[i] == ClassifyFull(lines[i]);
    }
  }

  /**
   * What a row holds: the heading's text, suffixed ` (page title)` exactly
   * when its level is above 1 and a page heading precedes it; the URL of the
   * nearest page heading above; and a body of at most six non-blank lines that
   * runs no further than the next heading line.
   */
  lemma FullRowShape(lines: seq<string>, i: nat) returns (end: nat)
    requires i < |lines| && RowLine(lines[i])
    ensures var kinds := FullKinds(lines);
      var row := FullRowAt(lines, kinds, i).value;
      var heading := SearchHeading(lines[i]).value;
      var page := CurrentPage(kinds, i);
      && row.title == RowTitle(heading.1, heading.0, page)
      && (page.Some? ==> row.url == Some(page.value.1))
      && (page.None? ==> row.url.None?)
      && 1 <= heading.0 <= 6
    ensures i + 1 <= end <= |lines|
    ensures |NonBlank(lines[i + 1..end])| <= 6
    ensures FullRowAt(lines, FullKinds(lines), i).value.body == NormalizeWhitespace(Join(NonBlank(lines[i + 1..end]), " "))
    ensures forall k :: i + 1 <= k < end ==> HeadingLevel(lines[k]).None?
    ensures end < |lines| ==> HeadingLevel(lines[end]).Some? || |NonBlank(lines[i + 1..end])| == 6
  {
    var kinds := FullKinds(lines);
    assert kinds[i] == ClassifyFull(lines[i]);
    SearchHeadingIsHeading(lines[i]);
    end := BodyFromShape(lines, i + 1, []);
    assert [] + NonBlank(lines[i + 1..end]) == NonBlank(lines[i + 1..end]);
  }

  // ---------------------------------------------------------------------------
  // Hits
  // ---------------------------------------------------------------------------

  datatype Source = LlmsIndexSource | LlmsFullSource

  datatype Hit = Hit(title: string, url: Option<string>, snippet: string, source: Source, score: int)

  /** The order of the hits: score descending, then title. */
  function HitKey(h: Hit): RankKey {
    RankKey(h.score, [h.title])
  }

  function IndexRowScore(query: string, row: IndexEntry): int {
    FieldScore(query, row.title, 10) + FieldScore(query, row.url, 8) + FieldScore(query, row.description, 4)
  }

  /** The hit of a row of `llms.txt`, unless it scores nothing. */
  function IndexHit(query: string, row: IndexEntry): (r: Option<Hit>)
    ensures r.Some? <==> IndexRowScore(query, row) > 0
    ensures r.Some? ==> r.value.score == IndexRowScore(query, row) && r.value.source == LlmsIndexSource
    ensures r.Some? ==> r.value.title == row.title && r.value.url == Some(row.url)
  {
    var score := IndexRowScore(query, row);
    if score <= 0 then None
    else Some(Hit(row.title, Some(row.url), ExtractSnippet(row.description, query), LlmsIndexSource, score))
  }

  /** `row.url ?? ""`. */
  function UrlText(url: Option<string>): string {
    if url.Some? then url.value else ""
  }

  function FullRowScore(query: string, row: FullRow): int {
    FieldScore(query, row.title, 10) + FieldScore(query, UrlText(row.url), 8) + FieldScore(query, row.body, 3)
  }

  /** The hit of a row of `llms-full.txt`, unless it scores nothing. */
  function FullHit(query: string, row: FullRow): (r: Option<Hit>)
    ensures r.Some? <==> FullRowScore(query, row) > 0
    ensures r.Some? ==> r.value.score == FullRowScore(query, row) && r.value.source == LlmsFullSource
    ensures r.Some? ==> r.value.title == row.title && r.value.url == row.url
  {
    var score := FullRowScore(query, row);
    if score <= 0 then None
    else Some(Hit(row.title, row.url, ExtractSnippet(row.body, query), LlmsFullSource, score))
  }

  function IndexHitAt(query: string, rows: seq<IndexEntry>): nat -> Option<Hit> {
    (k: nat) => if k < |rows| then IndexHit(query, rows[k]) else None
  }

  function FullHitAt(query: string, rows: seq<FullRow>): nat -> Option<Hit> {
    (k: nat) => if k < |rows| then FullHit(query, rows[k]) else None
  }

  /** Position `k` of the row hits of `llms.txt` is the hit of row `k`. */
  lemma IndexHitAtIs(query: string, rows: seq<IndexEntry>, k: nat)
    requires k < |rows|
    ensures IndexHitAt(query, rows)(k) == IndexHit(query, rows[k])
  {
  }

  /** Position `k` of the row hits of `llms-full.txt` is the hit of row `k`. */
  lemma FullHitAtIs(query: string, rows: seq<FullRow>, k: nat)
    requires k < |rows|
    ensures FullHitAt(query, rows)(k) == FullHit(query, rows[k])
  {
  }

  /** Score one row of `llms.txt`. */
  method ScoreIndexRow(query: string, row: IndexEntry) returns (hit: Option<Hit>)
    ensures hit == IndexHit(query, row)
  {
    var title := ScoreField(query, row.title, 10);
    var url := ScoreField(query, row.url, 8);
    var description := ScoreField(query, row.description, 4);
    var score := title + url + description;
    if score <= 0 {
      return None;
    }
    hit := Some(Hit(row.title, Some(row.url), ExtractSnippet(row.description, query), LlmsIndexSource, score));
  }

  /** The scoring loop over the rows of `llms.txt`: one hit per row that scores. */
  method ScoreIndexRows(query: string, rows: seq<IndexEntry>) returns (hits: seq<Hit>)
    ensures hits == Collect(IndexHitAt(query, rows), |rows|)
  {
    hits := [];
    for k := 0 to |rows|
      invariant hits == Collect(IndexHitAt(query, rows), k)
    {
      var hit := ScoreIndexRow(query, rows[k]);
      IndexHitAtIs(query, rows, k);
      CollectNext(IndexHitAt(query, rows), k, hit);
      if hit.None? {
        continue;
      }
      hits := hits + [hit.value];
    }
  }

  /** Score one row of `llms-full.txt`. */
  method ScoreFullRow(query: string, row: FullRow) returns (hit: Option<Hit>)
    ensures hit == FullHit(query, row)
  {
    var title := ScoreField(query, row.title, 10);
    var url := ScoreField(query, UrlText(row.url), 8);
    var body := ScoreField(query, row.body, 3);
    var score := title + url + body;
    if score <= 0 {
      return None;
    }
    hit := Some(Hit(row.title, row.url, ExtractSnippet(row.body, query), LlmsFullSource, score));
  }

  /** The scoring loop over the rows of `llms-full.txt`: one hit per row that scores. */
  method ScoreFullRows(query: string, rows: seq<FullRow>) returns (hits: seq<Hit>)
    ensures hits == Collect(FullHitAt(query, rows), |rows|)
  {
    hits := [];
    for k := 0 to |rows|
      invariant hits == Collect(FullHitAt(query, rows), k)
    {
      var hit := ScoreFullRow(query, rows[k]);
      FullHitAtIs(query, rows, k);
      CollectNext(FullHitAt(query, rows), k, hit);
      if hit.None? {
        continue;
      }
      hits := hits + [hit.value];
    }
  }

  /** The hits a search ranks: the scoring rows of the chosen file, in file order. */
  function Candidates(query: string, source: Source, text: string): seq<Hit> {
    match source
    case LlmsIndexSource =>
      var rows := IndexEntries(text);
      Collect(IndexHitAt(query, rows), |rows|)
    case LlmsFullSource =>
      var rows := FullRowsOf(SplitLines(text));
      Collect(FullHitAt(query, rows), |rows|)
  }

  /** A hit of `llms.txt` is the hit of one of its rows, and scores. */
  lemma IndexHitScores(query: string, rows: seq<IndexEntry>, h: Hit)
    requires h in Collect(IndexHitAt(query, rows), |rows|)
    ensures h.score > 0 && h.source == LlmsIndexSource
    ensures exists row :: row in rows && IndexHit(query, row) == Some(h)
  {
    var i := CollectedValue(IndexHitAt(query, rows), |rows|, h);
    assert rows[i] in rows;
  }

  /** A row of `llms.txt` that scores gives a hit. */
  lemma IndexRowHit(query: string, rows: seq<IndexEntry>, i: nat)
    requires i < |rows| && IndexRowScore(query, rows[i]) > 0
    ensures IndexHit(query, rows[i]).value in Collect(IndexHitAt(query, rows), |rows|)
  {
    CollectsValue(IndexHitAt(query, rows), |rows|, i);
  }

  /** A hit of `llms-full.txt` is the hit of one of its rows, and scores. */
  lemma FullHitScores(query: string, rows: seq<FullRow>, h: Hit)
    requires h in Collect(FullHitAt(query, rows), |rows|)
    ensures h.score > 0 && h.source == LlmsFullSource
    ensures exists row :: row in rows && FullHit(query, row) == Some(h)
  {
    var i := CollectedValue(FullHitAt(query, rows), |rows|, h);
    assert rows[i] in rows;
  }

  /** A row of `llms-full.txt` that scores gives a hit. */
  lemma FullRowHit(query: string, rows: seq<FullRow>, i: nat)
    requires i < |rows| && FullRowScore(query, rows[i]) > 0
    ensures FullHit(query, rows[i]).value in Collect(FullHitAt(query, rows), |rows|)
  {
    CollectsValue(FullHitAt(query, rows), |rows|, i);
  }

  /** Every candidate scores and comes from the chosen file. */
  lemma CandidateScores(query: string, source: Source, text: string, h: Hit)
    requires h in Candidates(query, source, text)
    ensures h.score > 0 && h.source == source
  {
    match source
    case LlmsIndexSource => IndexHitScores(query, IndexEntries(text), h);
    case LlmsFullSource => FullHitScores(query, FullRowsOf(SplitLines(text)), h);
  }

  /**
   * The search over the text of the chosen file: parse, score, drop rows that
   * score nothing, sort and keep the first `limit`. The hits are the best
   * candidates in ranked order.
   */
  method Search(query: string, source: Source, text: string, limit: int) returns (hits: seq<Hit>)
    requires limit >= 1
    ensures Ranked(hits, HitKey)
    ensures |hits| == if |Candidates(query, source, text)| < limit then |Candidates(query, source, text)| else limit
    ensures multiset(hits) <= multiset(Candidates(query, source, text))
    ensures forall x, y :: x in hits && y in multiset(Candidates(query, source, text)) - multiset(hits) ==> RankLe(HitKey(x), HitKey(y))
  {
    var candidates: seq<Hit>;
    if source == LlmsIndexSource {
      var rows := ParseLlmsIndex(text);
      candidates := ScoreIndexRows(query, rows);
    } else {
      var rows := ParseLlmsFull(text);
      candidates := ScoreFullRows(query, rows);
    }
    hits := TopRanked(candidates, HitKey, limit);
  }

  // ---------------------------------------------------------------------------
  // main
  // ---------------------------------------------------------------------------

  /** The query: the arguments left once `--limit` and its value and the three switches are removed, joined and trimmed. */
  function QueryOf(args: seq<string>): string {
    Trim(Join(FilterOut(KeptArgs(args, ["--limit"], |args|), ["--full", "--index", "--json"]), " "))
  }

  /** None of the words the query is made of is one of the script's flags. */
  lemma QueryPartsAreNotFlags(args: seq<string>)
    ensures forall a :: a in FilterOut(KeptArgs(args, ["--limit"], |args|), ["--full", "--index", "--json"]) ==>
      a in args && a !in ["--limit", "--full", "--index", "--json"]
  {
    KeptArgsHaveNoFlags(args, ["--limit"], |args|);
  }

  /** The result limit: `--limit`, 10 by default, clamped to 1..50. */
  function LimitOf(args: seq<string>, parseNumber: string -> Option<int>): int {
    ClampLimit(ParseNumberFlag(args, "--limit", 10, parseNumber))
  }

  /** The cached file each source is read from. */
  function SourceId(source: Source): Cache.SourceId {
    match source
    case LlmsIndexSource => Cache.LlmsIndex
    case LlmsFullSource => Cache.LlmsFull
  }

  datatype SearchOutcome =
    | Usage
    | Conflict
    | ReadError(error: Cache.EnsureError)
    | Results(query: string, source: Source, hits: seq<Hit>)

  function ExitCode(o: SearchOutcome): int {
    if o.Results? then 0 else 1
  }

  /**
   * `main`: an empty argument list or query is a usage error and `--full`
   * with `--index` a conflict, both before any file is read; otherwise the
   * chosen file is read from the cache, preferring a stale copy to an error,
   * and searched.
   */
  method Run(args: seq<string>, store: Cache.CacheStore, now: int, fetch: Cache.Request -> Cache.FetchOutcome, parseNumber: string -> Option<int>)
    returns (r: SearchOutcome)
    modifies store
    ensures r == Usage <==> args == [] || QueryOf(args) == []
    ensures r == Conflict <==> args != [] && QueryOf(args) != [] && HasFlag(args, ["--full"]) && HasFlag(args, ["--index"])
    ensures r == Usage || r == Conflict ==> unchanged(store)
    ensures args != [] && QueryOf(args) != [] && !(HasFlag(args, ["--full"]) && HasFlag(args, ["--index"])) ==>
      var source := if HasFlag(args, ["--full"]) then LlmsFullSource else LlmsIndexSource;
      var before, read := old(store.Entries()), old(store.files);
      && store.LeftBy(SourceId(source), store.OutcomeFrom(SourceId(source), Cache.PreferStale, now, fetch, before, read), old(store.manifestFile), read)
      && match store.TextFrom(SourceId(source), Cache.PreferStale, now, fetch, before, read)
         case Failure(e) => r == ReadError(e)
         case Success(text) =>
           r.Results? && r.query == QueryOf(args) && r.source == source
           && TopOf(r.hits, Candidates(r.query, source, text), HitKey, LimitOf(args, parseNumber))
    ensures r.Results? ==>
      && r.query == QueryOf(args) && r.query != []
      && r.source == (if HasFlag(args, ["--full"]) then LlmsFullSource else LlmsIndexSource)
      && |r.hits| <= LimitOf(args, parseNumber) <= 50
      && Ranked(r.hits, HitKey)
      && forall h :: h in r.hits ==> h.score > 0 && h.source == r.source
    ensures r.Results? ==>
      && SourceId(r.source) in store.Entries() && store.Entries()[SourceId(r.source)].path in store.files
      && TopOf(r.hits, Candidates(r.query, r.source, store.decodeUtf8(store.files[store.Entries()[SourceId(r.source)].path])),
               HitKey, LimitOf(args, parseNumber))
    ensures ExitCode(r) == 0 <==> r.Results?
  {
    if args == [] {
      return Usage;
    }
    var useFull := HasFlag(args, ["--full"]);
    var useIndex := HasFlag(args, ["--index"]);
    var limit := LimitOf(args, parseNumber);
    var kept := TrimArgs(args, ["--limit"]);
    var query := Trim(Join(FilterOut(kept, ["--full", "--index", "--json"]), " "));
    if query == [] {
      return Usage;
    }
    if useFull && useIndex {
      return Conflict;
    }
    var source := if useFull then LlmsFullSource else LlmsIndexSource;
    var id := SourceId(source);
    var text := store.ReadSourceText(id, Cache.PreferStale, now, fetch);
    if text.Failure? {
      return ReadError(text.error);
    }
    var hits := Search(query, source, text.value, limit);
    forall h | h in hits
      ensures h.score > 0 && h.source == source
    {
      assert h in multiset(hits);
      CandidateScores(query, source, text.value, h);
    }
    r := Results(query, source, hits);
  }
}
