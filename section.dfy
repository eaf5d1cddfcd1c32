/**
 * `effect-docs-section.ts`: the heading index of `llms-full.txt`, the choice
 * of a target heading (by a user pattern or by a docs link), the end of its
 * section, and the slice of lines printed for it.
 *
 * The user's regular expression is `compile`, which gives the test of the
 * compiled pattern or `None` where `new RegExp` throws; WHATWG URL parsing is
 * `parseUrl` and `normalizeDocsUrl` is `normalizeUrl`.
 */
module DocsSection {
  import opened Wrappers
  import opened Strings
  import opened Common
  import opened Args
  import opened DocsLinks
  import Cache

  /** A heading record. `pageTitle` and `pageUrl` are those of the page the heading is on. */
  datatype Heading = Heading(
    index: nat,
    level: nat,
    text: string,
    pageTitle: Option<string>,
    pageUrl: Option<string>,
    isPageHeading: bool,
    slug: string)

  datatype Page = Page(title: string, url: string)

  /** How `parseHeadings` reads one line. */
  datatype LineKind = PageLine(page: Page, slug: string) | HeadingLine(level: nat, text: string, slug: string) | OtherLine

  /** A page heading first; otherwise a `#` heading with its marker stripped and the text trimmed. */
  function Classify(line: string): LineKind {
    match ParseLinkLine(line, PageHeading)
    case Some(m) => PageLine(Page(m.title, m.url), HeadingTextToSlug(m.title))
    case None =>
      match HeadingLevel(line)
      case None => OtherLine
      case Some(level) => HeadingLine(level, HeadingText(line), HeadingTextToSlug(HeadingText(line)))
  }

  /** Page headings name a non-empty title and a page below the docs prefix; other headings have a level from 1 to 6. */
  predicate WellFormedKind(k: LineKind) {
    match k
    case PageLine(p, slug) => p.title != [] && DocsPrefix <= p.url && slug == HeadingTextToSlug(p.title)
    case HeadingLine(level, text, slug) => 1 <= level <= 6 && slug == HeadingTextToSlug(text)
    case OtherLine => true
  }

  lemma ClassifyFacts(line: string)
    ensures WellFormedKind(Classify(line))
    ensures Classify(line).PageLine? <==> ParseLinkLine(line, PageHeading).Some?
    ensures Classify(line).HeadingLine? ==> HeadingLevel(line) == Some(Classify(line).level) && Classify(line).text == HeadingText(line)
    ensures Classify(line).OtherLine? <==> ParseLinkLine(line, PageHeading).None? && HeadingLevel(line).None?
  {
    if ParseLinkLine(line, PageHeading).Some? {
      var _ := ParsedLineShape(line, PageHeading);
    }
  }

  function Kinds(lines: seq<string>): (r: seq<LineKind>)
    ensures |r| == |lines|
    ensures forall i :: 0 <= i < |lines| ==> r[i] == Classify(lines[i])
  {
    seq(|lines|, i requires 0 <= i < |lines| => Classify(lines[i]))
  }

  function TitleOf(p: Option<Page>): Option<string> {
    if p.Some? then Some(p.value.title) else None
  }

  function UrlOf(p: Option<Page>): Option<string> {
    if p.Some? then Some(p.value.url) else None
  }

  /** The page context after the first `i` lines: the last page heading among them. */
  function PageContext(kinds: seq<LineKind>, i: nat): Option<Page>
    requires i <= |kinds|
  {
    if i == 0 then None
    else if kinds[i - 1].PageLine? then Some(kinds[i - 1].page)
    else PageContext(kinds, i - 1)
  }

  /** The record line `i` produces, if it is a heading. */
  function HeadingAt(kinds: seq<LineKind>, i: nat): Option<Heading>
    requires i < |kinds|
  {
    match kinds[i]
    case PageLine(p, slug) => Some(Heading(i, 1, p.title, Some(p.title), Some(p.url), true, slug))
    case HeadingLine(level, text, slug) =>
      var context := PageContext(kinds, i);
      Some(Heading(i, level, text, TitleOf(context), UrlOf(context), false, slug))
    case OtherLine => None
  }

  /** The records of the first `n` lines, in order. */
  function HeadingsUpTo(kinds: seq<LineKind>, n: nat): seq<Heading>
    requires n <= |kinds|
  {
    if n == 0 then []
    else HeadingsUpTo(kinds, n - 1) + (if HeadingAt(kinds, n - 1).Some? then [HeadingAt(kinds, n - 1).value] else [])
  }

  function Headings(lines: seq<string>): seq<Heading> {
    HeadingsUpTo(Kinds(lines), |lines|)
  }

  /** The tests the heading index applies to one line: the page-heading pattern first, then `headingLevel`. */
  method ClassifyLine(line: string) returns (kind: LineKind)
    ensures kind == Classify(line)
  {
    var pageMatch := ParseLinkLine(line, PageHeading);
    if pageMatch.Some? {
      return PageLine(Page(pageMatch.value.title, pageMatch.value.url), HeadingTextToSlug(pageMatch.value.title));
    }
    var level := HeadingLevel(line);
    if level.None? {
      return OtherLine;
    }
    var text := HeadingText(line);
    return HeadingLine(level.value, text, HeadingTextToSlug(text));
  }

  /** How one more line extends the records and the page context. */
  lemma HeadingsNext(kinds: seq<LineKind>, i: nat)
    requires i < |kinds|
    ensures kinds[i].PageLine? ==>
      && PageContext(kinds, i + 1) == Some(kinds[i].page)
      && HeadingsUpTo(kinds, i + 1) == HeadingsUpTo(kinds, i)
           + [Heading(i, 1, kinds[i].page.title, Some(kinds[i].page.title), Some(kinds[i].page.url), true, kinds[i].slug)]
    ensures kinds[i].HeadingLine? ==>
      && PageContext(kinds, i + 1) == PageContext(kinds, i)
      && HeadingsUpTo(kinds, i + 1) == HeadingsUpTo(kinds, i)
           + [Heading(i, kinds[i].level, kinds[i].text, TitleOf(PageContext(kinds, i)), UrlOf(PageContext(kinds, i)), false, kinds[i].slug)]
    ensures kinds[i].OtherLine? ==>
      PageContext(kinds, i + 1) == PageContext(kinds, i) && HeadingsUpTo(kinds, i + 1) == HeadingsUpTo(kinds, i)
  {
  }

  /**
   * The rest of the loop body of `parseHeadings`: a page heading sets the
   * current page and is recorded; a `#` heading is recorded under the current
   * page; any other line is skipped.
   */
  method RecordLine(ghost kinds: seq<LineKind>, i: nat, kind: LineKind, headings: seq<Heading>,
                    pageTitle: Option<string>, pageUrl: Option<string>)
    returns (headings': seq<Heading>, pageTitle': Option<string>, pageUrl': Option<string>)
    requires i < |kinds| && kinds[i] == kind
    requires headings == HeadingsUpTo(kinds, i)
    requires pageTitle == TitleOf(PageContext(kinds, i)) && pageUrl == UrlOf(PageContext(kinds, i))
    ensures headings' == HeadingsUpTo(kinds, i + 1)
    ensures pageTitle' == TitleOf(PageContext(kinds, i + 1)) && pageUrl' == UrlOf(PageContext(kinds, i + 1))
  {
    HeadingsNext(kinds, i);
    match kind
    case PageLine(page, slug) =>
      pageTitle', pageUrl' := Some(page.title), Some(page.url);
      headings' := headings + [Heading(i, 1, page.title, pageTitle', pageUrl', true, slug)];
    case HeadingLine(level, text, slug) =>
      pageTitle', pageUrl' := pageTitle, pageUrl;
      headings' := headings + [Heading(i, level, text, pageTitle, pageUrl, false, slug)];
    case OtherLine =>
      headings', pageTitle', pageUrl' := headings, pageTitle, pageUrl;
  }

  /** `parseHeadings(lines)`: one forward pass that carries the current page. */
  method ParseHeadings(lines: seq<string>) returns (headings: seq<Heading>)
    ensures headings == Headings(lines)
  {
    ghost var kinds := Kinds(lines);
    headings := [];
    var pageTitle: Option<string> := None;
    var pageUrl: Option<string> := None;
    for i := 0 to |lines|
      invariant headings == HeadingsUpTo(kinds, i)
      invariant pageTitle == TitleOf(PageContext(kinds, i)) && pageUrl == UrlOf(PageContext(kinds, i))
    {
      var kind := ClassifyLine(lines[i]);
      headings, pageTitle, pageUrl := RecordLine(kinds, i, kind, headings, pageTitle, pageUrl);
    }
  }

  /** Record indices lie below `n` and strictly increase. */
  predicate IndexOrdered(hs: seq<Heading>, n: int) {
    && (forall k :: 0 <= k < |hs| ==> hs[k].index < n)
    && (forall k, l :: 0 <= k < l < |hs| ==> hs[k].index < hs[l].index)
  }

  /** The records come out in line order, below `n`. */
  lemma {:induction false} HeadingsUpToOrdered(kinds: seq<LineKind>, n: nat)
    requires n <= |kinds|
    ensures IndexOrdered(HeadingsUpTo(kinds, n), n)
  {
    if n > 0 {
      HeadingsUpToOrdered(kinds, n - 1);
      var prev := HeadingsUpTo(kinds, n - 1);
      var hs := HeadingsUpTo(kinds, n);
      assert hs == prev + (if HeadingAt(kinds, n - 1).Some? then [HeadingAt(kinds, n - 1).value] else []);
      forall k | 0 <= k < |hs|
        ensures hs[k].index < n
      {
        if k < |prev| {
          assert hs[k] == prev[k];
        } else {
          assert hs[k] == HeadingAt(kinds, n - 1).value;
        }
      }
      forall k, l | 0 <= k < l < |hs|
        ensures hs[k].index < hs[l].index
      {
        if l < |prev| {
          assert hs[k] == prev[k] && hs[l] == prev[l];
        } else {
          assert hs[k] == prev[k] && hs[l] == HeadingAt(kinds, n - 1).value;
        }
      }
    }
  }

  /** Each record is the one its line produces. */
  lemma {:induction false} HeadingsUpToOrigin(kinds: seq<LineKind>, n: nat)
    requires n <= |kinds|
    ensures forall h :: h in HeadingsUpTo(kinds, n) ==> h.index < n && HeadingAt(kinds, h.index) == Some(h)
  {
    if n > 0 {
      HeadingsUpToOrigin(kinds, n - 1);
    }
  }

  /** Every heading line among the first `n` has its record. */
  lemma {:induction false} HeadingsUpToComplete(kinds: seq<LineKind>, n: nat, i: nat)
    requires i < n <= |kinds| && HeadingAt(kinds, i).Some?
    ensures HeadingAt(kinds, i).value in HeadingsUpTo(kinds, n)
  {
    if i < n - 1 {
      HeadingsUpToComplete(kinds, n - 1, i);
    }
  }

  /** What a record says about its line. */
  lemma HeadingAtFacts(kinds: seq<LineKind>, i: nat)
    requires i < |kinds| && HeadingAt(kinds, i).Some? && WellFormedKind(kinds[i])
    ensures var h := HeadingAt(kinds, i).value;
      && h.index == i
      && 1 <= h.level <= 6
      && h.slug == HeadingTextToSlug(h.text)
      && (h.isPageHeading <==> kinds[i].PageLine?)
      && (h.isPageHeading ==> h.level == 1 && h.pageTitle == Some(h.text) && h.pageUrl == Some(kinds[i].page.url))
      && (h.isPageHeading ==> DocsPrefix <= h.pageUrl.value)
      && (!h.isPageHeading ==> kinds[i] == HeadingLine(h.level, h.text, h.slug))
      && (!h.isPageHeading ==> h.pageTitle == TitleOf(PageContext(kinds, i)) && h.pageUrl == UrlOf(PageContext(kinds, i)))
  {
  }

  /** `parseHeadings` emits its records in line order. */
  lemma HeadingsInLineOrder(lines: seq<string>)
    ensures IndexOrdered(Headings(lines), |lines|)
  {
    HeadingsUpToOrdered(Kinds(lines), |lines|);
  }

  /**
   * What `parseHeadings` records for a line: a page heading gives a level-1
   * record of its title with itself as page context; a `#` heading gives a
   * record of its level (1 to 6) and stripped text, with the context of the
   * page headings above it; every slug is that of the record's text.
   */
  lemma HeadingRecordOfLine(lines: seq<string>, h: Heading)
    requires h in Headings(lines)
    ensures h.index < |lines|
    ensures 1 <= h.level <= 6 && h.slug == HeadingTextToSlug(h.text)
    ensures h.isPageHeading <==> ParseLinkLine(lines[h.index], PageHeading).Some?
    ensures h.isPageHeading ==> h.level == 1 && h.pageTitle == Some(h.text) && h.pageUrl.Some? && DocsPrefix <= h.pageUrl.value
    ensures !h.isPageHeading ==> HeadingLevel(lines[h.index]) == Some(h.level) && h.text == HeadingText(lines[h.index])
    ensures !h.isPageHeading ==> h.pageTitle == TitleOf(PageContext(Kinds(lines), h.index)) && h.pageUrl == UrlOf(PageContext(Kinds(lines), h.index))
  {
    var kinds := Kinds(lines);
    HeadingsUpToOrigin(kinds, |lines|);
    ClassifyFacts(lines[h.index]);
    HeadingAtFacts(kinds, h.index);
  }

  /** Every page heading and every `#` heading of the text has its record. */
  lemma HeadingLineIsIndexed(lines: seq<string>, i: nat)
    requires i < |lines| && Classify(lines[i]) != OtherLine
    ensures exists h :: h in Headings(lines) && h.index == i
  {
    var kinds := Kinds(lines);
    HeadingsUpToComplete(kinds, |lines|, i);
    assert HeadingAt(kinds, i).value.index == i;
  }

  /** The page context is the nearest page heading above: none lies between it and line `i`. */
  lemma {:induction false} PageContextIsNearest(kinds: seq<LineKind>, i: nat)
    requires i <= |kinds|
    ensures PageContext(kinds, i).None? <==> forall j :: 0 <= j < i ==> !kinds[j].PageLine?
    ensures PageContext(kinds, i).Some? ==> exists j ::
      && 0 <= j < i && kinds[j].PageLine? && kinds[j].page == PageContext(kinds, i).value
      && forall k :: j < k < i ==> !kinds[k].PageLine?
  {
    if i > 0 {
      PageContextIsNearest(kinds, i - 1);
      if !kinds[i - 1].PageLine? && PageContext(kinds, i).Some? {
        var j :| 0 <= j < i - 1 && kinds[j].PageLine? && kinds[j].page == PageContext(kinds, i - 1).value
          && forall k :: j < k < i - 1 ==> !kinds[k].PageLine?;
        assert forall k :: j < k < i ==> !kinds[k].PageLine?;
      }
    }
  }

  // ---------------------------------------------------------------------------
  // findSectionEnd
  // ---------------------------------------------------------------------------

  /** `findIndex` by line index, level and text. */
  predicate SameHeading(h: Heading, target: Heading) {
    h.index == target.index && h.level == target.level && h.text == target.text
  }

  /** The first position from `from` on holding the target, or -1. */
  function FindPosition(headings: seq<Heading>, target: Heading, from: nat): (r: int)
    decreases |headings| - from
    ensures r == -1 || from <= r < |headings|
    ensures r != -1 ==> SameHeading(headings[r], target) && forall j :: from <= j < r ==> !SameHeading(headings[j], target)
    ensures r == -1 ==> forall j :: from <= j < |headings| ==> !SameHeading(headings[j], target)
  {
    if from >= |headings| then -1
    else if SameHeading(headings[from], target) then from
    else FindPosition(headings, target, from + 1)
  }

  /** The first position from `from` on holding a heading of level at most `level`. */
  function NextPeer(headings: seq<Heading>, level: nat, from: nat): (r: Option<nat>)
    decreases |headings| - from
    ensures r.Some? ==> from <= r.value < |headings| && headings[r.value].level <= level
    ensures r.Some? ==> forall j :: from <= j < r.value ==> headings[j].level > level
    ensures r.None? ==> forall j :: from <= j < |headings| ==> headings[j].level > level
  {
    if from >= |headings| then None
    else if headings[from].level <= level then Some(from)
    else NextPeer(headings, level, from + 1)
  }

  /** The line at which the target's section ends. */
  function SectionEnd(headings: seq<Heading>, target: Heading, totalLines: int): int {
    var pos := FindPosition(headings, target, 0);
    match NextPeer(headings, target.level, pos + 1)
    case Some(k) => headings[k].index
    case None => totalLines
  }

  /** `findSectionEnd(headings, target, totalLines)`. */
  method FindSectionEnd(headings: seq<Heading>, target: Heading, totalLines: int) returns (end: int)
    ensures end == SectionEnd(headings, target, totalLines)
  {
    var targetPos := FindPosition(headings, target, 0);
    var i := targetPos + 1;
    while i < |headings|
      invariant targetPos + 1 <= i <= |headings| || (|headings| <= targetPos + 1 && i == targetPos + 1)
      invariant forall j :: targetPos + 1 <= j < i ==> headings[j].level > target.level
      decreases |headings| - i
    {
      var next := headings[i];
      if next.level <= target.level {
        return next.index;
      }
      i := i + 1;
    }
    return totalLines;
  }

  /**
   * For a record of the index, the section runs from its line up to (not
   * including) the next record of the same or a higher rank, or to the end of
   * the text: the end lies after the heading, no record in between has a
   * level at most the target's, and a record of such a level sits at the end
   * unless the end is the last line.
   */
  lemma SectionEndIsNextPeer(hs: seq<Heading>, target: Heading, totalLines: int)
    requires IndexOrdered(hs, totalLines) && target in hs
    ensures var end := SectionEnd(hs, target, totalLines);
      && target.index < end <= totalLines
      && (forall h :: h in hs && target.index < h.index < end ==> h.level > target.level)
      && (end < totalLines ==> exists h :: h in hs && h.index == end && h.level <= target.level)
  {
    var p :| 0 <= p < |hs| && hs[p] == target;
    TargetPosition(hs, target, totalLines, p);
    var end := SectionEnd(hs, target, totalLines);
    forall h | h in hs && target.index < h.index < end
      ensures h.level > target.level
    {
      var j :| 0 <= j < |hs| && hs[j] == h;
      PeerBetween(hs, target, totalLines, p, j);
    }
  }

  /** In an index-ordered list, the target is found at its own position. */
  lemma TargetPosition(hs: seq<Heading>, target: Heading, totalLines: int, p: nat)
    requires IndexOrdered(hs, totalLines) && p < |hs| && hs[p] == target
    ensures FindPosition(hs, target, 0) == p
  {
  }

  /** A record whose line lies strictly inside the target's section is deeper than the target. */
  lemma PeerBetween(hs: seq<Heading>, target: Heading, totalLines: int, p: nat, j: nat)
    requires IndexOrdered(hs, totalLines) && p < |hs| && hs[p] == target && FindPosition(hs, target, 0) == p
    requires j < |hs| && target.index < hs[j].index < SectionEnd(hs, target, totalLines)
    ensures hs[j].level > target.level
  {
    match NextPeer(hs, target.level, p + 1)
    case Some(k) =>
      assert k < j ==> hs[k].index < hs[j].index;
    case None =>
  }

  // ---------------------------------------------------------------------------
  // Target selection
  // ---------------------------------------------------------------------------

  /** The `find` predicates of the script. */
  datatype Selector =
    | Pattern(test: string -> bool)
    | PageLink(baseUrl: string)
    | SlugAnchor(baseUrl: string, anchor: string)
    | TextAnchor(baseUrl: string, anchor: string)

  predicate Selects(h: Heading, sel: Selector, normalizeUrl: string -> string) {
    match sel
    case Pattern(test) => test(h.text)
    case PageLink(baseUrl) =>
      h.isPageHeading && h.pageUrl.Some? && h.pageUrl.value != "" && normalizeUrl(h.pageUrl.value) == baseUrl
    case SlugAnchor(baseUrl, anchor) =>
      h.pageUrl.Some? && normalizeUrl(h.pageUrl.value) == baseUrl && h.slug == anchor
    case TextAnchor(baseUrl, anchor) =>
      h.pageUrl.Some? && normalizeUrl(h.pageUrl.value) == baseUrl && HeadingTextToSlug(h.text) == anchor
  }

  /** `headings.find(...)`: the first selected record from `from` on. */
  function FindFirst(headings: seq<Heading>, sel: Selector, normalizeUrl: string -> string, from: nat): (r: Option<nat>)
    decreases |headings| - from
    ensures r.Some? ==> from <= r.value < |headings| && Selects(headings[r.value], sel, normalizeUrl)
    ensures r.Some? ==> forall j :: from <= j < r.value ==> !Selects(headings[j], sel, normalizeUrl)
    ensures r.None? ==> forall j :: from <= j < |headings| ==> !Selects(headings[j], sel, normalizeUrl)
  {
    if from >= |headings| then None
    else if Selects(headings[from], sel, normalizeUrl) then Some(from)
    else FindFirst(headings, sel, normalizeUrl, from + 1)
  }

  function Find(headings: seq<Heading>, sel: Selector, normalizeUrl: string -> string): (r: Option<Heading>)
    ensures r.Some? ==> r.value in headings && Selects(r.value, sel, normalizeUrl)
    ensures r.None? ==> forall h :: h in headings ==> !Selects(h, sel, normalizeUrl)
  {
    match FindFirst(headings, sel, normalizeUrl, 0)
    case None => None
    case Some(k) => Some(headings[k])
  }

  /** A query after its pattern is compiled or its link parsed. */
  datatype Target =
    | MatchHeading(test: string -> bool)
    | MatchLink(baseUrl: string, anchor: Option<string>)

  /** The target record: a pattern picks the first match; a link without anchor the page; with one the anchored heading, by slug then by text. */
  function SelectTarget(headings: seq<Heading>, target: Target, normalizeUrl: string -> string): (r: Option<Heading>)
    ensures r.Some? ==> r.value in headings
  {
    match target
    case MatchHeading(test) => Find(headings, Pattern(test), normalizeUrl)
    case MatchLink(baseUrl, anchor) =>
      if anchor.None? || anchor.value == "" then Find(headings, PageLink(baseUrl), normalizeUrl)
      else
        var exact := Find(headings, SlugAnchor(baseUrl, anchor.value), normalizeUrl);
        if exact.Some? then exact else Find(headings, TextAnchor(baseUrl, anchor.value), normalizeUrl)
  }

  /** When every record's slug is that of its text, the two anchor passes select the same record. */
  lemma {:induction false} AnchorPassesAgree(headings: seq<Heading>, baseUrl: string, anchor: string, normalizeUrl: string -> string, from: nat)
    requires forall h :: h in headings ==> h.slug == HeadingTextToSlug(h.text)
    ensures FindFirst(headings, TextAnchor(baseUrl, anchor), normalizeUrl, from) == FindFirst(headings, SlugAnchor(baseUrl, anchor), normalizeUrl, from)
    decreases |headings| - from
  {
    if from < |headings| {
      assert headings[from] in headings;
      AnchorPassesAgree(headings, baseUrl, anchor, normalizeUrl, from + 1);
    }
  }

  /**
   * On the records of a text, the fallback anchor pass never finds a record
   * the exact-slug pass missed: an anchored link selects the first record of
   * the linked page whose slug is the anchor.
   */
  lemma AnchorLinkSelectsBySlug(kinds: seq<LineKind>, baseUrl: string, anchor: string, normalizeUrl: string -> string)
    requires anchor != ""
    requires forall i :: 0 <= i < |kinds| ==> WellFormedKind(kinds[i])
    ensures SelectTarget(HeadingsUpTo(kinds, |kinds|), MatchLink(baseUrl, Some(anchor)), normalizeUrl)
      == Find(HeadingsUpTo(kinds, |kinds|), SlugAnchor(baseUrl, anchor), normalizeUrl)
  {
    var hs := HeadingsUpTo(kinds, |kinds|);
    HeadingsUpToOrigin(kinds, |kinds|);
    forall h | h in hs
      ensures h.slug == HeadingTextToSlug(h.text)
    {
      HeadingAtFacts(kinds, h.index);
    }
    AnchorPassesAgree(hs, baseUrl, anchor, normalizeUrl, 0);
  }

  /** Every line of a document classifies well, so the two anchor passes agree on any document. */
  lemma AnchorLinkOfDocument(lines: seq<string>, baseUrl: string, anchor: string, normalizeUrl: string -> string)
    requires anchor != ""
    ensures SelectTarget(Headings(lines), MatchLink(baseUrl, Some(anchor)), normalizeUrl)
      == Find(Headings(lines), SlugAnchor(baseUrl, anchor), normalizeUrl)
  {
    var kinds := Kinds(lines);
    forall i | 0 <= i < |kinds|
      ensures WellFormedKind(kinds[i])
    {
      ClassifyFacts(lines[i]);
    }
    AnchorLinkSelectsBySlug(kinds, baseUrl, anchor, normalizeUrl);
  }

  /** A selected record is in the index, satisfies the query, and no earlier record does. */
  lemma SelectedIsFirst(headings: seq<Heading>, sel: Selector, normalizeUrl: string -> string)
    requires Find(headings, sel, normalizeUrl).Some?
    ensures var h := Find(headings, sel, normalizeUrl).value;
      && h in headings && Selects(h, sel, normalizeUrl)
      && exists k :: 0 <= k < |headings| && headings[k] == h && forall j :: 0 <= j < k ==> !Selects(headings[j], sel, normalizeUrl)
  {
    var k := FindFirst(headings, sel, normalizeUrl, 0).value;
    assert headings[k] == Find(headings, sel, normalizeUrl).value;
  }

  // ---------------------------------------------------------------------------
  // The printed slice
  // ---------------------------------------------------------------------------

  /** `Array.prototype.slice(from, to)`: negative bounds count from the end, and bounds are clamped. */
  function JsSlice<T>(s: seq<T>, from: int, to: int): (r: seq<T>)
    ensures 0 <= from <= to <= |s| ==> r == s[from..to]
  {
    var a := if from < 0 then Max(0, |s| + from) else Min(from, |s|);
    var b := if to < 0 then Max(0, |s| + to) else Min(to, |s|);
    if a < b then s[a..b] else []
  }

  datatype Section = Section(target: Heading, startLine: int, endLineExclusive: int, truncated: bool, content: seq<string>)

  /** The cut: context before the heading, the section, at most `maxLines` lines. */
  function SliceSection(lines: seq<string>, target: Heading, end: int, contextLines: int, maxLines: int): Section {
    var start := Max(0, target.index - contextLines);
    var sliced := JsSlice(lines, start, end);
    var limited := JsSlice(sliced, 0, maxLines);
    Section(target, start + 1, Min(end, start + maxLines), |sliced| > |limited|, limited)
  }

  /**
   * The printed lines are `lines[start .. min(end, start + maxLines))` with
   * `start = max(0, index - contextLines)`; the output is truncated exactly
   * when the section with its context is longer than `maxLines`; and the
   * heading line itself is printed whenever the context leaves room for it.
   */
  lemma SliceSectionShape(lines: seq<string>, target: Heading, end: int, contextLines: int, maxLines: int)
    requires target.index < end <= |lines| && contextLines >= 0 && maxLines >= 1
    ensures var s := SliceSection(lines, target, end, contextLines, maxLines);
      var start := Max(0, target.index - contextLines);
      && start <= target.index
      && s.startLine == start + 1
      && s.content == lines[start..Min(end, start + maxLines)]
      && |s.content| <= maxLines
      && s.endLineExclusive == start + |s.content|
      && (s.truncated <==> end - start > maxLines)
      && (target.index - start < maxLines ==> s.content[target.index - start] == lines[target.index])
  {
    var start := Max(0, target.index - contextLines);
    var sliced := JsSlice(lines, start, end);
    assert sliced == lines[start..end];
    if maxLines <= |sliced| {
      assert JsSlice(sliced, 0, maxLines) == sliced[..maxLines];
    } else {
      assert JsSlice(sliced, 0, maxLines) == sliced;
    }
  }

  // ---------------------------------------------------------------------------
  // The script
  // ---------------------------------------------------------------------------

  datatype Query = HeadingQuery(pattern: string) | LinkQuery(link: string)

  datatype SectionArgs = SectionArgs(query: Query, contextLines: int, maxLines: int, json: bool)

  /** A flag value JavaScript treats as true: present and non-empty. */
  predicate Truthy(v: Option<string>) {
    v.Some? && v.value != ""
  }

  /**
   * The command line of the section script: exactly one of `--heading` and
   * `--link` with a non-empty value, the two counts and `--json`; `None` is
   * the usage error.
   */
  function ParseSectionArgs(args: seq<string>, parseNumber: string -> Option<int>): (r: Option<SectionArgs>)
    ensures r.Some? <==> args != [] && Truthy(StringFlag(args, "--heading")) != Truthy(StringFlag(args, "--link"))
    ensures r.Some? && Truthy(StringFlag(args, "--heading")) ==> r.value.query == HeadingQuery(StringFlag(args, "--heading").value)
    ensures r.Some? && Truthy(StringFlag(args, "--link")) ==> r.value.query == LinkQuery(StringFlag(args, "--link").value)
    ensures r.Some? ==> r.value.contextLines == Max(0, ParseNumberFlag(args, "--context-lines", 0, parseNumber))
    ensures r.Some? ==> r.value.maxLines == Max(1, ParseNumberFlag(args, "--max-lines", 200, parseNumber))
    ensures r.Some? ==> r.value.json == ("--json" in args)
    ensures r.Some? ==> r.value.contextLines >= 0 && r.value.maxLines >= 1
  {
    if args == [] then None
    else
      var headingPattern := StringFlag(args, "--heading");
      var linkArg := StringFlag(args, "--link");
      var count := (if Truthy(headingPattern) then 1 else 0) + (if Truthy(linkArg) then 1 else 0);
      if count != 1 then None
      else
        var query := if Truthy(headingPattern) then HeadingQuery(headingPattern.value) else LinkQuery(linkArg.value);
        Some(SectionArgs(
          query,
          Max(0, ParseNumberFlag(args, "--context-lines", 0, parseNumber)),
          Max(1, ParseNumberFlag(args, "--max-lines", 200, parseNumber)),
          "--json" in args))
  }

  /** A parsed URL: its serialisation and its fragment (`""` when there is none). */
  datatype Url = Url(href: string, hash: string)

  /** The foreign pieces the script relies on. */
  datatype Env = Env(
    parseNumber: string -> Option<int>,
    compile: string -> Option<string -> bool>,
    parseUrl: string -> Option<Url>,
    normalizeUrl: string -> string)

  /** `parseLinkArg`: the normalised page URL and the normalised anchor, if the fragment is non-empty. */
  function ParseLinkArg(link: string, env: Env): Option<Target> {
    match env.parseUrl(link)
    case None => None
    case Some(url) =>
      Some(MatchLink(env.normalizeUrl(url.href), if url.hash != "" then Some(NormalizeAnchor(url.hash)) else None))
  }

  /** What the script ends with; the exit status is `ExitCode`. */
  datatype Outcome = Usage | Failed(message: string) | ReadError(error: Cache.EnsureError) | NoMatch | Found(section: Section)

  function ExitCode(o: Outcome): int {
    match o
    case Usage => 1
    case Failed(_) => 1
    case ReadError(_) => 1
    case NoMatch => 2
    case Found(_) => 0
  }

  /** The target a query resolves to, or the message of the error thrown while resolving it. */
  function ResolveQuery(query: Query, env: Env): Result<Target, string> {
    match query
    case HeadingQuery(pattern) =>
      (match env.compile(pattern)
       case None => Failure("Invalid heading regex")
       case Some(test) => Success(MatchHeading(test)))
    case LinkQuery(link) =>
      (match ParseLinkArg(link, env)
       case None => Failure("Invalid URL")
       case Some(t) => Success(t))
  }

  /**
   * What the lookup on the text of `llms-full.txt` ends with: the error of a
   * query that does not resolve, no match, or the section of the selected
   * target.
   */
  function SectionOutcome(text: string, options: SectionArgs, env: Env): Outcome {
    match ResolveQuery(options.query, env)
    case Failure(message) => Failed(message)
    case Success(query) =>
      var lines := SplitLines(text);
      match SelectTarget(Headings(lines), query, env.normalizeUrl)
      case None => NoMatch
      case Some(target) =>
        Found(SliceSection(lines, target, SectionEnd(Headings(lines), target, |lines|), options.contextLines, options.maxLines))
  }

  /**
   * The lookup on the text of `llms-full.txt`: index the headings, resolve
   * the query, select the target and cut out its section.
   */
  method Locate(text: string, options: SectionArgs, env: Env) returns (r: Outcome)
    requires options.contextLines >= 0 && options.maxLines >= 1
    ensures r == SectionOutcome(text, options, env)
    ensures ResolveQuery(options.query, env).Failure? <==> r.Failed?
    ensures r.Found? ==>
      var lines := SplitLines(text);
      && r.section.target in Headings(lines)
      && r.section.startLine - 1 <= r.section.target.index
      && r.section.endLineExclusive <= |lines|
      && |r.section.content| <= options.maxLines
  {
    var lines := SplitLines(text);
    var headings := ParseHeadings(lines);
    var resolved := ResolveQuery(options.query, env);
    if resolved.Failure? {
      return Failed(resolved.error);
    }
    var target := SelectTarget(headings, resolved.value, env.normalizeUrl);
    if target.None? {
      return NoMatch;
    }
    var end := FindSectionEnd(headings, target.value, |lines|);
    var section := SliceSection(lines, target.value, end, options.contextLines, options.maxLines);
    HeadingsInLineOrder(lines);
    SectionEndIsNextPeer(headings, target.value, |lines|);
    SliceSectionShape(lines, target.value, end, options.contextLines, options.maxLines);
    r := Found(section);
  }

  /**
   * `main`: the usage checks, then the text of `llms-full.txt` from the cache
   * (preferring a stale copy to an error), then `Locate`. A usage error
   * leaves the cache untouched.
   */
  method Run(args: seq<string>, store: Cache.CacheStore, now: int, fetch: Cache.Request -> Cache.FetchOutcome, env: Env)
    returns (r: Outcome)
    modifies store
    ensures r == Usage <==> ParseSectionArgs(args, env.parseNumber).None?
    ensures ParseSectionArgs(args, env.parseNumber).None? ==> unchanged(store)
    ensures ParseSectionArgs(args, env.parseNumber).Some? ==>
      var before, read := old(store.Entries()), old(store.files);
      && store.LeftBy(Cache.LlmsFull, store.OutcomeFrom(Cache.LlmsFull, Cache.PreferStale, now, fetch, before, read), old(store.manifestFile), read)
      && match store.TextFrom(Cache.LlmsFull, Cache.PreferStale, now, fetch, before, read)
         case Failure(e) => r == ReadError(e)
         case Success(text) => r == SectionOutcome(text, ParseSectionArgs(args, env.parseNumber).value, env)
    ensures r.Found? || r == NoMatch ==>
      && ParseSectionArgs(args, env.parseNumber).Some?
      && Cache.LlmsFull in store.Entries() && store.Entries()[Cache.LlmsFull].path in store.files
      && var options := ParseSectionArgs(args, env.parseNumber).value;
         var lines := SplitLines(store.decodeUtf8(store.files[store.Entries()[Cache.LlmsFull].path]));
         && ResolveQuery(options.query, env).Success?
         && match SelectTarget(Headings(lines), ResolveQuery(options.query, env).value, env.normalizeUrl)
            case None => r == NoMatch
            case Some(target) =>
              r == Found(SliceSection(lines, target, SectionEnd(Headings(lines), target, |lines|), options.contextLines, options.maxLines))
    ensures ExitCode(r) == 2 <==> r == NoMatch
  {
    var options := ParseSectionArgs(args, env.parseNumber);
    if options.None? {
      return Usage;
    }
    var text := store.ReadSourceText(Cache.LlmsFull, Cache.PreferStale, now, fetch);
    if text.Failure? {
      return ReadError(text.error);
    }
    r := Locate(text.value, options.value, env);
  }
}
