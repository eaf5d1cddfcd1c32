/**
 * The two documentation-link line shapes of the Effect `llms` files, as the
 * scripts recognise them with regular expressions:
 *
 *   a page heading  `# [Title](https://effect.website/docs/...)` followed by
 *                   nothing but whitespace, and
 *   an index row    `- [Title](https://effect.website/docs/...):  description`.
 *
 * The title group is lazy (`.+?`): it is the shortest run of characters
 * other than line terminators after which the rest of the line fits. The
 * link target is `[^)]+` up to the first closing parenthesis.
 */
module DocsLinks {
  import opened Wrappers
  import opened Strings
  import opened Scan

  /** Only links below this prefix are recognised. */
  const DocsPrefix: string := "https://effect.website/docs/"

  datatype LineForm = PageHeading | IndexRow

  function Opener(form: LineForm): string {
    match form
    case PageHeading => "# ["
    case IndexRow => "- ["
  }

  /** The characters `.` matches. */
  predicate IsTitleChar(c: char) { !IsLineTerminator(c) }

  predicate NotCloseParen(c: char) { c != ')' }

  /** A recognised line: the title, the link target, and (for an index row) the description. */
  datatype LinkLine = LinkLine(title: string, url: string, rest: string)

  /**
   * What may follow the link's closing parenthesis, and the text it leaves
   * for the third field: whitespace only on a page heading (`\s*$`); a colon,
   * optional whitespace and a description without line terminators on an
   * index row (`:\s*(.*)$`).
   */
  function Trailer(form: LineForm, tail: string): (r: Option<string>)
    ensures form == PageHeading ==> (r.Some? <==> NoneSatisfy(tail, NotSpace))
    ensures form == IndexRow && r.Some? ==> NoneSatisfy(r.value, IsLineTerminator) && |tail| >= 1 && tail[0] == ':'
  {
    match form
    case PageHeading => if NoneSatisfy(tail, NotSpace) then Some("") else None
    case IndexRow =>
      if |tail| >= 1 && tail[0] == ':' then
        var desc := DropWhile(tail[1..], IsSpace);
        if NoneSatisfy(desc, IsLineTerminator) then Some(desc) else None
      else None
  }

  /** The link target and the third field, read from the text after `](`. */
  function AfterTitle(form: LineForm, s: string): Option<(string, string)> {
    if DocsPrefix <= s then
      var after := s[|DocsPrefix|..];
      var n := SpanLength(after, NotCloseParen);
      if 1 <= n < |after| then
        match Trailer(form, after[n + 1..])
        case None => None
        case Some(t) => Some((DocsPrefix + after[..n], t))
      else None
    else None
  }

  /** The match in which the title is `line[3..e]`, if the rest of the line fits. */
  function MatchEndingAt(line: string, form: LineForm, e: nat): Option<LinkLine>
    requires 3 <= e <= |line|
  {
    if e + 2 <= |line| && line[e..e + 2] == "](" then
      match AfterTitle(form, line[e + 2..])
      case None => None
      case Some(p) => Some(LinkLine(line[3..e], p.0, p.1))
    else None
  }

  predicate TitleCharsUpTo(line: string, e: nat) {
    forall i :: 3 <= i < e && i < |line| ==> IsTitleChar(line[i])
  }

  /** The regular expression matches `line` with a title ending at `e`. */
  predicate MatchesWithTitleEnd(line: string, form: LineForm, e: nat) {
    && Opener(form) <= line
    && 4 <= e <= |line|
    && TitleCharsUpTo(line, e)
    && MatchEndingAt(line, form, e).Some?
  }

  /**
   * The lazy title `(.+?)`: the least title end at which the rest of the line
   * fits. Past a line terminator no title end fits, since `.` does not match it.
   */
  function SearchTitleEnd(line: string, form: LineForm): Option<nat> {
    FirstFrom(TitleEndFits(line, form), 4, |line|)
  }

  function TitleEndFits(line: string, form: LineForm): nat -> bool {
    (e: nat) => MatchesWithTitleEnd(line, form, e)
  }

  /** `re.exec(line)` for the line form: the match with the shortest title, if any. */
  function ParseLinkLine(line: string, form: LineForm): Option<LinkLine> {
    FirstFromIsLeast(TitleEndFits(line, form), 4, |line|);
    match SearchTitleEnd(line, form)
    case None => None
    case Some(e) => MatchEndingAt(line, form, e)
  }

  /** A line matches exactly when some title end lets it, and the match is the one with the shortest title. */
  lemma ParseLinkLineIsLeastMatch(line: string, form: LineForm)
    ensures ParseLinkLine(line, form).Some? <==> exists e :: MatchesWithTitleEnd(line, form, e)
    ensures ParseLinkLine(line, form).Some? ==> exists e ::
      && MatchesWithTitleEnd(line, form, e) && ParseLinkLine(line, form) == MatchEndingAt(line, form, e)
      && forall e' :: e' < e ==> !MatchesWithTitleEnd(line, form, e')
  {
    FirstFromIsLeast(TitleEndFits(line, form), 4, |line|);
    assert forall e: nat :: TitleEndFits(line, form)(e) == MatchesWithTitleEnd(line, form, e);
  }

  /** The line a match describes: opener, title, `](`, target, `)`, trailer. */
  function RenderLine(form: LineForm, title: string, url: string, tail: string): string {
    Opener(form) + title + "](" + url + ")" + tail
  }

  predicate IsCloseParen(c: char) { c == ')' }

  /** The fields of the match with the title ending at `e`. */
  lemma MatchFields(line: string, form: LineForm, e: nat)
    requires MatchesWithTitleEnd(line, form, e)
    ensures var m := MatchEndingAt(line, form, e).value;
      && m.title != [] && NoneSatisfy(m.title, IsLineTerminator)
      && DocsPrefix <= m.url && |m.url| > |DocsPrefix| && NoneSatisfy(m.url, IsCloseParen)
  {
    var m := MatchEndingAt(line, form, e).value;
    var after := line[e + 2..][|DocsPrefix|..];
    var n := SpanLength(after, NotCloseParen);
    assert m.url == DocsPrefix + after[..n];
    assert NoneSatisfy(m.url, IsCloseParen) by {
      SpanLengthIsMaximal(after, NotCloseParen);
      DocsPrefixHasNoParen();
      NoneSatisfyAppend(DocsPrefix, after[..n], IsCloseParen);
    }
  }

  /** The match with the title ending at `e` describes the whole line. */
  lemma MatchRenders(line: string, form: LineForm, e: nat) returns (tail: string)
    requires MatchesWithTitleEnd(line, form, e)
    ensures var m := MatchEndingAt(line, form, e).value;
      line == RenderLine(form, m.title, m.url, tail) && Trailer(form, tail) == Some(m.rest)
  {
    var m := MatchEndingAt(line, form, e).value;
    var s := line[e + 2..];
    var after := s[|DocsPrefix|..];
    var n := SpanLength(after, NotCloseParen);
    tail := after[n + 1..];
    var target := after[..n];
    assert m.url == DocsPrefix + target;
    assert s == DocsPrefix + (target + ")" + tail) by {
      SpanLengthIsMaximal(after, NotCloseParen);
      assert after == target + ")" + tail;
      assert s == s[..|DocsPrefix|] + after;
    }
    Reassemble(line, Opener(form), m.title, DocsPrefix, target, tail, e);
  }

  /** A line cut into opener, title, `](`, and the rest, put back together. */
  lemma Reassemble(line: string, opener: string, title: string, prefix: string, target: string, tail: string, e: nat)
    requires 3 <= e && e + 2 <= |line| && line[..3] == opener && line[3..e] == title && line[e..e + 2] == "]("
    requires line[e + 2..] == prefix + (target + ")" + tail)
    ensures line == opener + title + "](" + (prefix + target) + ")" + tail
  {
    assert line[..e] == line[..3] + line[3..e];
    assert line[..e + 2] == line[..e] + line[e..e + 2];
    assert line == line[..e + 2] + line[e + 2..];
    assert opener + title + "](" + (prefix + target) + ")" + tail
      == (opener + title + "](") + (prefix + (target + ")" + tail));
  }

  /**
   * A recognised line is exactly the opener, a title without line
   * terminators, `](`, a target below the docs prefix without `)`, `)`, and a
   * trailer of the required shape.
   */
  lemma ParsedLineShape(line: string, form: LineForm) returns (tail: string)
    requires ParseLinkLine(line, form).Some?
    ensures var m := ParseLinkLine(line, form).value;
      && m.title != [] && NoneSatisfy(m.title, IsLineTerminator)
      && DocsPrefix <= m.url && |m.url| > |DocsPrefix| && NoneSatisfy(m.url, IsCloseParen)
      && line == RenderLine(form, m.title, m.url, tail) && Trailer(form, tail) == Some(m.rest)
  {
    ParseLinkLineIsLeastMatch(line, form);
    var e: nat :| MatchesWithTitleEnd(line, form, e) && ParseLinkLine(line, form) == MatchEndingAt(line, form, e);
    MatchFields(line, form, e);
    tail := MatchRenders(line, form, e);
  }

  lemma DocsPrefixHasNoParen()
    ensures NoneSatisfy(DocsPrefix, IsCloseParen)
  {
  }

  lemma NoneSatisfyAppend(a: string, b: string, p: char -> bool)
    requires NoneSatisfy(a, p) && NoneSatisfy(b, p)
    ensures NoneSatisfy(a + b, p)
  {
    forall i | 0 <= i < |a + b|
      ensures !p((a + b)[i])
    {
      if i >= |a| {
        assert (a + b)[i] == b[i - |a|];
      }
    }
  }

  /** Inside a rendered line, no `](` starts within the title except at its end. */
  lemma NoBracketInTitle(line: string, title: string, e: nat)
    requires 3 + |title| < |line| && line[3..3 + |title|] == title && line[3 + |title|] == ']'
    requires !Contains(title, "](")
    requires 3 <= e < 3 + |title|
    ensures e + 2 > |line| || line[e..e + 2] != "]("
  {
    if e + 2 <= |line| {
      if e + 1 < 3 + |title| {
        assert line[e..e + 2] == title[e - 3..e - 1];
        assert !OccursAt(title, "](", e - 3);
      } else {
        assert line[e..e + 2][1] == ']';
      }
    }
  }

  /** The text after the title of a rendered line yields its target and trailer. */
  lemma AfterTitleOfRendered(form: LineForm, path: string, tail: string, third: string)
    requires path != [] && NoneSatisfy(path, IsCloseParen)
    requires Trailer(form, tail) == Some(third)
    ensures AfterTitle(form, DocsPrefix + path + ")" + tail) == Some((DocsPrefix + path, third))
  {
    var s := DocsPrefix + path + ")" + tail;
    var after := path + ")" + tail;
    assert s == DocsPrefix + after;
    assert s[|DocsPrefix|..] == after;
    SpanLengthExactly(after, NotCloseParen, |path|);
    assert after[..|path|] == path;
    assert after[|path| + 1..] == tail;
  }

  /** The pieces of `opener + title + "](" + rest`, read back by position. */
  lemma RenderedSlices(line: string, opener: string, title: string, rest: string)
    requires |opener| == 3 && line == opener + title + "](" + rest
    ensures var e := 3 + |title|;
      && line[..3] == opener && line[3..e] == title && line[e..e + 2] == "](" && line[e + 2..] == rest
  {
    var e := 3 + |title|;
    assert line == opener + title + ("](" + rest);
    assert line[e..] == "](" + rest;
  }

  /** In a rendered line the match with the title ending after `title` succeeds with the rendered parts. */
  lemma RenderedMatch(form: LineForm, title: string, path: string, tail: string, third: string)
    requires title != [] && NoneSatisfy(title, IsLineTerminator)
    requires path != [] && NoneSatisfy(path, IsCloseParen)
    requires Trailer(form, tail) == Some(third)
    ensures var line := RenderLine(form, title, DocsPrefix + path, tail);
      && MatchesWithTitleEnd(line, form, 3 + |title|)
      && MatchEndingAt(line, form, 3 + |title|) == Some(LinkLine(title, DocsPrefix + path, third))
  {
    var rest := DocsPrefix + path + ")" + tail;
    var line := RenderLine(form, title, DocsPrefix + path, tail);
    assert line == Opener(form) + title + "](" + rest;
    RenderedSlices(line, Opener(form), title, rest);
    AfterTitleOfRendered(form, path, tail, third);
  }

  /**
   * Rendering then recognising gives back the parts: a title without line
   * terminators and without `](` inside it, and a target without `)`, are
   * read back exactly.
   */
  lemma RenderedLineParses(form: LineForm, title: string, path: string, tail: string, third: string)
    requires title != [] && NoneSatisfy(title, IsLineTerminator) && !Contains(title, "](")
    requires path != [] && NoneSatisfy(path, IsCloseParen)
    requires Trailer(form, tail) == Some(third)
    ensures ParseLinkLine(RenderLine(form, title, DocsPrefix + path, tail), form)
      == Some(LinkLine(title, DocsPrefix + path, third))
  {
    var line := RenderLine(form, title, DocsPrefix + path, tail);
    RenderedMatch(form, title, path, tail, third);
    NoEarlierMatch(form, title, DocsPrefix + path, tail);
    LeastMatchParses(line, form, 3 + |title|);
  }

  /** A title end at which the line matches, with none before it, is the one the parse uses. */
  lemma LeastMatchParses(line: string, form: LineForm, e: nat)
    requires MatchesWithTitleEnd(line, form, e)
    requires forall e': nat :: e' < e ==> !MatchesWithTitleEnd(line, form, e')
    ensures ParseLinkLine(line, form) == MatchEndingAt(line, form, e)
  {
    ParseLinkLineIsLeastMatch(line, form);
    var e2 :| MatchesWithTitleEnd(line, form, e2) && ParseLinkLine(line, form) == MatchEndingAt(line, form, e2)
      && forall e' :: e' < e2 ==> !MatchesWithTitleEnd(line, form, e');
    assert e2 == e;
  }

  /** A title without `](` inside it cannot end early. */
  lemma NoEarlierMatch(form: LineForm, title: string, url: string, tail: string)
    requires !Contains(title, "](")
    ensures forall e: nat :: e < 3 + |title| ==> !MatchesWithTitleEnd(RenderLine(form, title, url, tail), form, e)
  {
    var line := RenderLine(form, title, url, tail);
    var eStar := 3 + |title|;
    assert line == Opener(form) + title + ("](" + (url + ")" + tail));
    assert line[3..eStar] == title;
    assert line[eStar] == ']';
    forall e: nat | e < eStar
      ensures !MatchesWithTitleEnd(line, form, e)
    {
      if 4 <= e {
        NoBracketInTitle(line, title, e);
      }
    }
  }
}
