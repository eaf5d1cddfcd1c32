# Effect documentation tools, modelled in Dafny

The repository ships a skill for coding agents working with Effect (the
TypeScript library). Its core is four command-line scripts over a local cache
of Effect's published documentation:

- `_effect_common.ts`: the cache and the text helpers. The cache is a
  manifest of four sources (`llms.txt`, `llms-full.txt`, `llms-small.txt` and
  the API search index). Each has a one-day lifetime and is revalidated with
  conditional GET (`If-None-Match` / `If-Modified-Since`, answered by `304 Not
  Modified`, sections 3.2, 3.3 and 4.1 of RFC 7232). When a fetch fails, a
  stale copy is served if one exists. The text helpers include heading slugs,
  heading levels, anchors, whitespace normalisation, snippets, argument flags
  and ages.
- `effect-docs-section.ts`: indexes the headings of `llms-full.txt`, selects
  one by a heading pattern or by a documentation link with an optional
  anchor, and prints its section (up to the next heading of equal or lesser
  depth), widened by context lines and cut at a maximum.
- `effect-docs-search.ts`: scores the rows of `llms.txt` (one per linked
  page) or of `llms-full.txt` (one per heading, with up to six body lines)
  field by field against the query, drops rows that score nothing, ranks by
  score and title, and prints the first `--limit`.
- `effect-api-search.ts`: scores the records of the API search index against
  the query, optionally restricted to one module (`--doc`), ranks by score,
  module and title, and prints the first `--limit`.

The model has one Dafny module per concern:

- `Wrappers` (`Option`, `Result`).
- `Strings`: the JavaScript string operations the scripts use, with their
  JavaScript meaning. This covers `trim` and `\s` over the ECMAScript white
  space and line terminators, ASCII `toLowerCase`, `includes`, `startsWith`,
  `indexOf`, `split(/\s+/).filter(Boolean)`, `split(/\r?\n/)` and `join`.
- `Common` (the text helpers), `Args` (flag parsing), `Cache` (the manifest
  and a `CacheStore` class whose methods update the manifest and the cached
  files in place).
- `DocsLinks`: the two Markdown link-line recognisers shared by the section
  and search scripts, with the lazy `.+?` title and its backtracking.
- `Scan`: the "visit rows in order, push what qualifies" loop shape.
- `Ranking`: the comparators, the sort and the cut at `limit`.
- `DocsSection`, `DocsSearch` and `ApiSearch`: one per script.

The loops of the scripts are methods proved against specification functions.
The properties the scripts rely on are lemmas about those functions.

## Model

| member | source | states |
|---|---|---|
| Strings.ToLowerHasNoUpper | skills/effect-ts/scripts/_effect_common.ts:316 | a lower-cased string has no upper-case letter |
| Strings.ToLowerFixed | skills/effect-ts/scripts/_effect_common.ts:316 | lower-casing a string without upper-case letters changes nothing |
| Strings.SpanLengthIsMaximal | skills/effect-ts/scripts/_effect_common.ts:315 | the leading run `trim` removes is all white space and ends at a non-space or at the end |
| Strings.BackSpanLengthIsMaximal | skills/effect-ts/scripts/_effect_common.ts:315 | the trailing run `trim` removes is all white space and starts after a non-space or at the start |
| Strings.TrimShape | skills/effect-ts/scripts/_effect_common.ts:233 | a trimmed string neither starts nor ends with white space and occurs in the original right after the leading white space |
| Strings.ReplaceRunsCollapses | skills/effect-ts/scripts/_effect_common.ts:233 | `replace(/\s+/g, " ")` leaves no two adjacent white-space characters, is empty only for empty input, and starts with white space exactly when the input does |
| Strings.ReplaceRunsFixed | skills/effect-ts/scripts/_effect_common.ts:233 | collapsing runs of a string with no runs left changes nothing |
| Strings.ReplaceRunsKeepsOthers | skills/effect-ts/scripts/_effect_common.ts:233 | collapsing runs keeps every non-space character, in order |
| Strings.IndexFrom | skills/effect-ts/scripts/_effect_common.ts:332 | `indexOf` gives the first occurrence at or after the start, and none means there is no occurrence there |
| Strings.IndexOfCharFound | skills/effect-ts/scripts/_effect_common.ts:311-313 | the first occurrence of a single character lies inside the string, holds that character, and nothing before it does (the scan `[^\]]+\]` and `[^>]+>` make) |
| Strings.IndexOfCharAt | skills/effect-ts/scripts/_effect_common.ts:311-313 | a position holding the character with no earlier occurrence is the one `indexOf` finds |
| Strings.IndexOfIffContains | skills/effect-ts/scripts/_effect_common.ts:332-333 | `indexOf` finds the query exactly when `includes` holds |
| Strings.StartsWithContains | skills/effect-ts/scripts/effect-docs-search.ts:43 | a string that starts with the query contains it |
| Strings.ContainsTransitive | skills/effect-ts/scripts/effect-docs-search.ts:43-48 | a substring of a substring is a substring |
| Strings.TermsAreWords | skills/effect-ts/scripts/effect-docs-search.ts:44 | every term of `split(/\s+/).filter(Boolean)` is non-empty and holds no white space |
| Strings.TermsOccur | skills/effect-ts/scripts/effect-docs-search.ts:44 | every term of a query occurs in the query |
| Strings.TermsOfTrimmed | skills/effect-ts/scripts/effect-docs-search.ts:44 | a string that does not start with white space has a first term, and starts with it |
| Strings.SplitLinesShape | skills/effect-ts/scripts/effect-docs-section.ts:95 | `split(/\r?\n/)` gives one line more than there are newlines, and no line holds a newline |
| Strings.NatToStringRoundTrip | skills/effect-ts/scripts/_effect_common.ts:249-257 | the decimal digits of a count read back as that count |
| Common.NormalizeWhitespaceWellSpaced | skills/effect-ts/scripts/_effect_common.ts:232-234 | normalised text has no leading, trailing or doubled white space, and its only white space is single spaces |
| Common.NormalizeWhitespaceIdempotent | skills/effect-ts/scripts/_effect_common.ts:232-234 | normalising well-spaced text changes nothing, so normalising twice is normalising once |
| Common.NormalizeWhitespaceKeepsText | skills/effect-ts/scripts/_effect_common.ts:232-234 | normalising keeps every non-space character, in order |
| Common.LinkAt | skills/effect-ts/scripts/_effect_common.ts:311 | a Markdown link `[text](target)` recognised at the start of a string spans at least six characters of it |
| Common.LinkAtSound | skills/effect-ts/scripts/_effect_common.ts:311 | a recognised link is a prefix `[text](target)` with a non-empty text free of `]` and a non-empty target free of `)`; the captured text is that text and the length is that prefix's |
| Common.LinkAtComplete | skills/effect-ts/scripts/_effect_common.ts:311 | every such prefix is recognised, with its text and its length |
| Common.LinkAtIff | skills/effect-ts/scripts/_effect_common.ts:311 | a link is recognised exactly when the string starts with such a prefix, and then with that prefix's text and length |
| Common.TagAt | skills/effect-ts/scripts/_effect_common.ts:313 | an HTML tag `<...>` recognised at the start of a string spans at least three characters of it |
| Common.TagAtIff | skills/effect-ts/scripts/_effect_common.ts:313 | a tag is recognised exactly when the string starts with `<`, a non-empty body free of `>`, and `>`, and its length is then that prefix's |
| Common.StripLinksUnchanged | skills/effect-ts/scripts/_effect_common.ts:311 | text without `[` has no link to replace |
| Common.StripTagsUnchanged | skills/effect-ts/scripts/_effect_common.ts:313 | text without `<` has no tag to remove |
| Common.RemoveCharUnchanged | skills/effect-ts/scripts/_effect_common.ts:312 | text without a backquote has none to remove |
| Common.SlugIsSlug | skills/effect-ts/scripts/_effect_common.ts:309-321 | a slug holds only `a-z`, `0-9` and `-`, neither starts nor ends with `-`, and never holds `--` |
| Common.SlugOfSlug | skills/effect-ts/scripts/_effect_common.ts:309-321 | slugging a slug gives it back |
| Common.SlugIdempotent | skills/effect-ts/scripts/_effect_common.ts:309-321 | slugging twice is slugging once |
| Common.HeadingLevelIff | skills/effect-ts/scripts/_effect_common.ts:323-326 | the level of a line is `k` exactly when it starts with `k` (1 to 6) `#` characters followed by white space |
| Common.NormalizeAnchorOfSlug | skills/effect-ts/scripts/_effect_common.ts:305-307 | the anchor `#slug` normalises to the slug |
| Common.NormalizeAnchorShape | skills/effect-ts/scripts/_effect_common.ts:305-307 | a normalised anchor has no upper-case letter and no leading or trailing white space |
| Common.ExtractSnippetLength | skills/effect-ts/scripts/_effect_common.ts:328-339 | a snippet is at most 180 characters plus two ellipses, and short content is returned normalised and whole |
| Common.WindowShowsMatch | skills/effect-ts/scripts/_effect_common.ts:334-338 | a window around a match, with a prefix and suffix added, still contains the query |
| Common.SnippetIsWindow | skills/effect-ts/scripts/_effect_common.ts:334-338 | long content with a match is cut to the window starting a third of the width before the match, with an ellipsis on each side that was cut |
| Common.ExtractSnippetShowsQuery | skills/effect-ts/scripts/_effect_common.ts:328-339 | when the normalised content contains the query (of at most 120 characters), so does the snippet |
| Common.FormatAgeMsUnits | skills/effect-ts/scripts/_effect_common.ts:248-258 | an age of a second or more prints as whole seconds, minutes, hours or days, chosen by the thresholds 60 s, 60 min and 48 h, with the count rounded down |
| Args.FirstIndex | skills/effect-ts/scripts/_effect_common.ts:278-279 | `indexOf` gives the first position holding the value, or none when no position does |
| Args.HasFlag | skills/effect-ts/scripts/_effect_common.ts:273-275 | true exactly when one of the flags is an argument |
| Args.StringFlag | skills/effect-ts/scripts/_effect_common.ts:277-281 | the value is the argument right after the first occurrence of the flag; there is one exactly when that occurrence is not the last argument; an absent flag gives none |
| Args.ParseNumberFlag | skills/effect-ts/scripts/_effect_common.ts:260-271 | an absent flag or an empty value gives the default; a non-empty value gives the number it parses to, or the default when it does not parse |
| Args.TrimArgs | skills/effect-ts/scripts/_effect_common.ts:283-293 | the loop keeps exactly the arguments that are not a consumed flag nor a value that follows one and does not start with `--` |
| Args.KeptArgsHaveNoFlags | skills/effect-ts/scripts/_effect_common.ts:283-293 | the kept arguments are arguments, none of them a consumed flag, and no more than there were |
| Args.FilterOut | skills/effect-ts/scripts/effect-docs-search.ts:111-113 | an argument survives the filter exactly when it is none of the listed flags |
| Args.ClampLimit | skills/effect-ts/scripts/effect-docs-search.ts:110 | the limit lies in 1..50 and a limit already there is kept |
| Cache.SpecOf | skills/effect-ts/scripts/_effect_common.ts:33-62 | every source lives one day, and only the API search index is JSON |
| Cache.SourceTableWellFormed | skills/effect-ts/scripts/_effect_common.ts:33-69 | the source order lists the four sources once each, and different sources have different file names |
| Cache.LoadManifest | skills/effect-ts/scripts/_effect_common.ts:91-102 | a document with version 1 and an entries object loads as is; anything else (unreadable, unparsable, another version, missing or null entries) loads as the empty manifest |
| Cache.LoadSerialize | skills/effect-ts/scripts/_effect_common.ts:91-107 | a saved manifest loads back unchanged |
| Cache.FreshForExactlyTtl | skills/effect-ts/scripts/_effect_common.ts:118-123 | an entry fetched at `t` is fresh exactly while `now - t <= ttl`: an age equal to the lifetime is fresh, one millisecond more is stale |
| Cache.UntimedIsStale | skills/effect-ts/scripts/_effect_common.ts:118-121 | a missing entry, or one whose `fetchedAt` does not parse, is stale whatever the time |
| Cache.StaleStaysStale | skills/effect-ts/scripts/_effect_common.ts:118-123 | once stale, an entry stays stale as time passes |
| Cache.Validator | skills/effect-ts/scripts/_effect_common.ts:157-158 | a validator is sent exactly when the stored one is present and non-empty, and then unchanged |
| Cache.ConditionalRequest | skills/effect-ts/scripts/_effect_common.ts:156-158 | `If-None-Match` is sent only with a stored etag and `If-Modified-Since` only with a stored last-modified, each carrying the stored value |
| Cache.ServeCachedOnlyWithUsableCopy | skills/effect-ts/scripts/_effect_common.ts:160-187 | a failed fetch serves the cached entry exactly when stale copies are allowed and an entry and its file exist; otherwise it fails; a revalidation needs both |
| Cache.NotModifiedWithoutCopyFails | skills/effect-ts/scripts/_effect_common.ts:168-187 | a 304 with no entry or no file is treated as a failed fetch |
| Cache.Revalidated | skills/effect-ts/scripts/_effect_common.ts:168-175 | a revalidated entry keeps id, url, digest and validators and takes the new time, the file's size and the path |
| Cache.Downloaded | skills/effect-ts/scripts/_effect_common.ts:189-201 | a downloaded entry has the body's length and digest and only the response's validators |
| Cache.RefreshedIsFresh | skills/effect-ts/scripts/_effect_common.ts:118-123 | an entry just fetched or revalidated needs no fetch for one day and needs one after |
| Cache.CacheStore.SourcePathsDistinct | skills/effect-ts/scripts/_effect_common.ts:83-85 | different sources are cached in different files |
| Cache.CacheStore.SaveManifest | skills/effect-ts/scripts/_effect_common.ts:104-107 | saving replaces the manifest file by the manifest and leaves the cached files alone |
| Cache.CacheStore.EnsureSource | skills/effect-ts/scripts/_effect_common.ts:140-208 | what each branch returns and changes: a fresh entry with its file is returned with nothing fetched or written; otherwise the conditional request is sent and the outcome serves the cache, fails, revalidates or downloads; only the entry and file of this source change |
| Cache.CacheStore.RecordRevalidation | skills/effect-ts/scripts/_effect_common.ts:168-181 | the manifest gets the revalidated entry for this source only and the files are untouched |
| Cache.CacheStore.RecordDownload | skills/effect-ts/scripts/_effect_common.ts:189-207 | the body is written to the source's file and the manifest gets the new entry for this source only |
| Cache.EnsureFailureOnlyWithoutUsableCopy | skills/effect-ts/scripts/_effect_common.ts:150-187 | `ensureSource` (as `EnsureOutcome` gives its outcome) fails only when a fetch was needed and the cached copy may not stand in, and only with a fetch error or an HTTP error |
| Cache.EnsuredIsCachedOrRefreshed | skills/effect-ts/scripts/_effect_common.ts:150-207 | a successful `ensureSource` yields either the cached entry over the cached file, or an entry stamped now, at the source's path, whose size is the content's, and whose digest is the content's when the content is new |
| Cache.CacheStore.EnsureEntry | skills/effect-ts/scripts/_effect_common.ts:140-208 | `ensureSource` as `EnsureOutcome` gives it for the cache on entry: a failure returns its error (a fetch or HTTP error) and changes nothing; a success returns the outcome's entry, which the manifest then holds for the source, over the outcome's content, which its file then holds; other sources' entries and all other files are unchanged |
| Cache.CacheStore.EnsureAt | skills/effect-ts/scripts/_effect_common.ts:212-213 | one turn of the loop, whose outcome is fixed beforehand from the cache as it was on entry to the loop: a failure is that outcome's error; a success leaves this source's entry and file as the outcome says, keeps the earlier sources' outcomes in place and leaves the later sources untouched |
| Cache.CacheStore.EnsureAllSources | skills/effect-ts/scripts/_effect_common.ts:210-216 | with the clock read afresh for each source and `Outcomes` the outcome of `ensureSource` for each source on the cache as it was on entry: on success, the returned entries are, in source order, the outcomes' entries, and the manifest and the sources' files hold those entries and contents; on failure, some source's outcome is the error, every source before it holds its outcome, and it and the later sources are untouched; files outside the sources' paths never change |
| Cache.CacheStore.ReadSourceText | skills/effect-ts/scripts/_effect_common.ts:218-224 | the result is `TextFrom` of the cache on entry: the `ensureSource` error, a read error when the ensured entry names a missing file, or that file's decoded content; the cache is left as `ensureSource` leaves it (`LeftBy`); in a consistent cache the file is the source's own and no read error occurs |
| Cache.CacheStore.ReadSourceJson | skills/effect-ts/scripts/_effect_common.ts:226-230 | the result is `JsonFrom` of the cache on entry: the `ensureSource` error, a read error for a missing file, an invalid-JSON error exactly when parsing fails, or the parsed value; the cache is left as `ensureSource` leaves it |
| Cache.CacheStore.ReadsOwnFile | skills/effect-ts/scripts/_effect_common.ts:218-230 | in a consistent cache the ensured entry names the source's own file, so reading fails exactly when `ensureSource` fails, and otherwise gives the ensured content decoded (and parsed, an invalid-JSON error naming the source's path when parsing fails) |
| DocsLinks.Trailer | skills/effect-ts/scripts/effect-docs-search.ts:55 | a page heading must end in white space only; an index row continues with `:` and a description that has no line terminator |
| Scan.FirstFromIsLeast | skills/effect-ts/scripts/effect-docs-section.ts:35 | the search for the lazy title `(.+?)` finds the least title end that lets the rest of the line match, and finds none only when no title end does |
| DocsLinks.ParseLinkLineIsLeastMatch | skills/effect-ts/scripts/effect-docs-section.ts:35 | a line matches exactly when some title end lets it, and the match is the one with the shortest title |
| DocsLinks.LeastMatchParses | skills/effect-ts/scripts/effect-docs-section.ts:35 | a title end that fits, with none shorter fitting, gives the match `exec` returns |
| DocsLinks.ParsedLineShape | skills/effect-ts/scripts/effect-docs-search.ts:55 | a match has a non-empty one-line title and a `https://effect.website/docs/` url with a non-empty rest and no `)`, and the line is the match rendered back |
| DocsLinks.RenderedLineParses | skills/effect-ts/scripts/effect-docs-section.ts:35 | rendering a title, docs url and trailer as a link line and recognising it gives them back |
| DocsSection.ClassifyFacts | skills/effect-ts/scripts/effect-docs-section.ts:34-52 | a line is a page heading exactly when it matches the page pattern, is a heading with the level and text `headingLevel` and the marker strip give, or is neither |
| DocsSection.Kinds | skills/effect-ts/scripts/effect-docs-section.ts:33-34 | one classification per line, in line order |
| DocsSection.ClassifyLine | skills/effect-ts/scripts/effect-docs-section.ts:35-52 | the line is a page heading when the page pattern matches, otherwise a heading when `headingLevel` gives a level (with the stripped, trimmed text and its slug), otherwise neither |
| DocsSection.RecordLine | skills/effect-ts/scripts/effect-docs-section.ts:36-61 | a page heading sets the current page and is recorded, a `#` heading is recorded under the current page, and the records and page context move one line on |
| DocsSection.ParseHeadings | skills/effect-ts/scripts/effect-docs-section.ts:29-64 | the loop that threads the page context builds exactly the heading index |
| DocsSection.HeadingsUpToOrdered | skills/effect-ts/scripts/effect-docs-section.ts:29-64 | record line numbers strictly increase and stay below the number of lines read |
| DocsSection.HeadingsUpToOrigin | skills/effect-ts/scripts/effect-docs-section.ts:29-64 | every record is the record of its own line |
| DocsSection.HeadingsUpToComplete | skills/effect-ts/scripts/effect-docs-section.ts:29-64 | every heading line read has its record |
| DocsSection.HeadingAtFacts | skills/effect-ts/scripts/effect-docs-section.ts:35-61 | a record carries its line number, a level in 1..6 and the slug of its text; a page heading has level 1, its title as text and page, and a docs url; any other record carries the current page |
| DocsSection.HeadingsInLineOrder | skills/effect-ts/scripts/effect-docs-section.ts:29-64 | the records of a document are in strictly increasing line order, all within the document |
| DocsSection.HeadingRecordOfLine | skills/effect-ts/scripts/effect-docs-section.ts:35-61 | each record of a document is a page heading exactly when its line matches the page pattern, and otherwise has its line's level and trimmed text and the nearest page's title and url |
| DocsSection.HeadingLineIsIndexed | skills/effect-ts/scripts/effect-docs-section.ts:29-64 | every page or heading line of a document has a record |
| DocsSection.PageContextIsNearest | skills/effect-ts/scripts/effect-docs-section.ts:31-32 | the current page is the nearest page heading above, or none before the first |
| DocsSection.FindPosition | skills/effect-ts/scripts/effect-docs-section.ts:67 | `findIndex` gives the first record with the target's line, level and text, or -1 |
| DocsSection.NextPeer | skills/effect-ts/scripts/effect-docs-section.ts:68-71 | the scan stops at the first later record of equal or lesser depth, every record before it is deeper, and none means all are |
| DocsSection.FindSectionEnd | skills/effect-ts/scripts/effect-docs-section.ts:66-73 | the loop computes the section end |
| DocsSection.SectionEndIsNextPeer | skills/effect-ts/scripts/effect-docs-section.ts:66-73 | the end lies after the target and within the document, every record strictly between is deeper, and an end inside the document is the line of a record of equal or lesser depth |
| DocsSection.FindFirst | skills/effect-ts/scripts/effect-docs-section.ts:106-124 | `find` gives the first position whose record the predicate selects, or none when none does |
| DocsSection.Find | skills/effect-ts/scripts/effect-docs-section.ts:106-124 | a found record is one of the records and is selected; none found means none is selected |
| DocsSection.SelectTarget | skills/effect-ts/scripts/effect-docs-section.ts:98-127 | the target is one of the records |
| DocsSection.AnchorPassesAgree | skills/effect-ts/scripts/effect-docs-section.ts:112-125 | when every record's slug is the slug of its text, the fallback pass finds what the exact-slug pass finds |
| DocsSection.AnchorLinkSelectsBySlug | skills/effect-ts/scripts/effect-docs-section.ts:108-126 | with an anchor, the target is the first record of the linked page whose slug is the anchor: the fallback pass never adds a match |
| DocsSection.AnchorLinkOfDocument | skills/effect-ts/scripts/effect-docs-section.ts:108-126 | the same for the heading index of any document |
| DocsSection.SelectedIsFirst | skills/effect-ts/scripts/effect-docs-section.ts:106-124 | the target is the first record in document order that the predicate selects |
| DocsSection.JsSlice | skills/effect-ts/scripts/effect-docs-section.ts:136-137 | `slice` with bounds in range is the subsequence between them |
| DocsSection.SliceSectionShape | skills/effect-ts/scripts/effect-docs-section.ts:134-147 | the section starts `contextLines` above the target (not before line 0), holds the lines up to the end capped at `maxLines`, is truncated exactly when the end lies more than `maxLines` past the start, and shows the target's line when it fits |
| DocsSection.ParseSectionArgs | skills/effect-ts/scripts/effect-docs-section.ts:84-92 | the arguments are accepted exactly when there are some and exactly one of `--heading` and `--link` has a non-empty value; the query is a heading or link query carrying that value; context lines are `max(0, --context-lines)` (default 0), the line cap `max(1, --max-lines)` (default 200), and JSON output is on exactly when `--json` is given |
| DocsSection.Locate | skills/effect-ts/scripts/effect-docs-section.ts:95-147 | the outcome is `SectionOutcome` of the text: a bad query fails; otherwise no target means exit 2, and a target gives its section, which starts no later than the target and ends within the document |
| DocsSection.Run | skills/effect-ts/scripts/effect-docs-section.ts:83-164 | a usage error exactly when the arguments do not parse, and then nothing is read; otherwise the cache is left as ensuring `llms-full.txt` leaves it, a read error is exactly `TextFrom`'s error, and a read text gives `SectionOutcome` of it: the section of the selected target, no match (exit 2) or the query error |
| DocsSearch.FieldScore | skills/effect-ts/scripts/effect-docs-search.ts:37-41 | an empty field scores 0 |
| DocsSearch.ScoreField | skills/effect-ts/scripts/effect-docs-search.ts:37-51 | the loop over the terms computes the field score |
| DocsSearch.TermsPointsLinear | skills/effect-ts/scripts/effect-docs-search.ts:45-49 | the points of the terms are the weight times their unit points, which are not negative |
| DocsSearch.FieldScoreLinear | skills/effect-ts/scripts/effect-docs-search.ts:42-49 | every increment is the weight times a constant, so a field scores its weight times its unit score, and never less than 0 for a weight of 0 or more |
| DocsSearch.TermPointsPositive | skills/effect-ts/scripts/effect-docs-search.ts:46-48 | a term earns points exactly when it occurs in the field |
| DocsSearch.TermsPointsPositive | skills/effect-ts/scripts/effect-docs-search.ts:45-49 | the terms earn points exactly when one of them occurs in the field |
| DocsSearch.FieldScorePositive | skills/effect-ts/scripts/effect-docs-search.ts:37-50 | for a query with a term and a positive weight, a field scores exactly when it is non-empty and some term of the query occurs in it |
| DocsSearch.ReadIndexLine | skills/effect-ts/scripts/effect-docs-search.ts:57-63 | one trimmed line gives the row the index-row pattern reads from it, or none |
| DocsSearch.ParseLlmsIndex | skills/effect-ts/scripts/effect-docs-search.ts:53-66 | the loop gives one row per line whose trimmed text matches the index-row pattern, in line order |
| DocsSearch.IndexEntryShape | skills/effect-ts/scripts/effect-docs-search.ts:55-63 | a row has a non-empty title, a docs url with a non-empty rest, and a one-line description |
| DocsSearch.IndexEntryRoundTrip | skills/effect-ts/scripts/effect-docs-search.ts:55-63 | the line `- [title](url): description` reads back as that title, url and description |
| DocsSearch.SearchHeadingAgrees | skills/effect-ts/scripts/effect-docs-search.ts:81-84 | a heading the search script matches has the level `headingLevel` gives and the text the section script strips |
| DocsSearch.SearchHeadingComplete | skills/effect-ts/scripts/effect-docs-search.ts:81-84 | a one-line heading line with non-blank text is matched by `^(#{1,6})\s+(.+)$` |
| DocsSearch.SearchHeadingIsHeading | skills/effect-ts/scripts/effect-docs-search.ts:81-84 | a heading matched by `^(#{1,6})\s+(.+)$` has the level and trimmed text `headingLevel` and the section script give, and a one-line heading with non-blank text always matches |
| DocsSearch.FullKinds | skills/effect-ts/scripts/effect-docs-search.ts:73-82 | one classification per line, in line order |
| DocsSearch.CurrentPageIsNearest | skills/effect-ts/scripts/effect-docs-search.ts:71-79 | the current page is the nearest page heading above, or none before the first |
| DocsSearch.BodyFromShape | skills/effect-ts/scripts/effect-docs-search.ts:85-91 | the body is the non-blank trimmed lines after the heading up to a stop, with no heading before the stop, at most six lines, and the stop is a heading, the sixth body line or the end |
| DocsSearch.CollectBody | skills/effect-ts/scripts/effect-docs-search.ts:85-91 | the inner loop computes the body |
| DocsSearch.ParseLlmsFull | skills/effect-ts/scripts/effect-docs-search.ts:68-101 | the loop that threads the page context builds exactly the rows of the text's lines |
| DocsSearch.FullRowsFromHeadingLines | skills/effect-ts/scripts/effect-docs-search.ts:73-99 | one row per heading line that is not a page heading, in line order, and every such line has its row; page headings give none |
| DocsSearch.FullRowShape | skills/effect-ts/scripts/effect-docs-search.ts:83-98 | a row's title is the heading, suffixed with the page title only when the level is above 1 and a page is current; its url is the current page's; its body is the normalised join of at most six non-blank lines before the next heading |
| DocsSearch.IndexHit | skills/effect-ts/scripts/effect-docs-search.ts:128-139 | a row of `llms.txt` gives a hit exactly when it scores above 0, with that score, its title and url, marked as from the index |
| DocsSearch.ScoreIndexRow | skills/effect-ts/scripts/effect-docs-search.ts:128-139 | the three weighted field scores (10, 8, 4) give the row's hit, or none when the sum is not positive |
| DocsSearch.FullHit | skills/effect-ts/scripts/effect-docs-search.ts:144-155 | a row of `llms-full.txt` gives a hit exactly when it scores above 0, with that score, its title and url, marked as from the full text |
| DocsSearch.ScoreFullRow | skills/effect-ts/scripts/effect-docs-search.ts:144-155 | the three weighted field scores (10, 8, 3) give the row's hit, or none when the sum is not positive |
| DocsSearch.ScoreIndexRows | skills/effect-ts/scripts/effect-docs-search.ts:127-140 | the loop collects the hit of each row of `llms.txt` that scores, in row order |
| DocsSearch.ScoreFullRows | skills/effect-ts/scripts/effect-docs-search.ts:143-156 | the loop collects the hit of each row of `llms-full.txt` that scores, in row order |
| DocsSearch.IndexHitScores | skills/effect-ts/scripts/effect-docs-search.ts:128-139 | every hit of `llms.txt` is the hit of one of its rows, scores above 0 and is marked as from the index |
| DocsSearch.IndexRowHit | skills/effect-ts/scripts/effect-docs-search.ts:128-139 | every row of `llms.txt` that scores gives its hit |
| DocsSearch.FullHitScores | skills/effect-ts/scripts/effect-docs-search.ts:144-155 | every hit of `llms-full.txt` is the hit of one of its rows, scores above 0 and is marked as from the full text |
| DocsSearch.FullRowHit | skills/effect-ts/scripts/effect-docs-search.ts:144-155 | every row of `llms-full.txt` that scores gives its hit |
| DocsSearch.CandidateScores | skills/effect-ts/scripts/effect-docs-search.ts:132 | every hit scores above 0 and comes from the chosen file |
| DocsSearch.Search | skills/effect-ts/scripts/effect-docs-search.ts:125-160 | the hits are ranked by score then title, as many as the limit allows, drawn from the scoring rows, and no hit left out ranks above one kept |
| DocsSearch.QueryPartsAreNotFlags | skills/effect-ts/scripts/effect-docs-search.ts:111-113 | the words of the query are arguments, and none is `--limit`, `--full`, `--index` or `--json` |
| DocsSearch.Run | skills/effect-ts/scripts/effect-docs-search.ts:103-160 | a usage error exactly when there are no arguments or the query is empty, and a conflict exactly when a query comes with both `--full` and `--index`, both before any read; otherwise the cache is left as ensuring the chosen file leaves it, a read error is exactly `TextFrom`'s error, and a read text gives results: the best at most `limit` (1..50) of its candidates, each scoring above 0 |
| ApiSearch.ScoreRow | skills/effect-ts/scripts/effect-api-search.ts:24-46 | the loop over the terms computes the score |
| ApiSearch.PointsBounds | skills/effect-ts/scripts/effect-api-search.ts:31-43 | the prefix and substring bonuses exclude each other, so the query earns 0..2570 points and a term 0..295 |
| ApiSearch.TermsPointsBounds | skills/effect-ts/scripts/effect-api-search.ts:38-44 | the terms earn between 0 and 295 points each |
| ApiSearch.ScoreBounds | skills/effect-ts/scripts/effect-api-search.ts:24-46 | a score is never negative and never above 2570 plus 295 per term |
| ApiSearch.TermsPointsInTitle | skills/effect-ts/scripts/effect-api-search.ts:39-41 | terms that occur in the title earn at least 60 each |
| ApiSearch.TermsPointsOutsideTitle | skills/effect-ts/scripts/effect-api-search.ts:38-44 | terms absent from the title earn at most 45 each |
| ApiSearch.ExactTitleScore | skills/effect-ts/scripts/effect-api-search.ts:31-32 | a title equal to the lower-cased query scores at least 1700, plus 60 per term |
| ApiSearch.ExactTitleOutranks | skills/effect-ts/scripts/effect-api-search.ts:24-46 | a row with the exact title outscores every row in whose title no term of the query occurs |
| ApiSearch.TermPointsPositive | skills/effect-ts/scripts/effect-api-search.ts:39-43 | a term earns points exactly when it occurs in the title, module or content |
| ApiSearch.TermsPointsPositive | skills/effect-ts/scripts/effect-api-search.ts:38-44 | the terms earn points exactly when one of them occurs in the title, module or content |
| ApiSearch.ScorePositive | skills/effect-ts/scripts/effect-api-search.ts:24-46 | for a query with a term, a row scores exactly when some term occurs in its lower-cased title, module or content |
| ApiSearch.HitOf | skills/effect-ts/scripts/effect-api-search.ts:63-72 | a record gives a hit exactly when it passes the module filter and scores above 0, with that score, its module and title, and the site base before its path |
| ApiSearch.ScoreRows | skills/effect-ts/scripts/effect-api-search.ts:62-73 | the loop collects the hit of each row the filter lets through and that scores, in row order |
| ApiSearch.CandidateOfRow | skills/effect-ts/scripts/effect-api-search.ts:63-72 | every hit is the hit of a row the filter lets through: it scores above 0, its module contains a non-empty filter, and its url is the site base followed by the row's path |
| ApiSearch.RowGivesCandidate | skills/effect-ts/scripts/effect-api-search.ts:63-72 | every row the filter lets through that scores gives its hit |
| ApiSearch.Search | skills/effect-ts/scripts/effect-api-search.ts:60-76 | the hits are ranked by score, module then title, as many as the limit allows, drawn from the rows that pass and score, and no hit left out ranks above one kept |
| ApiSearch.QueryPartsAreNotFlags | skills/effect-ts/scripts/effect-api-search.ts:54 | the words of the query are arguments, and none is `--doc`, `--limit` or `--json` |
| ApiSearch.Run | skills/effect-ts/scripts/effect-api-search.ts:48-76 | a usage error exactly when there are no arguments or the query is empty, before any read; otherwise the cache is left as ensuring the index leaves it, a read error is exactly `JsonFrom`'s error, and parsed rows give results: the best at most `limit` (1..50) hits of the rows, each scoring above 0 and passing the lower-cased `--doc` filter |
| Scan.CollectAtPositions | skills/effect-ts/scripts/effect-docs-search.ts:127-140 | the pushed values are those of the qualifying positions, one each, in position order, and every qualifying position is among them |
| Scan.CollectedValue | skills/effect-ts/scripts/effect-docs-search.ts:127-140 | every pushed value came from some position below the bound, which the lemma names |
| Scan.CollectsValue | skills/effect-ts/scripts/effect-docs-search.ts:127-140 | every qualifying position's value is pushed |
| Ranking.StringLeTotal | skills/effect-ts/scripts/effect-docs-search.ts:159 | any two titles compare one way or the other |
| Ranking.StringLeAntisymmetric | skills/effect-ts/scripts/effect-docs-search.ts:159 | titles that compare both ways are equal |
| Ranking.StringLeTransitive | skills/effect-ts/scripts/effect-docs-search.ts:159 | the title order is transitive |
| Ranking.TiesLeTotal | skills/effect-ts/scripts/effect-api-search.ts:75 | the tie-breaks (module, then title) compare any two hits |
| Ranking.TiesLeTransitive | skills/effect-ts/scripts/effect-api-search.ts:75 | the tie-break order is transitive |
| Ranking.RankLeTotalPreorder | skills/effect-ts/scripts/effect-api-search.ts:75 | the comparator is total and transitive, so sorting by it is well defined |
| Ranking.InsertPermutes | skills/effect-ts/scripts/effect-docs-search.ts:159 | inserting a hit adds exactly that hit |
| Ranking.InsertRanked | skills/effect-ts/scripts/effect-docs-search.ts:159 | inserting into a ranked list keeps it ranked |
| Ranking.SortHits | skills/effect-ts/scripts/effect-docs-search.ts:159 | the sorted hits are ranked and a permutation of the hits |
| Ranking.TakeFirst | skills/effect-ts/scripts/effect-docs-search.ts:160 | `slice(0, limit)` is a prefix of length `min(n, limit)` |
| Ranking.TopHits | skills/effect-ts/scripts/effect-docs-search.ts:159-160 | the first `limit` of a ranked list are ranked, drawn from it, and rank no lower than any left out |
| Ranking.TopRanked | skills/effect-ts/scripts/effect-api-search.ts:75-76 | sorting then slicing gives the best `min(n, limit)` hits in ranked order |

## Left out

- Network and file system: `fetch`, `readFile`, `writeFile`, `stat` and `mkdir` are not modelled as effects. A fetch is a parameter from request to outcome (a thrown error or a response with status, status text, body and validators). The cached files are a map from path to bytes in the `CacheStore`. `ensureCacheDir` is taken never to fail.
- The cache root taken from `XDG_CACHE_HOME` / `HOME` is a parameter of the store (`root`).
- `effect-cache.ts` is not part of this model: it formats status rows from `stat`, the clock and `formatBytes` and has no logic of its own.
- SHA-256, UTF-8 decoding, `JSON.parse` / `JSON.stringify`, WHATWG URL parsing (`normalizeDocsUrl`, `new URL` in `parseLinkArg`) and user regular expressions (`new RegExp(pattern, "i")`) are functions the caller supplies. A regular expression that does not compile is a `None` from that function.
- `Date.now`, `new Date().toISOString()` and `Date.parse` are an integer `now` and an optional integer `fetchedAt`, where none stands for an unparsable time. Each call of `EnsureSource` reads the clock once (the script reads it in `isStale` and again when it stamps the entry); `EnsureAllSources` takes one reading per source.
- `formatBytes` (floating-point division and `toFixed`) is not modelled. `parseNumberFlag` treats `Number(value)` with `isFinite` as a supplied function giving an integer or none, so fractional limits and line counts are not modelled.
- `localeCompare` is lexicographic order on characters, not a locale collation.
- `toLowerCase` is ASCII-only. Characters are Unicode scalar values, not UTF-16 code units, so lengths and snippet windows differ from JavaScript for characters outside the Basic Multilingual Plane.
- Output formatting (`printJson`, the plain-text report), `--json`, `usage()`'s message text and `process.exit` are not modelled. Exit codes are functions of the outcome.
- Concurrency: the unsynchronised read-modify-write of the manifest by several processes is not modelled; every method runs alone.
- Ranking.SortHits: `Array.prototype.sort` is stable. The insertion it uses places a hit after the hits it ties with, but stability is not stated or proved, only that the result is ranked and a permutation.
- Ranking.TopRanked: because the sort's stability is not stated, the order among hits with equal keys is not fixed by this lemma, only the ranked order and the selection.
- DocsSearch.Search: hits with equal score and title may come in any order the sort leaves them in; their input order is not stated.
- ApiSearch.Search: hits with equal score, module and title may come in any order the sort leaves them in; their input order is not stated.
- DocsSearch.Run: inherits the unstated tie order of `DocsSearch.Search`.
- ApiSearch.Run: inherits the unstated tie order of `ApiSearch.Search`.
- Ranking.SortHits: the scripts sort the hit array in place; the model sorts a sequence value.
- Manifest records and API index records are taken as well-typed. A record with a missing or mistyped field (which the scripts would read as `undefined`) is not modelled.
- The order of `Object.values` over the API index is the order the supplied parser returns.
- The ISO `fetchedAt` string is modelled as the time it parses to, so its exact text is not kept.
- DocsSection.Locate: the `Failed` message is `Invalid heading regex` for a pattern that does not compile, without the JavaScript error text the script appends, and `Invalid URL` (the message of the error `new URL` throws) for a link that does not parse.
