/**
 * `effect-api-search.ts`: lexical search over the API search index of the
 * Effect reference documentation, optionally restricted to one module
 * (`--doc`), scored, ranked by score, module and title, and cut at `--limit`.
 */
module ApiSearch {
  import opened Wrappers
  import opened Strings
  import opened Common
  import opened Args
  import opened Scan
  import opened Ranking
  import Cache

  /** A record of the API search index (`relUrl` is never read and is left out). */
  datatype ApiRow = ApiRow(doc: string, title: string, content: string, url: string)

  datatype ApiHit = ApiHit(doc: string, title: string, url: string, snippet: string, score: int)

  // ---------------------------------------------------------------------------
  // score
  // ---------------------------------------------------------------------------

  /**
   * The points the whole lower-cased query `q` earns: an exact title, a title
   * it starts or occurs in, an exact module name, a module name it starts or
   * occurs in, and content it occurs in.
   */
  function QueryPoints(title: string, doc: string, content: string, q: string): int {
    (if title == q then 1000 else 0)
    + (if StartsWith(title, q) then 700 else if Contains(title, q) then 500 else 0)
    + (if doc == q then 450 else 0)
    + (if StartsWith(doc, q) then 300 else if Contains(doc, q) then 200 else 0)
    + (if Contains(content, q) then 120 else 0)
  }

  /** The points one term of the query earns. */
  function TermPoints(title: string, doc: string, content: string, term: string): int {
    (if title == term then 250 else if StartsWith(title, term) then 120 else if Contains(title, term) then 60 else 0)
    + (if Contains(doc, term) then 35 else 0)
    + (if Contains(content, term) then 10 else 0)
  }

  /** The points of the terms, added in order. */
  function TermsPoints(title: string, doc: string, content: string, terms: seq<string>): int {
    if terms == [] then 0
    else TermsPoints(title, doc, content, terms[..|terms| - 1]) + TermPoints(title, doc, content, terms[|terms| - 1])
  }

  /** `score(query, row)`, over the lower-cased query, title, module name and content. */
  function Score(query: string, row: ApiRow): int {
    var q := ToLower(query);
    var title := ToLower(row.title);
    var doc := ToLower(row.doc);
    var content := ToLower(row.content);
    QueryPoints(title, doc, content, q) + TermsPoints(title, doc, content, Terms(q))
  }

  /** `score(query, row)`: the points accumulated in `value`, one term at a time. */
  method ScoreRow(query: string, row: ApiRow) returns (value: int)
    ensures value == Score(query, row)
  {
    var q := ToLower(query);
    var terms := Terms(q);
    var title := ToLower(row.title);
    var doc := ToLower(row.doc);
    var content := ToLower(row.content);
    value := 0;
    if title == q {
      value := value + 1000;
    }
    if StartsWith(title, q) {
      value := value + 700;
    } else if Contains(title, q) {
      value := value + 500;
    }
    if doc == q {
      value := value + 450;
    }
    if StartsWith(doc, q) {
      value := value + 300;
    } else if Contains(doc, q) {
      value := value + 200;
    }
    if Contains(content, q) {
      value := value + 120;
    }
    ghost var base := value;
    for k := 0 to |terms|
      invariant value == base + TermsPoints(title, doc, content, terms[..k])
    {
      var term := terms[k];
      if title == term {
        value := value + 250;
      } else if StartsWith(title, term) {
        value := value + 120;
      } else if Contains(title, term) {
        value := value + 60;
      }
      if Contains(doc, term) {
        value := value + 35;
      }
      if Contains(content, term) {
        value := value + 10;
      }
      assert terms[..k + 1][..k] == terms[..k];
    }
    assert terms[..|terms|] == terms;
  }

  /**
   * Within a field the prefix and the substring bonus exclude each other, so
   * the query earns at most 1000 + 700 + 450 + 300 + 120 points, and a term
   * at most 250 + 35 + 10.
   */
  lemma PointsBounds(title: string, doc: string, content: string, q: string, term: string)
    ensures 0 <= QueryPoints(title, doc, content, q) <= 2570
    ensures 0 <= TermPoints(title, doc, content, term) <= 295
  {
  }

  lemma {:induction false} TermsPointsBounds(title: string, doc: string, content: string, terms: seq<string>)
    ensures 0 <= TermsPoints(title, doc, content, terms) <= 295 * |terms|
  {
    if terms != [] {
      TermsPointsBounds(title, doc, content, terms[..|terms| - 1]);
      PointsBounds(title, doc, content, [], terms[|terms| - 1]);
    }
  }

  /** A score is never negative, and never more than 2570 plus 295 per term. */
  lemma ScoreBounds(query: string, row: ApiRow)
    ensures 0 <= Score(query, row) <= 2570 + 295 * |Terms(ToLower(query))|
  {
    var q := ToLower(query);
    PointsBounds(ToLower(row.title), ToLower(row.doc), ToLower(row.content), q, []);
    TermsPointsBounds(ToLower(row.title), ToLower(row.doc), ToLower(row.content), Terms(q));
  }

  /** Terms that all occur in the title earn at least 60 each. */
  lemma {:induction false} TermsPointsInTitle(title: string, doc: string, content: string, terms: seq<string>)
    requires forall t :: t in terms ==> Contains(title, t)
    ensures TermsPoints(title, doc, content, terms) >= 60 * |terms|
  {
    if terms != [] {
      var last := terms[|terms| - 1];
      assert last in terms;
      assert forall t :: t in terms[..|terms| - 1] ==> t in terms;
      TermsPointsInTitle(title, doc, content, terms[..|terms| - 1]);
      if title == last {
        assert OccursAt(title, last, 0);
      } else if StartsWith(title, last) {
        StartsWithContains(title, last);
      }
    }
  }

  /** Terms none of which occurs in the title earn at most 45 each. */
  lemma {:induction false} TermsPointsOutsideTitle(title: string, doc: string, content: string, terms: seq<string>)
    requires forall t :: t in terms ==> !Contains(title, t)
    ensures TermsPoints(title, doc, content, terms) <= 45 * |terms|
  {
    if terms != [] {
      var last := terms[|terms| - 1];
      assert last in terms;
      assert forall t :: t in terms[..|terms| - 1] ==> t in terms;
      TermsPointsOutsideTitle(title, doc, content, terms[..|terms| - 1]);
      if title == last {
        assert OccursAt(title, last, 0);
      } else if StartsWith(title, last) {
        StartsWithContains(title, last);
      }
    }
  }

  /**
   * A title equal to the lower-cased query earns the exact-title and prefix
   * bonuses, 1700, and at least 60 for every term of the query.
   */
  lemma ExactTitleScore(query: string, row: ApiRow)
    requires ToLower(row.title) == ToLower(query)
    ensures Score(query, row) >= 1700 + 60 * |Terms(ToLower(query))|
  {
    var q := ToLower(query);
    TermsOccur(q);
    TermsPointsInTitle(ToLower(row.title), ToLower(row.doc), ToLower(row.content), Terms(q));
    assert OccursAt(q, q, 0);
  }

  /**
   * An exact title outranks every row in whose title no term of the query
   * occurs, however well that row matches elsewhere.
   */
  lemma ExactTitleOutranks(query: string, a: ApiRow, b: ApiRow)
    requires ToLower(a.title) == ToLower(query)
    requires Terms(ToLower(query)) != []
    requires forall t :: t in Terms(ToLower(query)) ==> !Contains(ToLower(b.title), t)
    ensures Score(query, a) > Score(query, b)
  {
    var q := ToLower(query);
    var terms := Terms(q);
    var title := ToLower(b.title);
    ExactTitleScore(query, a);
    TermsPointsOutsideTitle(title, ToLower(b.doc), ToLower(b.content), terms);
    TermsOccur(q);
    assert terms[0] in terms;
    if Contains(title, q) {
      ContainsTransitive(title, q, terms[0]);
    }
    if StartsWith(title, q) {
      StartsWithContains(title, q);
    }
  }

  /** Some term occurs in the title, the module name or the content. */
  predicate SomeTermOccurs(title: string, doc: string, content: string, terms: seq<string>) {
    exists t :: t in terms && (Contains(title, t) || Contains(doc, t) || Contains(content, t))
  }

  lemma TermPointsPositive(title: string, doc: string, content: string, term: string)
    ensures TermPoints(title, doc, content, term) > 0 <==> Contains(title, term) || Contains(doc, term) || Contains(content, term)
  {
    if title == term {
      assert OccursAt(title, term, 0);
    } else if StartsWith(title, term) {
      StartsWithContains(title, term);
    }
  }

  lemma {:induction false} TermsPointsPositive(title: string, doc: string, content: string, terms: seq<string>)
    ensures TermsPoints(title, doc, content, terms) > 0 <==> SomeTermOccurs(title, doc, content, terms)
  {
    if terms != [] {
      var init := terms[..|terms| - 1];
      var last := terms[|terms| - 1];
      TermsPointsPositive(title, doc, content, init);
      TermPointsPositive(title, doc, content, last);
      TermsPointsBounds(title, doc, content, init);
      PointsBounds(title, doc, content, [], last);
      assert terms == init + [last];
      assert forall t :: t in terms <==> t in init || t == last;
    }
  }

  /**
   * For a query with at least one term, a row scores exactly when some term
   * occurs in its lower-cased title, module name or content: the whole query
   * occurring implies its first term does.
   */
  lemma ScorePositive(query: string, row: ApiRow)
    requires Terms(ToLower(query)) != []
    ensures Score(query, row) > 0 <==>
      SomeTermOccurs(ToLower(row.title), ToLower(row.doc), ToLower(row.content), Terms(ToLower(query)))
  {
    var q := ToLower(query);
    var terms := Terms(q);
    var title, doc, content := ToLower(row.title), ToLower(row.doc), ToLower(row.content);
    TermsPointsPositive(title, doc, content, terms);
    TermsPointsBounds(title, doc, content, terms);
    PointsBounds(title, doc, content, q, []);
    if QueryPoints(title, doc, content, q) > 0 {
      TermsOccur(q);
      assert terms[0] in terms;
      if title == q {
        assert OccursAt(title, q, 0);
      } else if doc == q {
        assert OccursAt(doc, q, 0);
      }
      if StartsWith(title, q) {
        StartsWithContains(title, q);
      }
      if StartsWith(doc, q) {
        StartsWithContains(doc, q);
      }
      if Contains(title, q) {
        ContainsTransitive(title, q, terms[0]);
      } else if Contains(doc, q) {
        ContainsTransitive(doc, q, terms[0]);
      } else {
        ContainsTransitive(content, q, terms[0]);
      }
    }
  }

  // ---------------------------------------------------------------------------
  // Filter and hits
  // ---------------------------------------------------------------------------

  /** The module filter: the value of `--doc`, lower-cased. */
  function DocFilterOf(args: seq<string>): Option<string> {
    match StringFlag(args, "--doc")
    case None => None
    case Some(v) => Some(ToLower(v))
  }

  /** A missing or empty filter lets every row through; otherwise the row's lower-cased module name must contain it. */
  predicate PassesFilter(filter: Option<string>, row: ApiRow) {
    filter.None? || filter.value == [] || Contains(ToLower(row.doc), filter.value)
  }

  const SiteBase: string := "https://effect-ts.github.io"

  /** The hit of a row, unless the filter excludes it or it scores nothing. */
  function HitOf(query: string, filter: Option<string>, row: ApiRow): (r: Option<ApiHit>)
    ensures r.Some? <==> PassesFilter(filter, row) && Score(query, row) > 0
    ensures r.Some? ==> r.value.score == Score(query, row) && r.value.doc == row.doc && r.value.title == row.title
    ensures r.Some? ==> r.value.url == SiteBase + row.url
  {
    if !PassesFilter(filter, row) then None
    else
      var score := Score(query, row);
      if score <= 0 then None
      else Some(ApiHit(row.doc, row.title, SiteBase + row.url, ExtractSnippet(row.content, query), score))
  }

  function HitAt(query: string, filter: Option<string>, rows: seq<ApiRow>): nat -> Option<ApiHit> {
    (k: nat) => if k < |rows| then HitOf(query, filter, rows[k]) else None
  }

  /** The hits a search ranks, in row order. */
  function Candidates(query: string, filter: Option<string>, rows: seq<ApiRow>): seq<ApiHit> {
    Collect(HitAt(query, filter, rows), |rows|)
  }

  /** The scoring loop over the rows of the index: one hit per row that passes the filter and scores. */
  method ScoreRows(query: string, filter: Option<string>, rows: seq<ApiRow>) returns (hits: seq<ApiHit>)
    ensures hits == Candidates(query, filter, rows)
  {
    hits := [];
    for k := 0 to |rows|
      invariant hits == Collect(HitAt(query, filter, rows), k)
    {
      var row := rows[k];
      if filter.Some? && filter.value != [] && !Contains(ToLower(row.doc), filter.value) {
        continue;
      }
      var hitScore := ScoreRow(query, row);
      if hitScore <= 0 {
        continue;
      }
      hits := hits + [ApiHit(row.doc, row.title, SiteBase + row.url, ExtractSnippet(row.content, query), hitScore)];
    }
  }

  /**
   * Every candidate is the hit of a row the filter lets through and that
   * scores: it carries that row's module name, title and score, and its url
   * is the row's path on the documentation site.
   */
  lemma CandidateOfRow(query: string, filter: Option<string>, rows: seq<ApiRow>, h: ApiHit)
    requires h in Candidates(query, filter, rows)
    ensures h.score > 0
    ensures filter.Some? && filter.value != [] ==> Contains(ToLower(h.doc), filter.value)
    ensures exists row :: row in rows && PassesFilter(filter, row) && HitOf(query, filter, row) == Some(h)
  {
    var i := CollectedValue(HitAt(query, filter, rows), |rows|, h);
    assert rows[i] in rows && HitOf(query, filter, rows[i]) == Some(h);
  }

  /** Every row the filter lets through and that scores gives a candidate. */
  lemma RowGivesCandidate(query: string, filter: Option<string>, rows: seq<ApiRow>, i: nat)
    requires i < |rows| && PassesFilter(filter, rows[i]) && Score(query, rows[i]) > 0
    ensures ApiHit(rows[i].doc, rows[i].title, SiteBase + rows[i].url, ExtractSnippet(rows[i].content, query), Score(query, rows[i]))
      in Candidates(query, filter, rows)
  {
    CollectsValue(HitAt(query, filter, rows), |rows|, i);
  }

  /** The order of the hits: score descending, then module name, then title. */
  function HitKey(h: ApiHit): RankKey {
    RankKey(h.score, [h.doc, h.title])
  }

  /** The search over the rows of the index: filter, score, sort and keep the first `limit`. */
  method Search(query: string, filter: Option<string>, rows: seq<ApiRow>, limit: int) returns (hits: seq<ApiHit>)
    requires limit >= 1
    ensures Ranked(hits, HitKey)
    ensures |hits| == if |Candidates(query, filter, rows)| < limit then |Candidates(query, filter, rows)| else limit
    ensures multiset(hits) <= multiset(Candidates(query, filter, rows))
    ensures forall x, y :: x in hits && y in multiset(Candidates(query, filter, rows)) - multiset(hits) ==> RankLe(HitKey(x), HitKey(y))
  {
    var candidates := ScoreRows(query, filter, rows);
    hits := TopRanked(candidates, HitKey, limit);
  }

  // ---------------------------------------------------------------------------
  // main
  // ---------------------------------------------------------------------------

  /** The query: the arguments left once `--doc`, `--limit` and their values and `--json` are removed, joined and trimmed. */
  function QueryOf(args: seq<string>): string {
    Trim(Join(FilterOut(KeptArgs(args, ["--doc", "--limit"], |args|), ["--json"]), " "))
  }

  /** None of the words the query is made of is one of the script's flags. */
  lemma QueryPartsAreNotFlags(args: seq<string>)
    ensures forall a :: a in FilterOut(KeptArgs(args, ["--doc", "--limit"], |args|), ["--json"]) ==>
      a in args && a !in ["--doc", "--limit", "--json"]
  {
    KeptArgsHaveNoFlags(args, ["--doc", "--limit"], |args|);
  }

  /** The result limit: `--limit`, 10 by default, clamped to 1..50. */
  function LimitOf(args: seq<string>, parseNumber: string -> Option<int>): int {
    ClampLimit(ParseNumberFlag(args, "--limit", 10, parseNumber))
  }

  datatype SearchOutcome =
    | Usage
    | ReadError(error: Cache.EnsureError)
    | Results(query: string, docFilter: Option<string>, hits: seq<ApiHit>)

  function ExitCode(o: SearchOutcome): int {
    if o.Results? then 0 else 1
  }

  /**
   * `main`: an empty argument list or query is a usage error before the index
   * is read; otherwise the index is read from the cache, preferring a stale
   * copy to an error, parsed by `parseRows` (`JSON.parse` followed by
   * `Object.values`), and searched.
   */
  method Run(args: seq<string>, store: Cache.CacheStore, now: int, fetch: Cache.Request -> Cache.FetchOutcome,
             parseNumber: string -> Option<int>, parseRows: string -> Option<seq<ApiRow>>)
    returns (r: SearchOutcome)
    modifies store
    ensures r == Usage <==> args == [] || QueryOf(args) == []
    ensures r == Usage ==> unchanged(store)
    ensures args != [] && QueryOf(args) != [] ==>
      var before, read := old(store.Entries()), old(store.files);
      && store.LeftBy(Cache.ApiSearchIndex, store.OutcomeFrom(Cache.ApiSearchIndex, Cache.PreferStale, now, fetch, before, read),
                      old(store.manifestFile), read)
      && match store.JsonFrom(Cache.ApiSearchIndex, Cache.PreferStale, now, fetch, before, read, parseRows)
         case Failure(e) => r == ReadError(e)
         case Success(rows) =>
           r.Results? && r.query == QueryOf(args) && r.docFilter == DocFilterOf(args)
           && TopOf(r.hits, Candidates(r.query, r.docFilter, rows), HitKey, LimitOf(args, parseNumber))
    ensures r.Results? ==>
      && r.query == QueryOf(args) && r.query != []
      && r.docFilter == DocFilterOf(args)
      && |r.hits| <= LimitOf(args, parseNumber) <= 50
      && Ranked(r.hits, HitKey)
      && (forall h :: h in r.hits ==> h.score > 0)
      && (r.docFilter.Some? && r.docFilter.value != [] ==> forall h :: h in r.hits ==> Contains(ToLower(h.doc), r.docFilter.value))
    ensures r.Results? ==>
      && Cache.ApiSearchIndex in store.Entries() && store.Entries()[Cache.ApiSearchIndex].path in store.files
      && var text := store.decodeUtf8(store.files[store.Entries()[Cache.ApiSearchIndex].path]);
         parseRows(text).Some? &&
         TopOf(r.hits, Candidates(r.query, r.docFilter, parseRows(text).value), HitKey, LimitOf(args, parseNumber))
    ensures ExitCode(r) == 0 <==> r.Results?
  {
    if args == [] {
      return Usage;
    }
    var docFilter := DocFilterOf(args);
    var limit := LimitOf(args, parseNumber);
    var kept := TrimArgs(args, ["--doc", "--limit"]);
    var query := Trim(Join(FilterOut(kept, ["--json"]), " "));
    if query == [] {
      return Usage;
    }
    var payload := store.ReadSourceJson(Cache.ApiSearchIndex, Cache.PreferStale, now, fetch, parseRows);
    if payload.Failure? {
      return ReadError(payload.error);
    }
    var hits := Search(query, docFilter, payload.value, limit);
    forall h | h in hits
      ensures h.score > 0 && (docFilter.Some? && docFilter.value != [] ==> Contains(ToLower(h.doc), docFilter.value))
    {
      assert h in multiset(hits);
      CandidateOfRow(query, docFilter, payload.value, h);
    }
    r := Results(query, docFilter, hits);
  }
}
