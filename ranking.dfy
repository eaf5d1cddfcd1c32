/**
 * The order both search scripts print their hits in: score descending, then
 * text fields ascending (the title; or the doc, then the title), and the
 * first `limit` hits of that order.
 *
 * `localeCompare` is modelled as the lexicographic order on characters.
 */
module Ranking {
  /** What a hit is ranked by: its score, then its tie-breaking fields in turn. */
  datatype RankKey = RankKey(score: int, ties: seq<string>)

  /** Lexicographic order on strings: a prefix comes first, else the first differing character decides. */
  predicate StringLe(a: string, b: string)
    decreases |a|
  {
    if a == [] then true
    else if b == [] then false
    else if a[0] != b[0] then a[0] < b[0]
    else StringLe(a[1..], b[1..])
  }

  lemma {:induction false} StringLeTotal(a: string, b: string)
    ensures StringLe(a, b) || StringLe(b, a)
    decreases |a|
  {
    if a != [] && b != [] && a[0] == b[0] {
      StringLeTotal(a[1..], b[1..]);
    }
  }

  lemma {:induction false} StringLeAntisymmetric(a: string, b: string)
    requires StringLe(a, b) && StringLe(b, a)
    ensures a == b
    decreases |a|
  {
    if a != [] && b != [] {
      StringLeAntisymmetric(a[1..], b[1..]);
      assert a == [a[0]] + a[1..] && b == [b[0]] + b[1..];
    }
  }

  lemma {:induction false} StringLeTransitive(a: string, b: string, c: string)
    requires StringLe(a, b) && StringLe(b, c)
    ensures StringLe(a, c)
    decreases |a|
  {
    if a != [] && b != [] && c != [] && a[0] == b[0] && b[0] == c[0] {
      StringLeTransitive(a[1..], b[1..], c[1..]);
    }
  }

  /** Lexicographic order on the tie-breaking fields. */
  predicate TiesLe(a: seq<string>, b: seq<string>)
    decreases |a|
  {
    if a == [] then true
    else if b == [] then false
    else if a[0] != b[0] then StringLe(a[0], b[0])
    else TiesLe(a[1..], b[1..])
  }

  lemma {:induction false} TiesLeTotal(a: seq<string>, b: seq<string>)
    ensures TiesLe(a, b) || TiesLe(b, a)
    decreases |a|
  {
    if a != [] && b != [] {
      if a[0] != b[0] {
        StringLeTotal(a[0], b[0]);
      } else {
        TiesLeTotal(a[1..], b[1..]);
      }
    }
  }

  lemma {:induction false} TiesLeTransitive(a: seq<string>, b: seq<string>, c: seq<string>)
    requires TiesLe(a, b) && TiesLe(b, c)
    ensures TiesLe(a, c)
    decreases |a|
  {
    if a != [] && b != [] && c != [] {
      if a[0] == b[0] && b[0] == c[0] {
        TiesLeTransitive(a[1..], b[1..], c[1..]);
      } else if a[0] != b[0] && b[0] != c[0] {
        StringLeTransitive(a[0], b[0], c[0]);
        if a[0] == c[0] {
          StringLeAntisymmetric(a[0], b[0]);
        }
      }
    }
  }

  /**
   * The comparator `b.score - a.score || a.x.localeCompare(b.x) || ...` read as
   * "may come first": a higher score, or an equal score and fields in order.
   */
  predicate RankLe(a: RankKey, b: RankKey) {
    a.score > b.score || (a.score == b.score && TiesLe(a.ties, b.ties))
  }

  /** The comparator is a total preorder, so sorting by it is well defined. */
  lemma RankLeTotalPreorder(a: RankKey, b: RankKey, c: RankKey)
    ensures RankLe(a, b) || RankLe(b, a)
    ensures RankLe(a, b) && RankLe(b, c) ==> RankLe(a, c)
  {
    TiesLeTotal(a.ties, b.ties);
    if RankLe(a, b) && RankLe(b, c) && a.score == b.score && b.score == c.score {
      TiesLeTransitive(a.ties, b.ties, c.ties);
    }
  }

  predicate Ranked<T>(s: seq<T>, key: T -> RankKey) {
    forall i, j :: 0 <= i < j < |s| ==> RankLe(key(s[i]), key(s[j]))
  }

  /** `a` ranks strictly before `b`. */
  predicate RankLt(a: RankKey, b: RankKey) {
    RankLe(a, b) && !RankLe(b, a)
  }

  /**
   * `x` placed before the first element it ranks strictly before, so that it
   * follows the elements it ties with, as a stable sort leaves them.
   */
  function Insert<T>(s: seq<T>, x: T, key: T -> RankKey): seq<T>
  {
    if s == [] then [x]
    else if RankLt(key(x), key(s[0])) then [x] + s
    else [s[0]] + Insert(s[1..], x, key)
  }

  lemma {:induction false} InsertPermutes<T>(s: seq<T>, x: T, key: T -> RankKey)
    ensures multiset(Insert(s, x, key)) == multiset(s) + multiset{x}
  {
    if s != [] && !RankLt(key(x), key(s[0])) {
      InsertPermutes(s[1..], x, key);
      assert s == [s[0]] + s[1..];
    }
  }

  lemma {:induction false} InsertRanked<T>(s: seq<T>, x: T, key: T -> RankKey)
    requires Ranked(s, key)
    ensures Ranked(Insert(s, x, key), key)
  {
    if s == [] {
    } else if RankLt(key(x), key(s[0])) {
      var r := [x] + s;
      forall i, j | 0 <= i < j < |r|
        ensures RankLe(key(r[i]), key(r[j]))
      {
        if i == 0 && j > 1 {
          RankLeTotalPreorder(key(x), key(s[0]), key(s[j - 1]));
        }
      }
    } else {
      InsertRanked(s[1..], x, key);
      InsertPermutes(s[1..], x, key);
      var tail := Insert(s[1..], x, key);
      var r := [s[0]] + tail;
      RankLeTotalPreorder(key(x), key(s[0]), key(s[0]));
      forall j | 0 <= j < |tail|
        ensures RankLe(key(s[0]), key(tail[j]))
      {
        assert tail[j] in multiset(tail);
        assert tail[j] in multiset(s[1..]) + multiset{x};
        if tail[j] != x {
          assert tail[j] in s[1..];
          var k :| 0 <= k < |s[1..]| && s[1..][k] == tail[j];
          assert s[k + 1] == tail[j];
        }
      }
      forall i, j | 0 <= i < j < |r|
        ensures RankLe(key(r[i]), key(r[j]))
      {
        if i > 0 {
          assert r[i] == tail[i - 1] && r[j] == tail[j - 1];
        } else {
          assert r[j] == tail[j - 1];
        }
      }
    }
  }

  /**
   * `hits.sort(compare)`: the hits in ranked order, as a permutation of the
   * input. The script sorts in place; this is an insertion sort on values.
   */
  method SortHits<T>(hits: seq<T>, key: T -> RankKey) returns (sorted: seq<T>)
    ensures Ranked(sorted, key)
    ensures multiset(sorted) == multiset(hits)
  {
    sorted := [];
    for i := 0 to |hits|
      invariant Ranked(sorted, key)
      invariant multiset(sorted) == multiset(hits[..i])
    {
      InsertRanked(sorted, hits[i], key);
      InsertPermutes(sorted, hits[i], key);
      sorted := Insert(sorted, hits[i], key);
      assert hits[..i + 1] == hits[..i] + [hits[i]];
    }
    assert hits[..|hits|] == hits;
  }

  /** `hits.slice(0, limit)` for a limit of at least 1. */
  function TakeFirst<T>(s: seq<T>, limit: int): (r: seq<T>)
    requires limit >= 1
    ensures |r| == if |s| < limit then |s| else limit
    ensures r <= s
  {
    if |s| <= limit then s else s[..limit]
  }

  /**
   * The printed hits are the best ones: a ranked permutation cut at `limit`
   * is ranked, and each hit left out ranks no higher than every hit kept.
   */
  lemma TopHits<T>(sorted: seq<T>, limit: int, key: T -> RankKey)
    requires limit >= 1 && Ranked(sorted, key)
    ensures Ranked(TakeFirst(sorted, limit), key)
    ensures multiset(TakeFirst(sorted, limit)) <= multiset(sorted)
    ensures forall x, y :: x in TakeFirst(sorted, limit) && y in multiset(sorted) - multiset(TakeFirst(sorted, limit)) ==> RankLe(key(x), key(y))
  {
    var out := TakeFirst(sorted, limit);
    assert sorted == out + sorted[|out|..];
    assert multiset(sorted) == multiset(out) + multiset(sorted[|out|..]);
    forall x, y | x in out && y in multiset(sorted) - multiset(out)
      ensures RankLe(key(x), key(y))
    {
      var i :| 0 <= i < |out| && out[i] == x;
      assert y in sorted[|out|..];
      var j :| 0 <= j < |sorted[|out|..]| && sorted[|out|..][j] == y;
      assert sorted[i] == x && sorted[|out| + j] == y;
    }
  }

  /**
   * `hits.sort(compare)` then `slice(0, limit)`: the `limit` best hits (all of
   * them when there are fewer), in ranked order; no hit left out ranks
   * strictly above one printed.
   */
  method TopRanked<T>(hits: seq<T>, key: T -> RankKey, limit: int) returns (top: seq<T>)
    requires limit >= 1
    ensures Ranked(top, key)
    ensures |top| == if |hits| < limit then |hits| else limit
    ensures multiset(top) <= multiset(hits)
    ensures forall x, y :: x in top && y in multiset(hits) - multiset(top) ==> RankLe(key(x), key(y))
  {
    var sorted := SortHits(hits, key);
    TopHits(sorted, limit, key);
    assert |sorted| == |multiset(sorted)| == |hits|;
    top := TakeFirst(sorted, limit);
  }

  /**
   * `top` is what `TopRanked(all, key, limit)` promises: the best `limit`
   * elements of `all` (all of them when there are fewer), in ranked order.
   */
  predicate TopOf<T(==)>(top: seq<T>, all: seq<T>, key: T -> RankKey, limit: int) {
    && Ranked(top, key)
    && |top| == (if |all| < limit then |all| else limit)
    && multiset(top) <= multiset(all)
    && forall x, y :: x in top && y in multiset(all) - multiset(top) ==> RankLe(key(x), key(y))
  }
}
