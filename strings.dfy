/**
 * The JavaScript string primitives the scripts rely on: `\s` and `.` in
 * regular expressions, `trim`, ASCII `toLowerCase`, `includes`, `startsWith`,
 * `indexOf`, `split(/\s+/)`, `split(/\r?\n/)` and `join`, together with the
 * facts about them that the rest of the model uses.
 */
module Strings {
  import opened Wrappers

  // ---------------------------------------------------------------------------
  // Character classes
  // ---------------------------------------------------------------------------

  /** The characters `.` does not match in an ECMAScript regular expression. */
  predicate IsLineTerminator(c: char) {
    c == '\n' || c == '\r' || c == '\U{2028}' || c == '\U{2029}'
  }

  /** ECMAScript `\s`, which is also the set `String.prototype.trim` removes. */
  predicate IsSpace(c: char) {
    || c == ' ' || c == '\t' || c == '\U{000B}' || c == '\U{000C}'
    || IsLineTerminator(c)
    || c == '\U{00A0}' || c == '\U{1680}' || ('\U{2000}' <= c <= '\U{200A}')
    || c == '\U{202F}' || c == '\U{205F}' || c == '\U{3000}' || c == '\U{FEFF}'
  }

  predicate NotSpace(c: char) { !IsSpace(c) }

  predicate IsUpper(c: char) { 'A' <= c <= 'Z' }

  function LowerChar(c: char): char {
    if IsUpper(c) then (c as int + 32) as char else c
  }

  /** `toLowerCase`, on the ASCII letters. */
  function ToLower(s: string): string {
    seq(|s|, i requires 0 <= i < |s| => LowerChar(s[i]))
  }

  lemma ToLowerHasNoUpper(s: string)
    ensures forall i :: 0 <= i < |ToLower(s)| ==> !IsUpper(ToLower(s)[i])
  {
  }

  /** Lower-casing a string without upper-case letters changes nothing. */
  lemma ToLowerFixed(s: string)
    requires forall i :: 0 <= i < |s| ==> !IsUpper(s[i])
    ensures ToLower(s) == s
  {
  }

  predicate NoneSatisfy(s: string, p: char -> bool) {
    forall i :: 0 <= i < |s| ==> !p(s[i])
  }

  // ---------------------------------------------------------------------------
  // Trimming and runs
  // ---------------------------------------------------------------------------

  /** The end of the run of `p`-characters of `s` that starts at `i`. */
  function SpanEnd(s: string, p: char -> bool, i: nat): (n: nat)
    requires i <= |s|
    decreases |s| - i
    ensures i <= n <= |s|
  {
    if i < |s| && p(s[i]) then SpanEnd(s, p, i + 1) else i
  }

  /** The length of the longest prefix of `s` whose characters satisfy `p`. */
  function SpanLength(s: string, p: char -> bool): (n: nat)
    ensures n <= |s|
  {
    SpanEnd(s, p, 0)
  }

  lemma {:induction false} SpanEndIsMaximal(s: string, p: char -> bool, i: nat)
    requires i <= |s|
    decreases |s| - i
    ensures forall k :: i <= k < SpanEnd(s, p, i) ==> p(s[k])
    ensures SpanEnd(s, p, i) == |s| || !p(s[SpanEnd(s, p, i)])
  {
    if i < |s| && p(s[i]) {
      SpanEndIsMaximal(s, p, i + 1);
    }
  }

  /** The span is the longest `p`-prefix: all of it satisfies `p`, and the next character does not. */
  lemma SpanLengthIsMaximal(s: string, p: char -> bool)
    ensures forall i :: 0 <= i < SpanLength(s, p) ==> p(s[i])
    ensures SpanLength(s, p) == |s| || !p(s[SpanLength(s, p)])
  {
    SpanEndIsMaximal(s, p, 0);
  }

  /** A `p`-prefix of length `k` that ends the string or is followed by a non-`p` character makes the span exactly `k`. */
  lemma SpanLengthExactly(s: string, p: char -> bool, k: nat)
    requires k <= |s| && (k == |s| || !p(s[k]))
    requires forall i :: 0 <= i < k ==> p(s[i])
    ensures SpanLength(s, p) == k
  {
    SpanLengthIsMaximal(s, p);
  }

  /** A string that starts with a `p`-character spans one more than its tail. */
  lemma SpanLengthCons(s: string, p: char -> bool)
    requires s != [] && p(s[0])
    ensures SpanLength(s, p) == 1 + SpanLength(s[1..], p)
  {
    var t := s[1..];
    SpanLengthIsMaximal(t, p);
    var m := SpanLength(t, p);
    forall i | 0 <= i < m + 1 ensures p(s[i]) {
      if i > 0 {
        assert s[i] == t[i - 1];
      }
    }
    if m + 1 < |s| {
      assert s[m + 1] == t[m];
    }
    SpanLengthExactly(s, p, m + 1);
  }

  /** The start of the run of `p`-characters of `s` that ends at `j`. */
  function BackSpanStart(s: string, p: char -> bool, j: nat): (n: nat)
    requires j <= |s|
    ensures n <= j
  {
    if j > 0 && p(s[j - 1]) then BackSpanStart(s, p, j - 1) else j
  }

  /** The length of the longest suffix of `s` whose characters satisfy `p`. */
  function BackSpanLength(s: string, p: char -> bool): (n: nat)
    ensures n <= |s|
  {
    |s| - BackSpanStart(s, p, |s|)
  }

  lemma {:induction false} BackSpanStartIsMaximal(s: string, p: char -> bool, j: nat)
    requires j <= |s|
    ensures forall k :: BackSpanStart(s, p, j) <= k < j ==> p(s[k])
    ensures BackSpanStart(s, p, j) == 0 || !p(s[BackSpanStart(s, p, j) - 1])
  {
    if j > 0 && p(s[j - 1]) {
      BackSpanStartIsMaximal(s, p, j - 1);
    }
  }

  /** The back span is the longest `p`-suffix. */
  lemma BackSpanLengthIsMaximal(s: string, p: char -> bool)
    ensures forall i :: |s| - BackSpanLength(s, p) <= i < |s| ==> p(s[i])
    ensures BackSpanLength(s, p) == |s| || !p(s[|s| - BackSpanLength(s, p) - 1])
  {
    BackSpanStartIsMaximal(s, p, |s|);
  }

  /** Drops the longest prefix whose characters satisfy `p` (`replace(/^p+/, "")`). */
  function DropWhile(s: string, p: char -> bool): string {
    s[SpanLength(s, p)..]
  }

  /** Drops the longest suffix whose characters satisfy `p` (`replace(/p+$/, "")`). */
  function DropLastWhile(s: string, p: char -> bool): string {
    s[..|s| - BackSpanLength(s, p)]
  }

  /** `String.prototype.trim`. */
  function Trim(s: string): string {
    DropLastWhile(DropWhile(s, IsSpace), IsSpace)
  }

  /** The trimmed string neither starts nor ends with `p`-characters, and is a substring of `s`. */
  lemma TrimShape(s: string, p: char -> bool)
    ensures var r := DropLastWhile(DropWhile(s, p), p);
      && (r == [] || (!p(r[0]) && !p(r[|r| - 1])))
      && OccursAt(s, r, SpanLength(s, p))
  {
    var t := DropWhile(s, p);
    var r := DropLastWhile(t, p);
    SpanLengthIsMaximal(s, p);
    BackSpanLengthIsMaximal(t, p);
    if r != [] {
      assert r[0] == t[0];
    }
    assert s[SpanLength(s, p)..SpanLength(s, p) + |r|] == r;
  }

  /**
   * `replace(/p+/g, [c])`: every maximal run of characters satisfying `p`
   * becomes the single character `c`.
   */
  function ReplaceRuns(s: string, p: char -> bool, c: char): string
    decreases |s|
  {
    if s == [] then []
    else if p(s[0]) then [c] + ReplaceRuns(DropWhile(s, p), p, c)
    else [s[0]] + ReplaceRuns(s[1..], p, c)
  }

  /** Every `p`-character of `s` is `c`, and no two `p`-characters are adjacent. */
  predicate RunsCollapsed(s: string, p: char -> bool, c: char) {
    && (forall i :: 0 <= i < |s| && p(s[i]) ==> s[i] == c)
    && (forall i :: 0 <= i < |s| - 1 ==> !(p(s[i]) && p(s[i + 1])))
  }

  /** A slice of a string whose runs are collapsed has its runs collapsed. */
  lemma RunsCollapsedSlice(s: string, p: char -> bool, c: char, lo: nat, hi: nat)
    requires RunsCollapsed(s, p, c) && lo <= hi <= |s|
    ensures RunsCollapsed(s[lo..hi], p, c)
  {
    var t := s[lo..hi];
    forall i | 0 <= i < |t| - 1 ensures !(p(t[i]) && p(t[i + 1])) {
      assert t[i] == s[lo + i] && t[i + 1] == s[lo + i + 1];
    }
    forall i | 0 <= i < |t| && p(t[i]) ensures t[i] == c {
      assert t[i] == s[lo + i];
    }
  }

  /** After `ReplaceRuns`, the only `p`-character left is `c`, and never twice in a row. */
  lemma {:induction false} ReplaceRunsCollapses(s: string, p: char -> bool, c: char)
    requires p(c)
    ensures RunsCollapsed(ReplaceRuns(s, p, c), p, c)
    ensures ReplaceRuns(s, p, c) == [] <==> s == []
    ensures s != [] ==> p(ReplaceRuns(s, p, c)[0]) == p(s[0])
    decreases |s|
  {
    if s == [] {
    } else if p(s[0]) {
      var t := DropWhile(s, p);
      SpanLengthIsMaximal(s, p);
      ReplaceRunsCollapses(t, p, c);
      var r := ReplaceRuns(t, p, c);
      assert ReplaceRuns(s, p, c) == [c] + r;
      assert r != [] ==> !p(r[0]);
    } else {
      ReplaceRunsCollapses(s[1..], p, c);
    }
  }

  /** `DropWhile` leaves a string that does not start with a `p`-character unchanged. */
  lemma DropWhileNoop(s: string, p: char -> bool)
    requires s == [] || !p(s[0])
    ensures DropWhile(s, p) == s && DropLastWhile(s, p) == s[..|s| - BackSpanLength(s, p)]
  {
  }

  /** `ReplaceRuns` leaves a string whose runs are already collapsed unchanged. */
  lemma {:induction false} ReplaceRunsFixed(s: string, p: char -> bool, c: char)
    requires RunsCollapsed(s, p, c)
    ensures ReplaceRuns(s, p, c) == s
    decreases |s|
  {
    if s != [] {
      RunsCollapsedSlice(s, p, c, 1, |s|);
      if p(s[0]) {
        assert SpanLength(s, p) == 1 by {
          assert |s| > 1 ==> !p(s[1]);
          SpanLengthCons(s, p);
        }
        assert DropWhile(s, p) == s[1..];
      }
      ReplaceRunsFixed(s[1..], p, c);
    }
  }

  /** The characters of `s` that do not satisfy `p`, in order. */
  function Others(s: string, p: char -> bool): string {
    if s == [] then [] else (if p(s[0]) then [] else [s[0]]) + Others(s[1..], p)
  }

  lemma {:induction false} OthersOfDropped(s: string, p: char -> bool)
    ensures Others(DropWhile(s, p), p) == Others(s, p)
    decreases |s|
  {
    if s != [] && p(s[0]) {
      OthersOfDropped(s[1..], p);
      SpanLengthCons(s, p);
      assert s[1..][SpanLength(s[1..], p)..] == s[1 + SpanLength(s[1..], p)..];
    }
  }

  /** `ReplaceRuns` keeps every other character, in order. */
  lemma {:induction false} ReplaceRunsKeepsOthers(s: string, p: char -> bool, c: char)
    requires p(c)
    ensures Others(ReplaceRuns(s, p, c), p) == Others(s, p)
    decreases |s|
  {
    if s == [] {
    } else if p(s[0]) {
      var t := DropWhile(s, p);
      ReplaceRunsKeepsOthers(t, p, c);
      OthersOfDropped(s, p);
      assert ([c] + ReplaceRuns(t, p, c))[1..] == ReplaceRuns(t, p, c);
    } else {
      ReplaceRunsKeepsOthers(s[1..], p, c);
      assert ([s[0]] + ReplaceRuns(s[1..], p, c))[1..] == ReplaceRuns(s[1..], p, c);
    }
  }

  /** Trimming `q`-characters from both ends keeps the runs of a string collapsed. */
  lemma TrimKeepsRunsCollapsed(s: string, p: char -> bool, q: char -> bool, c: char)
    requires RunsCollapsed(s, p, c)
    ensures RunsCollapsed(DropLastWhile(DropWhile(s, q), q), p, c)
  {
    var t := DropWhile(s, q);
    RunsCollapsedSlice(s, p, c, SpanLength(s, q), |s|);
    RunsCollapsedSlice(t, p, c, 0, |t| - BackSpanLength(t, q));
  }

  // ---------------------------------------------------------------------------
  // Search
  // ---------------------------------------------------------------------------

  /** `q` occurs in `s` at position `i`. */
  predicate OccursAt(s: string, q: string, i: nat) {
    i + |q| <= |s| && s[i..i + |q|] == q
  }

  /** `s.indexOf(q, from)`, with `None` for -1. */
  function IndexFrom(s: string, q: string, from: nat): (r: Option<nat>)
    decreases |s| - from
    ensures r.Some? ==> from <= r.value && OccursAt(s, q, r.value)
    ensures r.Some? ==> forall j :: from <= j < r.value ==> !OccursAt(s, q, j)
    ensures r.None? ==> forall j :: from <= j ==> !OccursAt(s, q, j)
  {
    if from + |q| > |s| then None
    else if s[from..from + |q|] == q then Some(from)
    else IndexFrom(s, q, from + 1)
  }

  /** `s.indexOf(q)`: the first position at which `q` occurs. */
  function IndexOf(s: string, q: string): Option<nat> {
    IndexFrom(s, q, 0)
  }

  /** `s.indexOf(q)` for a one-character `q` finds the first position holding that character. */
  lemma IndexOfCharFound(s: string, q: string)
    requires |q| == 1 && IndexOf(s, q).Some?
    ensures var j := IndexOf(s, q).value; j < |s| && s[j] == q[0] && q[0] !in s[..j]
  {
    var j := IndexOf(s, q).value;
    assert s[j..j + 1] == q;
    forall i | 0 <= i < j
      ensures s[i] != q[0]
    {
      assert !OccursAt(s, q, i);
      assert s[i..i + 1] == [s[i]];
    }
  }

  /** The first position holding the character of a one-character `q` is what `s.indexOf(q)` gives. */
  lemma IndexOfCharAt(s: string, q: string, j: nat)
    requires |q| == 1 && j < |s| && s[j] == q[0] && q[0] !in s[..j]
    ensures IndexOf(s, q) == Some(j)
  {
    assert OccursAt(s, q, j) by { assert s[j..j + 1] == [q[0]] == q; }
    forall k | 0 <= k < j
      ensures !OccursAt(s, q, k)
    {
      assert s[..j][k] == s[k];
    }
  }

  /** `s.includes(q)`: `q` occurs somewhere in `s`. */
  predicate Contains(s: string, q: string) {
    exists i :: 0 <= i <= |s| - |q| && OccursAt(s, q, i)
  }

  /** `s.startsWith(q)`. */
  predicate StartsWith(s: string, q: string) {
    q <= s
  }

  /** `indexOf` finds a position exactly when `includes` holds. */
  lemma IndexOfIffContains(s: string, q: string)
    ensures IndexOf(s, q).Some? <==> Contains(s, q)
  {
    if Contains(s, q) {
      var i :| 0 <= i <= |s| - |q| && OccursAt(s, q, i);
    }
  }

  lemma ContainsIff(s: string, q: string, i: nat)
    ensures OccursAt(s, q, i) ==> Contains(s, q)
  {
  }

  lemma StartsWithContains(s: string, q: string)
    requires StartsWith(s, q)
    ensures Contains(s, q)
  {
    assert OccursAt(s, q, 0);
  }

  /** An occurrence of an occurrence is an occurrence. */
  lemma OccursTransitive(s: string, q: string, w: string, i: nat, j: nat)
    requires OccursAt(s, q, i) && OccursAt(q, w, j)
    ensures OccursAt(s, w, i + j)
  {
    forall k | 0 <= k < |w| ensures s[i + j + k] == w[k] {
      assert q[j + k] == w[k];
      assert s[i + (j + k)] == q[j + k];
    }
    assert s[i + j..i + j + |w|] == w;
  }

  lemma ContainsTransitive(s: string, q: string, w: string)
    requires Contains(s, q) && Contains(q, w)
    ensures Contains(s, w)
  {
    var i :| 0 <= i <= |s| - |q| && OccursAt(s, q, i);
    var j :| 0 <= j <= |q| - |w| && OccursAt(q, w, j);
    OccursTransitive(s, q, w, i, j);
  }

  // ---------------------------------------------------------------------------
  // Splitting and joining
  // ---------------------------------------------------------------------------

  /**
   * `s.split(/\s+/).filter(Boolean)`: the maximal runs of non-space
   * characters of `s`, in order.
   */
  function Terms(s: string): seq<string>
    decreases |s|
  {
    var t := DropWhile(s, IsSpace);
    if t == [] then []
    else
      SpanLengthIsMaximal(s, IsSpace);
      var n := SpanLength(t, NotSpace);
      [t[..n]] + Terms(t[n..])
  }

  /** An occurrence in a suffix of `s` is an occurrence in `s`. */
  lemma OccursInSuffix(s: string, k: nat, w: string, j: nat)
    requires k <= |s| && OccursAt(s[k..], w, j)
    ensures OccursAt(s, w, k + j)
  {
    assert s[k..][j..j + |w|] == s[k + j..k + j + |w|];
  }

  /** Every term is non-empty and free of spaces. */
  lemma {:induction false} TermsAreWords(s: string)
    ensures forall k :: 0 <= k < |Terms(s)| ==> Terms(s)[k] != [] && NoneSatisfy(Terms(s)[k], IsSpace)
    decreases |s|
  {
    var t := DropWhile(s, IsSpace);
    if t != [] {
      var n := SpanLength(t, NotSpace);
      SpanLengthIsMaximal(s, IsSpace);
      SpanLengthIsMaximal(t, NotSpace);
      TermsAreWords(t[n..]);
      assert Terms(s) == [t[..n]] + Terms(t[n..]);
    }
  }

  /** One step of `Terms`: the first word of `s`, at `off`, and what follows it. */
  lemma TermsStep(s: string) returns (off: nat, n: nat)
    requires DropWhile(s, IsSpace) != []
    ensures off + n <= |s| && n > 0
    ensures Terms(s) == [s[off..off + n]] + Terms(s[off + n..])
  {
    var t := DropWhile(s, IsSpace);
    off := SpanLength(s, IsSpace);
    n := SpanLength(t, NotSpace);
    SpanLengthIsMaximal(s, IsSpace);
    SpanLengthIsMaximal(t, NotSpace);
    assert t[..n] == s[off..off + n];
    assert t[n..] == s[off + n..];
  }

  /** A word of `s` followed by words of a later suffix of `s` are all substrings of `s`. */
  lemma ConsOccur(s: string, off: nat, n: nat, ts: seq<string>)
    requires off + n <= |s|
    requires forall w :: w in ts ==> Contains(s[off + n..], w)
    ensures forall w :: w in [s[off..off + n]] + ts ==> Contains(s, w)
  {
    assert OccursAt(s, s[off..off + n], off);
    forall w | w in ts ensures Contains(s, w) {
      var j :| 0 <= j <= |s[off + n..]| - |w| && OccursAt(s[off + n..], w, j);
      OccursInSuffix(s, off + n, w, j);
    }
  }

  /** Every term is a substring of `s`. */
  lemma {:induction false} TermsOccur(s: string)
    ensures forall w :: w in Terms(s) ==> Contains(s, w)
    decreases |s|
  {
    if DropWhile(s, IsSpace) != [] {
      var off, n := TermsStep(s);
      TermsOccur(s[off + n..]);
      ConsOccur(s, off, n, Terms(s[off + n..]));
    }
  }

  /** A string that starts with a non-space character has a first term, a prefix of it. */
  lemma TermsOfTrimmed(s: string)
    requires s != [] && !IsSpace(s[0])
    ensures |Terms(s)| > 0 && StartsWith(s, Terms(s)[0])
  {
  }

  /** `s.split(/\r?\n/)`. */
  function SplitLines(text: string): (r: seq<string>)
    ensures |r| >= 1
    decreases |text|
  {
    match IndexOf(text, "\n")
    case None => [text]
    case Some(i) => [DropCarriageReturn(text[..i])] + SplitLines(text[i + 1..])
  }

  /** Removes one trailing `\r`, the optional half of the `\r?\n` separator. */
  function DropCarriageReturn(s: string): string {
    if s != [] && s[|s| - 1] == '\r' then s[..|s| - 1] else s
  }

  /** The number of `\n` characters in `s`. */
  function CountNewlines(s: string): nat {
    if s == [] then 0 else (if s[0] == '\n' then 1 else 0) + CountNewlines(s[1..])
  }

  lemma {:induction false} CountNewlinesAppend(a: string, b: string)
    ensures CountNewlines(a + b) == CountNewlines(a) + CountNewlines(b)
    decreases |a|
  {
    if a == [] {
      assert a + b == b;
    } else {
      assert (a + b)[0] == a[0];
      assert (a + b)[1..] == a[1..] + b;
      CountNewlinesAppend(a[1..], b);
    }
  }

  lemma {:induction false} NoNewlineCount(s: string)
    requires forall j :: 0 <= j < |s| ==> s[j] != '\n'
    ensures CountNewlines(s) == 0
    decreases |s|
  {
    if s != [] {
      NoNewlineCount(s[1..]);
    }
  }

  /** Splitting yields one more line than there are `\n`, none of which holds a `\n`. */
  lemma {:induction false} SplitLinesShape(text: string)
    ensures |SplitLines(text)| == CountNewlines(text) + 1
    ensures forall k, j :: 0 <= k < |SplitLines(text)| && 0 <= j < |SplitLines(text)[k]| ==> SplitLines(text)[k][j] != '\n'
    decreases |text|
  {
    match IndexOf(text, "\n")
    case None =>
      forall j | 0 <= j < |text| ensures text[j] != '\n' {
        assert !OccursAt(text, "\n", j);
      }
      NoNewlineCount(text);
    case Some(i) =>
      SplitLinesShape(text[i + 1..]);
      forall j | 0 <= j < i ensures text[j] != '\n' {
        assert !OccursAt(text, "\n", j);
      }
      assert OccursAt(text, "\n", i);
      assert text == text[..i] + [text[i]] + text[i + 1..];
      NoNewlineCount(text[..i]);
      CountNewlinesAppend(text[..i] + [text[i]], text[i + 1..]);
      CountNewlinesAppend(text[..i], [text[i]]);
  }

  /** `parts.join(sep)`. */
  function Join(parts: seq<string>, sep: string): string {
    if parts == [] then []
    else if |parts| == 1 then parts[0]
    else parts[0] + sep + Join(parts[1..], sep)
  }

  // ---------------------------------------------------------------------------
  // Decimal numerals
  // ---------------------------------------------------------------------------

  function DigitChar(d: nat): char
    requires d < 10
  {
    "0123456789"[d]
  }

  /** The decimal numeral JavaScript writes for a non-negative integer. */
  function NatToString(n: nat): (r: string)
    ensures r != []
    ensures forall i :: 0 <= i < |r| ==> '0' <= r[i] <= '9'
  {
    if n < 10 then [DigitChar(n)] else NatToString(n / 10) + [DigitChar(n % 10)]
  }

  /** The value of a string of decimal digits. */
  function ParseDecimal(s: string): int
    requires forall i :: 0 <= i < |s| ==> '0' <= s[i] <= '9'
  {
    if s == [] then 0 else 10 * ParseDecimal(s[..|s| - 1]) + (s[|s| - 1] as int - '0' as int)
  }

  /** Reading back a numeral gives the number written. */
  lemma {:induction false} NatToStringRoundTrip(n: nat)
    ensures ParseDecimal(NatToString(n)) == n
  {
    if n >= 10 {
      NatToStringRoundTrip(n / 10);
      var r := NatToString(n);
      assert r[..|r| - 1] == NatToString(n / 10);
    }
  }

  /** The decimal numeral JavaScript writes for an integer, with a leading `-` when negative. */
  function IntToString(n: int): string {
    if n < 0 then "-" + NatToString(-n) else NatToString(n)
  }
}
