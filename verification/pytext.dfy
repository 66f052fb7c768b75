/**
 * Python string semantics used throughout the application: `in`, `find`,
 * `startswith`, `replace`, `split(sep)`, whitespace `split()`, `strip()`,
 * `lower()`, `join`, `isdigit()`, `capitalize()`, prefix slices and the
 * decimal rendering of integers inside f-strings.
 *
 * `lower()`, `capitalize()` and `isdigit()` are modelled on ASCII letters and
 * digits only; whitespace is the full set of characters `str.isspace()` accepts.
 */
module PyText {
  import opened Wrappers

  // ---------------------------------------------------------------------------
  // Characters
  // ---------------------------------------------------------------------------

  /** The characters for which Python's `str.isspace()` holds (also regex `\s`). */
  predicate IsSpace(c: char) {
    c == ' ' || ('\t' <= c <= '\r') || ('\U{1C}' <= c <= '\U{1F}')
    || c == '\U{85}' || c == '\U{A0}' || c == '\U{1680}'
    || ('\U{2000}' <= c <= '\U{200A}') || c == '\U{2028}' || c == '\U{2029}'
    || c == '\U{202F}' || c == '\U{205F}' || c == '\U{3000}'
  }

  predicate IsDigit(c: char) {
    '0' <= c <= '9'
  }

  predicate IsUpper(c: char) {
    'A' <= c <= 'Z'
  }

  /** Regex `\w`, restricted to ASCII letters, digits and underscore. */
  predicate IsWordChar(c: char) {
    ('a' <= c <= 'z') || ('A' <= c <= 'Z') || IsDigit(c) || c == '_'
  }

  function LowerChar(c: char): (d: char)
    ensures !IsUpper(d)
    ensures IsUpper(c) ==> d as int == c as int + 32
    ensures !IsUpper(c) ==> d == c
  {
    if IsUpper(c) then (c as int + 32) as char else c
  }

  function UpperChar(c: char): (d: char)
    ensures 'a' <= c <= 'z' ==> IsUpper(d) && LowerChar(d) == c
    ensures !('a' <= c <= 'z') ==> d == c
  {
    if 'a' <= c <= 'z' then (c as int - 32) as char else c
  }

  // ---------------------------------------------------------------------------
  // Substrings
  // ---------------------------------------------------------------------------

  /** `p` occurs in `s` starting at index `i`. */
  predicate OccursAt(s: string, p: string, i: int) {
    0 <= i && i + |p| <= |s| && s[i..i + |p|] == p
  }

  /** Python `p in s`. */
  predicate Contains(s: string, p: string) {
    exists i :: 0 <= i <= |s| - |p| && OccursAt(s, p, i)
  }

  /** `s.find(p, i)`: the first occurrence of `p` at or after `i`. */
  function FindFrom(s: string, p: string, i: nat): (r: Option<nat>)
    ensures r.Some? ==> i <= r.value && OccursAt(s, p, r.value)
    ensures r.Some? ==> forall j :: i <= j < r.value ==> !OccursAt(s, p, j)
    ensures r.None? ==> forall j :: i <= j ==> !OccursAt(s, p, j)
    decreases |s| - i
  {
    if i + |p| > |s| then None
    else if s[i..i + |p|] == p then Some(i)
    else FindFrom(s, p, i + 1)
  }

  /** `s.find(p)`, with `None` for Python's -1. */
  function Find(s: string, p: string): (r: Option<nat>)
    ensures r.Some? <==> Contains(s, p)
    ensures r.Some? ==> OccursAt(s, p, r.value)
    ensures r.Some? ==> forall j :: 0 <= j < r.value ==> !OccursAt(s, p, j)
  {
    FindFrom(s, p, 0)
  }

  predicate StartsWith(s: string, p: string) {
    |p| <= |s| && s[..|p|] == p
  }

  predicate EndsWith(s: string, p: string) {
    |p| <= |s| && s[|s| - |p|..] == p
  }

  /** An occurrence inside a prefix of `s` is an occurrence in `s`. */
  lemma OccursInPrefix(s: string, p: string, n: nat, j: int)
    requires n <= |s|
    requires OccursAt(s[..n], p, j)
    ensures OccursAt(s, p, j)
  {
    assert s[..n][j..j + |p|] == s[j..j + |p|];
  }

  /** An occurrence inside a suffix of `s` is an occurrence in `s`, shifted. */
  lemma OccursInSuffix(s: string, p: string, n: nat, j: int)
    requires n <= |s|
    requires OccursAt(s[n..], p, j)
    ensures OccursAt(s, p, n + j)
  {
    assert s[n..][j..j + |p|] == s[n + j..n + j + |p|];
  }

  /**
   * When `p` does not occur in the first `n` positions of `s`, its first
   * occurrence in `s` is its first occurrence in `s[n..]`, shifted by `n`.
   */
  lemma FindPastPrefix(s: string, p: string, n: nat)
    requires n <= |s| && forall j :: 0 <= j < n ==> !OccursAt(s, p, j)
    ensures Find(s, p).Some? <==> Find(s[n..], p).Some?
    ensures Find(s, p).Some? ==> Find(s, p).value == n + Find(s[n..], p).value
  {
    forall j | 0 <= j ensures OccursAt(s[n..], p, j) <==> OccursAt(s, p, n + j) {
      if n + j + |p| <= |s| {
        assert s[n..][j..j + |p|] == s[n + j..n + j + |p|];
      }
    }
    match Find(s, p)
    case None =>
    case Some(k) =>
      assert k >= n;
      assert OccursAt(s[n..], p, k - n);
      var k' := Find(s[n..], p).value;
      assert OccursAt(s, p, n + k');
  }

  /** What a prefix of `s` contains, `s` contains. */
  lemma ContainsInPrefix(s: string, p: string, n: nat)
    requires n <= |s| && Contains(s[..n], p)
    ensures Contains(s, p)
  {
    var j :| 0 <= j <= |s[..n]| - |p| && OccursAt(s[..n], p, j);
    OccursInPrefix(s, p, n, j);
  }

  /** What a suffix of `s` contains, `s` contains. */
  lemma ContainsInSuffix(s: string, p: string, n: nat)
    requires n <= |s| && Contains(s[n..], p)
    ensures Contains(s, p)
  {
    var j :| 0 <= j <= |s[n..]| - |p| && OccursAt(s[n..], p, j);
    OccursInSuffix(s, p, n, j);
  }

  /** A string with `p` as a prefix contains `p`. */
  lemma StartsWithContains(s: string, p: string)
    requires StartsWith(s, p)
    ensures Contains(s, p)
  {
    assert OccursAt(s, p, 0);
  }

  // ---------------------------------------------------------------------------
  // Replacement
  // ---------------------------------------------------------------------------

  /**
   * `s.replace(p, r)` for a non-empty `p`: every non-overlapping occurrence,
   * scanning left to right, is replaced.
   */
  function ReplaceAll(s: string, p: string, r: string): (t: string)
    requires |p| > 0
    ensures !Contains(s, p) ==> t == s
    ensures Contains(s, p) && |r| < |p| ==> |t| < |s|
    decreases |s|
  {
    match Find(s, p)
    case None => s
    case Some(i) => s[..i] + r + ReplaceAll(s[i + |p|..], p, r)
  }

  /** `s.replace(p, r, 1)`: only the first occurrence is replaced. */
  function ReplaceFirst(s: string, p: string, r: string): (t: string)
    ensures !Contains(s, p) ==> t == s
    ensures StartsWith(s, p) ==> t == r + s[|p|..]
  {
    match Find(s, p)
    case None => s
    case Some(i) =>
      assert StartsWith(s, p) ==> i == 0 by {
        if StartsWith(s, p) { assert OccursAt(s, p, 0); }
      }
      s[..i] + r + s[i + |p|..]
  }

  // ---------------------------------------------------------------------------
  // Splitting and joining
  // ---------------------------------------------------------------------------

  /** `sep.join(parts)`. */
  function Join(parts: seq<string>, sep: string): string {
    if |parts| == 0 then ""
    else if |parts| == 1 then parts[0]
    else parts[0] + sep + Join(parts[1..], sep)
  }

  /**
   * `s.split(sep)` for a non-empty separator: the pieces between consecutive
   * occurrences; joining them back with `sep` gives `s`, and no piece holds `sep`.
   */
  function Split(s: string, sep: string): (parts: seq<string>)
    requires |sep| > 0
    ensures |parts| >= 1
    ensures Join(parts, sep) == s
    ensures forall k :: 0 <= k < |parts| ==> !Contains(parts[k], sep)
    ensures !Contains(s, sep) <==> |parts| == 1
    decreases |s|
  {
    match Find(s, sep)
    case None => [s]
    case Some(i) =>
      var rest := Split(s[i + |sep|..], sep);
      SplitStep(s, sep, i);
      JoinCons(s[..i], rest, sep);
      [s[..i]] + rest
  }

  lemma SplitStep(s: string, sep: string, i: nat)
    requires |sep| > 0 && Find(s, sep) == Some(i)
    ensures s == s[..i] + sep + s[i + |sep|..]
    ensures !Contains(s[..i], sep)
  {
    forall j | 0 <= j <= i - |sep| && OccursAt(s[..i], sep, j)
      ensures false
    {
      OccursInPrefix(s, sep, i, j);
    }
  }

  lemma JoinCons(x: string, rest: seq<string>, sep: string)
    requires |rest| >= 1
    ensures Join([x] + rest, sep) == x + sep + Join(rest, sep)
  {
    assert ([x] + rest)[1..] == rest;
  }

  /** The first piece of a split is the text before the first separator. */
  lemma SplitHead(s: string, sep: string)
    requires |sep| > 0
    ensures Find(s, sep).None? ==> Split(s, sep)[0] == s
    ensures Find(s, sep).Some? ==> Split(s, sep)[0] == s[..Find(s, sep).value]
  {
  }

  /** `s.split(sep)[1]`: the text between the first and second occurrence, if any. */
  function SplitSecond(s: string, sep: string): (r: Option<string>)
    requires |sep| > 0
    ensures r.Some? <==> Contains(s, sep)
  {
    var parts := Split(s, sep);
    if |parts| >= 2 then Some(parts[1]) else None
  }

  /** The second piece runs from the end of the first separator to the next one, or to the end. */
  lemma SplitSecondValue(s: string, sep: string)
    requires |sep| > 0 && Contains(s, sep)
    ensures var rest := s[Find(s, sep).value + |sep|..];
            SplitSecond(s, sep).value == if Find(rest, sep).None? then rest else rest[..Find(rest, sep).value]
  {
    SplitHead(s[Find(s, sep).value + |sep|..], sep);
  }

  /** `s.split(sep)[-1]`: the text after the last occurrence, or `s` itself. */
  function SplitLast(s: string, sep: string): (r: string)
    requires |sep| > 0
    ensures !Contains(r, sep)
    ensures EndsWith(s, r)
  {
    var parts := Split(s, sep);
    JoinEndsWithLast(parts, sep);
    parts[|parts| - 1]
  }

  lemma JoinEndsWithLast(parts: seq<string>, sep: string)
    requires |parts| >= 1
    ensures EndsWith(Join(parts, sep), parts[|parts| - 1])
  {
    if |parts| > 1 {
      JoinEndsWithLast(parts[1..], sep);
      var j := Join(parts[1..], sep);
      var l := parts[|parts| - 1];
      assert j[|j| - |l|..] == l;
      var whole := parts[0] + sep + j;
      assert whole[|whole| - |l|..] == j[|j| - |l|..];
    }
  }

  /** `s.split()`: the maximal runs of non-whitespace characters, in order. */
  function SplitWs(s: string): (words: seq<string>)
    ensures forall k :: 0 <= k < |words| ==> |words[k]| > 0 && NoSpace(words[k])
    ensures Concat(words) == DropSpaces(s)
    decreases |s|
  {
    if |s| == 0 then []
    else if IsSpace(s[0]) then SplitWs(s[1..])
    else
      var n := WordLength(s);
      DropSpacesAppend(s[..n], s[n..]);
      assert s == s[..n] + s[n..];
      [s[..n]] + SplitWs(s[n..])
  }

  /** Length of the leading run of non-whitespace characters. */
  function WordLength(s: string): (n: nat)
    ensures n <= |s|
    ensures NoSpace(s[..n])
    ensures n < |s| ==> IsSpace(s[n])
    ensures |s| > 0 && !IsSpace(s[0]) ==> n > 0
    ensures DropSpaces(s[..n]) == s[..n]
  {
    if |s| == 0 || IsSpace(s[0]) then 0
    else
      var m := WordLength(s[1..]);
      assert s[..m + 1] == [s[0]] + s[1..][..m];
      m + 1
  }

  predicate NoSpace(s: string) {
    forall k :: 0 <= k < |s| ==> !IsSpace(s[k])
  }

  /** The characters of `s` that are not whitespace, in order. */
  function DropSpaces(s: string): string {
    if |s| == 0 then ""
    else if IsSpace(s[0]) then DropSpaces(s[1..])
    else [s[0]] + DropSpaces(s[1..])
  }

  function Concat(words: seq<string>): string {
    if |words| == 0 then "" else words[0] + Concat(words[1..])
  }

  lemma DropSpacesAppend(a: string, b: string)
    ensures DropSpaces(a + b) == DropSpaces(a) + DropSpaces(b)
  {
    if |a| > 0 {
      assert (a + b)[1..] == a[1..] + b;
      DropSpacesAppend(a[1..], b);
    } else {
      assert a + b == b;
    }
  }

  // ---------------------------------------------------------------------------
  // Stripping and case
  // ---------------------------------------------------------------------------

  predicate AllSpace(s: string) {
    forall k :: 0 <= k < |s| ==> IsSpace(s[k])
  }

  /** The number of whitespace characters `s` starts with. */
  function LeadingSpaces(s: string): (n: nat)
    ensures n <= |s|
    ensures forall k :: 0 <= k < n ==> IsSpace(s[k])
    ensures n < |s| ==> !IsSpace(s[n])
    decreases |s|
  {
    if |s| > 0 && IsSpace(s[0]) then
      var m := LeadingSpaces(s[1..]);
      assert forall k :: 1 <= k < m + 1 ==> s[k] == s[1..][k - 1];
      m + 1
    else 0
  }

  /** The number of whitespace characters `s` ends with. */
  function TrailingSpaces(s: string): (n: nat)
    ensures n <= |s|
    ensures forall k :: |s| - n <= k < |s| ==> IsSpace(s[k])
    ensures n < |s| ==> !IsSpace(s[|s| - n - 1])
    decreases |s|
  {
    if |s| > 0 && IsSpace(s[|s| - 1]) then
      var m := TrailingSpaces(s[..|s| - 1]);
      assert forall k :: |s| - 1 - m <= k < |s| - 1 ==> s[k] == s[..|s| - 1][k];
      m + 1
    else 0
  }

  /** `s.lstrip()`. */
  function LStrip(s: string): (t: string)
    ensures |t| <= |s| && t == s[|s| - |t|..]
    ensures AllSpace(s[..|s| - |t|])
    ensures |t| > 0 ==> !IsSpace(t[0])
  {
    var n := LeadingSpaces(s);
    assert forall k :: 0 <= k < n ==> s[..n][k] == s[k];
    s[n..]
  }

  /** `s.rstrip()`. */
  function RStrip(s: string): (t: string)
    ensures |t| <= |s| && t == s[..|t|]
    ensures AllSpace(s[|t|..])
    ensures |t| > 0 ==> !IsSpace(t[|t| - 1])
  {
    var n := TrailingSpaces(s);
    var m := |s| - n;
    assert forall k :: 0 <= k < n ==> s[m..][k] == s[m + k];
    s[..m]
  }

  /**
   * `s.strip()`: `s` without its leading and trailing whitespace; the result
   * is empty exactly when `s` is all whitespace, and otherwise starts and
   * ends with a non-space character.
   */
  function Strip(s: string): (t: string)
    ensures |t| <= |s|
    ensures |t| > 0 ==> !IsSpace(t[0]) && !IsSpace(t[|t| - 1])
    ensures |t| == 0 <==> AllSpace(s)
  {
    StripEnds(s);
    RStrip(LStrip(s))
  }

  lemma StripEnds(s: string)
    ensures var t := RStrip(LStrip(s));
      (|t| > 0 ==> !IsSpace(t[0])) && (|t| == 0 <==> AllSpace(s))
  {
    StripFirst(s);
    StripEmptyIff(s);
  }

  /** The stripped text starts where the left-stripped one does. */
  lemma StripFirst(s: string)
    ensures |RStrip(LStrip(s))| > 0 ==> !IsSpace(RStrip(LStrip(s))[0])
  {
    var l := LStrip(s);
    if |RStrip(l)| > 0 {
      assert RStrip(l)[0] == l[0];
    }
  }

  lemma StripEmptyIff(s: string)
    ensures |RStrip(LStrip(s))| == 0 <==> AllSpace(s)
  {
    var l := LStrip(s);
    if |RStrip(l)| == 0 {
      RStripEmpty(l);
      AllSpaceSplit(s, |s| - |l|);
    } else {
      assert !AllSpace(s) by { assert s[|s| - |l|] == l[0]; }
    }
  }

  /** `rstrip()` empties only an all-whitespace text. */
  lemma RStripEmpty(l: string)
    requires |RStrip(l)| == 0
    ensures AllSpace(l)
  {
    assert l[|RStrip(l)|..] == l;
  }

  /** A text whose two pieces are all whitespace is all whitespace. */
  lemma AllSpaceSplit(s: string, k: nat)
    requires k <= |s| && AllSpace(s[..k]) && AllSpace(s[k..])
    ensures AllSpace(s)
  {
    forall i | 0 <= i < |s| ensures IsSpace(s[i]) {
      if i < k { assert s[..k][i] == s[i]; } else { assert s[k..][i - k] == s[i]; }
    }
  }

  /** `strip()` removes only whitespace, from the two ends. */
  lemma StripDecomposes(s: string)
    ensures exists p, q :: AllSpace(p) && AllSpace(q) && s == p + Strip(s) + q
  {
    var l := LStrip(s);
    var t := RStrip(l);
    var p := s[..|s| - |l|];
    var q := l[|t|..];
    Recompose(s, |s| - |l|, l, t, q);
    assert AllSpace(p) && AllSpace(q) && s == p + Strip(s) + q;
  }

  lemma Recompose(s: string, k: nat, l: string, t: string, q: string)
    requires k <= |s| && l == s[k..] && |t| <= |l| && t == l[..|t|] && q == l[|t|..]
    ensures s == s[..k] + t + q
  {
    assert l == t + q;
    assert s == s[..k] + l;
  }

  lemma AllSpaceAppend(x: string, y: string)
    requires AllSpace(x) && AllSpace(y)
    ensures AllSpace(x + y)
  {
    assert forall k :: 0 <= k < |x + y| ==> (x + y)[k] == if k < |x| then x[k] else y[k - |x|];
  }

  lemma StripIdempotent(s: string)
    ensures Strip(Strip(s)) == Strip(s)
  {
  }

  /** ASCII `s.lower()`. */
  function Lower(s: string): (t: string)
    ensures |t| == |s|
    ensures forall k :: 0 <= k < |s| ==> t[k] == LowerChar(s[k])
  {
    if |s| == 0 then "" else [LowerChar(s[0])] + Lower(s[1..])
  }

  lemma LowerIdempotent(s: string)
    ensures Lower(Lower(s)) == Lower(s)
  {
    var t := Lower(s);
    assert forall k :: 0 <= k < |t| ==> LowerChar(t[k]) == t[k];
  }

  /** ASCII `s.capitalize()`: first character upper case, the rest lower case. */
  function Capitalize(s: string): (t: string)
    ensures |t| == |s|
    ensures |s| > 0 ==> t[0] == UpperChar(s[0]) && t[1..] == Lower(s[1..])
  {
    if |s| == 0 then "" else [UpperChar(s[0])] + Lower(s[1..])
  }

  /** `s.isdigit()`: non-empty and made only of digits. */
  predicate IsDigits(s: string) {
    |s| > 0 && forall k :: 0 <= k < |s| ==> IsDigit(s[k])
  }

  /** `s[:n]` for a non-negative `n`. */
  function Take(s: string, n: nat): (t: string)
    ensures |t| == if n < |s| then n else |s|
    ensures StartsWith(s, t)
  {
    if n < |s| then s[..n] else s
  }

  // ---------------------------------------------------------------------------
  // Integers in f-strings
  // ---------------------------------------------------------------------------

  function DigitChar(d: nat): char
    requires d < 10
  {
    ('0' as int + d) as char
  }

  /** The decimal text Python prints for a non-negative integer. */
  function NatToString(n: nat): (s: string)
    ensures IsDigits(s)
    ensures |s| > 1 ==> s[0] != '0'
    ensures ParseDigits(s) == n
  {
    if n < 10 then [DigitChar(n)]
    else
      var prefix := NatToString(n / 10);
      ParseDigitsSnoc(prefix, DigitChar(n % 10));
      prefix + [DigitChar(n % 10)]
  }

  /** The value of a string of decimal digits (`int(s)` for `s.isdigit()`). */
  function ParseDigits(s: string): nat
    requires forall k :: 0 <= k < |s| ==> IsDigit(s[k])
  {
    if |s| == 0 then 0
    else
      assert IsDigit(s[|s| - 1]);
      10 * ParseDigits(s[..|s| - 1]) + (s[|s| - 1] as int - '0' as int)
  }

  lemma ParseDigitsSnoc(s: string, c: char)
    requires forall k :: 0 <= k < |s| ==> IsDigit(s[k])
    requires IsDigit(c)
    ensures forall k :: 0 <= k < |s + [c]| ==> IsDigit((s + [c])[k])
    ensures ParseDigits(s + [c]) == 10 * ParseDigits(s) + (c as int - '0' as int)
  {
    assert (s + [c])[..|s|] == s;
  }

  /** Distinct numbers print differently. */
  lemma NatToStringInjective(m: nat, n: nat)
    requires NatToString(m) == NatToString(n)
    ensures m == n
  {
  }
}
