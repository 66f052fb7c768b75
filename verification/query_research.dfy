/**
 * The counting core of `QueryResearch` (`services/llm/Agents/QueryResearch.py`):
 * keyword and theme extraction from response text, the relevance formula,
 * and the control flow of `research`. The content query and the index list
 * are inputs; relevance is an exact rational where the source uses a float.
 */
module QueryResearch {
  import opened Wrappers
  import opened PyText
  import Seqs
  import Tally

  // ---------------------------------------------------------------------------
  // Relevance
  // ---------------------------------------------------------------------------

  /** `_calculate_relevance`: 0.4 plus 0.6 times the share of the largest count. */
  function Relevance(count: int, maxCount: int): (r: real)
    ensures maxCount <= 0 ==> r == 0.0
    ensures maxCount > 0 && 0 <= count <= maxCount ==> 0.4 <= r <= 1.0
    ensures maxCount > 0 && count == maxCount ==> r == 1.0
  {
    if maxCount <= 0 then 0.0
    else
      var share := count as real / maxCount as real;
      ShareBounds(count, maxCount);
      0.4 + 0.6 * share
  }

  /** The share of the largest count is a fraction, and 1 for the largest count itself. */
  lemma ShareBounds(count: int, maxCount: int)
    requires maxCount > 0
    ensures 0 <= count <= maxCount ==> 0.0 <= count as real / maxCount as real <= 1.0
    ensures count == maxCount ==> count as real / maxCount as real == 1.0
  {
    var m := maxCount as real;
    var q := count as real / m;
    assert q * m == count as real;
  }

  /** A larger count never has a smaller relevance. */
  lemma RelevanceMonotone(a: int, b: int, maxCount: int)
    requires a <= b
    ensures Relevance(a, maxCount) <= Relevance(b, maxCount)
  {
    if maxCount > 0 {
      assert a as real / maxCount as real <= b as real / maxCount as real;
    }
  }

  /** The largest count of a non-empty Counter. */
  function MaxCount(c: seq<Tally.Counted>): (m: nat)
    requires |c| > 0
    ensures forall i :: 0 <= i < |c| ==> c[i].count <= m
    ensures exists i :: 0 <= i < |c| && c[i].count == m
  {
    if |c| == 1 then c[0].count
    else
      var m := MaxCount(c[1..]);
      assert forall i :: 1 <= i < |c| ==> c[i] == c[1..][i - 1];
      if c[0].count >= m then c[0].count else m
  }

  /** `max(counter.values()) if counter else 1`. */
  function MaxOr1(c: seq<Tally.Counted>): (m: int)
    ensures m >= 1 || |c| > 0
    ensures forall i :: 0 <= i < |c| ==> c[i].count <= m
  {
    if |c| == 0 then 1 else MaxCount(c)
  }

  // ---------------------------------------------------------------------------
  // Keywords
  // ---------------------------------------------------------------------------

  const StopWords: set<string> :=
    {"the", "a", "an", "and", "in", "on", "at", "to", "for", "with", "by", "of", "is", "are"}

  /** `re.sub(r'[^\w\s]', ' ', s)`: every character that is neither a word character nor whitespace becomes a space. */
  function Scrub(s: string): (t: string)
    ensures |t| == |s|
    ensures forall k :: 0 <= k < |s| ==> if IsWordChar(s[k]) || IsSpace(s[k]) then t[k] == s[k] else t[k] == ' '
  {
    seq(|s|, k requires 0 <= k < |s| => if IsWordChar(s[k]) || IsSpace(s[k]) then s[k] else ' ')
  }

  predicate KeptWord(w: string) {
    w !in StopWords && |w| > 3
  }

  /** The word list `_extract_keywords` counts. */
  function KeywordWords(text: string): (ws: seq<string>)
    ensures forall w :: w in ws ==> KeptWord(w) && LowerWord(w)
  {
    var words := SplitWs(Scrub(Lower(text)));
    forall w | w in words ensures LowerWord(w) {
      forall c | c in w ensures IsWordChar(c) && !IsUpper(c) {
        var k :| 0 <= k < |words| && words[k] == w;
        SplitWsChars(Scrub(Lower(text)), k, c);
      }
    }
    Seqs.Filter(words, KeptWord)
  }

  /**
   * Every stop word but "with" has at most three letters, so apart from
   * "with" the length test alone decides.
   */
  lemma StopWordsBesidesWith(words: seq<string>)
    ensures Seqs.Filter(words, KeptWord) == Seqs.Filter(words, (w: string) => |w| > 3 && w != "with")
  {
    Seqs.FilterExt(words, KeptWord, (w: string) => |w| > 3 && w != "with");
  }

  /** A keyword is made of lower-case word characters. */
  predicate LowerWord(w: string) {
    forall c :: c in w ==> IsWordChar(c) && !IsUpper(c)
  }

  /** A character of a whitespace-split word comes from the split text. */
  lemma {:induction false} SplitWsChars(s: string, k: nat, c: char)
    requires k < |SplitWs(s)| && c in SplitWs(s)[k]
    ensures c in s
    decreases |s|
  {
    if IsSpace(s[0]) {
      SplitWsChars(s[1..], k, c);
    } else {
      var n := WordLength(s);
      if k > 0 {
        SplitWsChars(s[n..], k - 1, c);
      }
    }
  }

  datatype Keyword = Keyword(word: string, count: nat, relevance: real)

  function AsKeyword(e: Tally.Counted, maxCount: int): Keyword {
    Keyword(e.key, e.count, Relevance(e.count, maxCount))
  }

  /** The Counter-entry test `count >= min_count`. */
  function AtLeast(minCount: int): Tally.Counted -> bool {
    (e: Tally.Counted) => e.count >= minCount
  }

  /** An entry of a Counter is one of the counted words with its number of occurrences. */
  lemma EntryOfCounts(ws: seq<string>, e: Tally.Counted)
    requires e in Tally.Counts(ws)
    ensures e.key in ws && e.count == Tally.Occ(ws, e.key) && e.count >= 1
    ensures e.count <= MaxOr1(Tally.Counts(ws))
  {
    var c := Tally.Counts(ws);
    var i :| 0 <= i < |c| && c[i] == e;
    assert e.key in Tally.Uniq(ws);
  }

  /** `[... for w, n in counter.most_common(limit) if n >= min_count]`. */
  function Select(c: seq<Tally.Counted>, limit: nat, minCount: int): (r: seq<Tally.Counted>)
    ensures |r| <= limit
    ensures forall e :: e in r ==> e in c && e.count >= minCount
    ensures Descending(r)
  {
    var top := Tally.MostCommon(c, limit);
    KeptOrder(top, minCount);
    Seqs.Filter(top, AtLeast(minCount))
  }

  /** `_extract_keywords(text, min_count, max_keywords)`. */
  function Keywords(text: string, minCount: int, maxKeywords: nat): seq<Keyword> {
    KeywordsOf(KeywordWords(text), minCount, maxKeywords)
  }

  /** The counting half of `_extract_keywords`, over the word list. */
  function KeywordsOf(ws: seq<string>, minCount: int, maxKeywords: nat): (r: seq<Keyword>)
    ensures |r| <= maxKeywords
    ensures forall i :: 0 <= i < |r| ==> CountedKeyword(ws, r[i]) && r[i].count >= minCount
    ensures forall i, j :: 0 <= i < j < |r| ==> r[i].count >= r[j].count
  {
    var c := Tally.Counts(ws);
    var kept := Select(c, maxKeywords, minCount);
    ChosenKeywords(ws, kept);
    Seqs.Map(kept, (e: Tally.Counted) => AsKeyword(e, MaxOr1(c)))
  }

  /** A keyword names a counted word with its number of occurrences and a relevance in [0.4, 1]. */
  predicate CountedKeyword(ws: seq<string>, k: Keyword) {
    k.word in ws && k.count == Tally.Occ(ws, k.word) && k.count >= 1 && 0.4 <= k.relevance <= 1.0
  }

  lemma ChosenKeywords(ws: seq<string>, chosen: seq<Tally.Counted>)
    requires forall e :: e in chosen ==> e in Tally.Counts(ws)
    ensures forall e :: e in chosen ==> CountedKeyword(ws, AsKeyword(e, MaxOr1(Tally.Counts(ws))))
  {
    forall e | e in chosen ensures CountedKeyword(ws, AsKeyword(e, MaxOr1(Tally.Counts(ws)))) {
      EntryOfCounts(ws, e);
    }
  }

  /** Keywords are lower-case words of more than three characters that are not stop words. */
  lemma KeywordShape(text: string, minCount: int, maxKeywords: nat, k: Keyword)
    requires k in Keywords(text, minCount, maxKeywords)
    ensures KeptWord(k.word) && LowerWord(k.word)
  {
    var r := Keywords(text, minCount, maxKeywords);
    var i :| 0 <= i < |r| && r[i] == k;
    assert CountedKeyword(KeywordWords(text), r[i]);
  }

  /** Entries sorted by descending count. */
  predicate Descending(s: seq<Tally.Counted>) {
    forall i, j :: 0 <= i < j < |s| ==> s[i].count >= s[j].count
  }

  /** Filtering a list sorted by descending count keeps it sorted. */
  lemma {:induction false} KeptOrder(top: seq<Tally.Counted>, minCount: int)
    requires Descending(top)
    ensures Descending(Seqs.Filter(top, AtLeast(minCount)))
    decreases |top|
  {
    if |top| > 0 {
      assert Descending(top[1..]);
      KeptOrder(top[1..], minCount);
      var rest := Seqs.Filter(top[1..], AtLeast(minCount));
      if AtLeast(minCount)(top[0]) {
        forall e | e in rest ensures top[0].count >= e.count {
          var k :| 0 <= k < |top[1..]| && top[1..][k] == e;
          assert top[k + 1] == e;
        }
        HeadOfDescending(top[0], rest);
      }
    }
  }

  lemma HeadOfDescending(x: Tally.Counted, rest: seq<Tally.Counted>)
    requires Descending(rest) && forall e :: e in rest ==> x.count >= e.count
    ensures Descending([x] + rest)
  {
    var s := [x] + rest;
    forall i, j | 0 <= i < j < |s| ensures s[i].count >= s[j].count {
      assert s[j] == rest[j - 1];
      if i > 0 {
        assert s[i] == rest[i - 1];
      }
    }
  }

  /**
   * A counted word that is frequent enough and missing from the keywords
   * occurs no more often than any keyword.
   */
  lemma KeywordsAreTop(ws: seq<string>, minCount: int, maxKeywords: nat, w: string, k: Keyword)
    requires w in ws && Tally.Occ(ws, w) >= minCount
    requires k in KeywordsOf(ws, minCount, maxKeywords)
    requires forall q :: q in KeywordsOf(ws, minCount, maxKeywords) ==> q.word != w
    ensures Tally.Occ(ws, w) <= k.count
  {
    var c := Tally.Counts(ws);
    var top := Tally.MostCommon(c, maxKeywords);
    var r := KeywordsOf(ws, minCount, maxKeywords);
    Tally.CountsComplete(ws, w);
    var x := Tally.Counted(w, Tally.Occ(ws, w));
    var i :| 0 <= i < |r| && r[i] == k;
    var y := KeywordEntry(ws, minCount, maxKeywords, i);
    assert x !in top by {
      if x in top {
        ListedIfKept(ws, minCount, maxKeywords, x);
        assert false;
      }
    }
    Tally.MostCommonIsTop(c, maxKeywords, x, y);
  }

  /** Keyword `i` is the `i`-th most-common entry that has enough occurrences. */
  lemma KeywordEntry(ws: seq<string>, minCount: int, maxKeywords: nat, i: nat) returns (y: Tally.Counted)
    requires i < |KeywordsOf(ws, minCount, maxKeywords)|
    ensures y in Tally.MostCommon(Tally.Counts(ws), maxKeywords)
    ensures KeywordsOf(ws, minCount, maxKeywords)[i].count == y.count
  {
    var c := Tally.Counts(ws);
    var kept := Select(c, maxKeywords, minCount);
    y := kept[i];
    assert KeywordsOf(ws, minCount, maxKeywords)[i] == AsKeyword(y, MaxOr1(c));
  }

  /** A most-common entry with enough occurrences becomes a keyword. */
  lemma ListedIfKept(ws: seq<string>, minCount: int, maxKeywords: nat, e: Tally.Counted)
    requires e.count >= minCount
    ensures e in Tally.MostCommon(Tally.Counts(ws), maxKeywords)
            ==> AsKeyword(e, MaxOr1(Tally.Counts(ws))) in KeywordsOf(ws, minCount, maxKeywords)
  {
    var c := Tally.Counts(ws);
    var top := Tally.MostCommon(c, maxKeywords);
    var kept := Seqs.Filter(top, AtLeast(minCount));
    if e in top {
      assert e in kept;
      var j :| 0 <= j < |kept| && kept[j] == e;
      assert KeywordsOf(ws, minCount, maxKeywords)[j] == AsKeyword(e, MaxOr1(c));
    }
  }

  // ---------------------------------------------------------------------------
  // Themes
  // ---------------------------------------------------------------------------

  predicate IsTerminator(c: char) {
    c == '.' || c == '!' || c == '?'
  }

  function Terminators(s: string): nat {
    if |s| == 0 then 0 else (if IsTerminator(s[0]) then 1 else 0) + Terminators(s[1..])
  }

  /** `re.split(r'[.!?]', s)`: the pieces between sentence terminators. */
  function Sentences(s: string): (pieces: seq<string>)
    ensures |pieces| == Terminators(s) + 1
    ensures forall k :: 0 <= k < |pieces| ==> forall c :: c in pieces[k] ==> !IsTerminator(c)
  {
    if |s| == 0 then [""]
    else
      var rest := Sentences(s[1..]);
      if IsTerminator(s[0]) then [""] + rest
      else [[s[0]] + rest[0]] + rest[1..]
  }

  const Markers: seq<string> := ["important", "key", "significant", "essential", "critical"]

  predicate HasMarker(clean: string) {
    exists m :: m in Markers && Contains(clean, m)
  }

  /** `sentence.strip().lower()`. */
  function Clean(sentence: string): string {
    Lower(Strip(sentence))
  }

  predicate IsCandidate(clean: string) {
    |clean| >= 10 && HasMarker(clean)
  }

  /** The first three words of a candidate, joined by single spaces. */
  function Phrase(clean: string): Option<string> {
    var words := SplitWs(clean);
    if |words| >= 3 then Some(Join(words[..3], " ")) else None
  }

  /** The theme phrases `_extract_themes` counts, in sentence order. */
  function PhrasesOf(sentences: seq<string>): (ps: seq<string>)
    ensures forall p :: p in ps ==> exists s :: s in sentences && IsCandidate(Clean(s)) && Phrase(Clean(s)) == Some(p)
  {
    if |sentences| == 0 then []
    else
      var rest := PhrasesOf(sentences[1..]);
      var clean := Clean(sentences[0]);
      if IsCandidate(clean) && Phrase(clean).Some? then [Phrase(clean).value] + rest else rest
  }

  function ThemePhrases(text: string): seq<string> {
    PhrasesOf(Sentences(text))
  }

  datatype Theme = Theme(theme: string, count: nat, relevance: real)

  function AsTheme(e: Tally.Counted, maxCount: int): Theme {
    Theme(e.key, e.count, Relevance(e.count, maxCount))
  }

  /**
   * `_extract_themes(text, min_count, max_themes)`: the most common phrases
   * with at least `minCount` occurrences, or, when that leaves none, the most
   * common phrases whatever their count.
   */
  function Themes(text: string, minCount: int, maxThemes: nat): seq<Theme> {
    ThemesOf(ThemePhrases(text), minCount, maxThemes)
  }

  /** The counting half of `_extract_themes`, over the phrase list. */
  function ThemesOf(ps: seq<string>, minCount: int, maxThemes: nat): (r: seq<Theme>)
    ensures |r| <= maxThemes
    ensures forall i :: 0 <= i < |r| ==> CountedTheme(ps, r[i])
    ensures forall i, j :: 0 <= i < j < |r| ==> r[i].count >= r[j].count
    ensures |ps| > 0 && maxThemes > 0 ==> |r| > 0
  {
    var c := Tally.Counts(ps);
    var m := MaxOr1(c);
    var chosen := SelectOrAll(c, maxThemes, minCount);
    var r := Seqs.Map(chosen, (e: Tally.Counted) => AsTheme(e, m));
    ChosenThemes(ps, chosen, r);
    DescendingThemes(chosen, m, r);
    r
  }

  /** Themes made from entries in descending count keep that order. */
  lemma DescendingThemes(chosen: seq<Tally.Counted>, m: int, r: seq<Theme>)
    requires Descending(chosen)
    requires |r| == |chosen| && forall i :: 0 <= i < |r| ==> r[i] == AsTheme(chosen[i], m)
    ensures forall i, j :: 0 <= i < j < |r| ==> r[i].count >= r[j].count
  {
    forall i, j | 0 <= i < j < |r| ensures r[i].count >= r[j].count {
      assert r[i].count == chosen[i].count && r[j].count == chosen[j].count;
    }
  }

  /** A theme names a counted phrase with its number of occurrences and a relevance in [0.4, 1]. */
  predicate CountedTheme(ps: seq<string>, t: Theme) {
    t.theme in ps && t.count == Tally.Occ(ps, t.theme) && 0.4 <= t.relevance <= 1.0
  }

  lemma ChosenThemes(ps: seq<string>, chosen: seq<Tally.Counted>, r: seq<Theme>)
    requires forall e :: e in chosen ==> e in Tally.Counts(ps)
    requires |r| == |chosen| && forall i :: 0 <= i < |r| ==> r[i] == AsTheme(chosen[i], MaxOr1(Tally.Counts(ps)))
    ensures forall i :: 0 <= i < |r| ==> CountedTheme(ps, r[i])
  {
    forall i | 0 <= i < |r| ensures CountedTheme(ps, r[i]) {
      assert chosen[i] in chosen;
      EntryOfCounts(ps, chosen[i]);
    }
  }

  /** Theme `k` is the `k`-th selected phrase count. */
  lemma ThemesAreChosen(ps: seq<string>, minCount: int, maxThemes: nat)
    ensures |ThemesOf(ps, minCount, maxThemes)| == |SelectOrAll(Tally.Counts(ps), maxThemes, minCount)|
    ensures forall k :: 0 <= k < |ThemesOf(ps, minCount, maxThemes)| ==>
              ThemesOf(ps, minCount, maxThemes)[k]
              == AsTheme(SelectOrAll(Tally.Counts(ps), maxThemes, minCount)[k], MaxOr1(Tally.Counts(ps)))
  {
    var c := Tally.Counts(ps);
    var chosen := SelectOrAll(c, maxThemes, minCount);
    assert ThemesOf(ps, minCount, maxThemes) == Seqs.Map(chosen, (e: Tally.Counted) => AsTheme(e, MaxOr1(c)));
  }

  /** The selection is the most common entries that meet `min_count`; when it is empty, the fallback is all of them. */
  lemma SelectTop(c: seq<Tally.Counted>, limit: nat, minCount: int)
    ensures forall e :: e in Select(c, limit, minCount) ==> e in Tally.MostCommon(c, limit)
    ensures forall e :: e in Tally.MostCommon(c, limit) && e.count >= minCount ==> e in Select(c, limit, minCount)
    ensures |Select(c, limit, minCount)| == 0 ==> SelectOrAll(c, limit, minCount) == Tally.MostCommon(c, limit)
  {
    var top := Tally.MostCommon(c, limit);
    assert Select(c, limit, minCount) == Seqs.Filter(top, AtLeast(minCount));
    forall e | e in top && e.count >= minCount ensures e in Select(c, limit, minCount) {
      var j :| 0 <= j < |top| && top[j] == e;
      assert AtLeast(minCount)(top[j]);
    }
  }

  /** A selected entry is in the most common ones. */
  lemma ChosenIsTop(c: seq<Tally.Counted>, limit: nat, minCount: int, y: Tally.Counted)
    requires y in SelectOrAll(c, limit, minCount)
    ensures y in Tally.MostCommon(c, limit)
  {
    SelectTop(c, limit, minCount);
  }

  /** A chosen entry appears as a theme. */
  lemma ChosenIsTheme(ps: seq<string>, minCount: int, maxThemes: nat, e: Tally.Counted)
    requires e in SelectOrAll(Tally.Counts(ps), maxThemes, minCount)
    ensures AsTheme(e, MaxOr1(Tally.Counts(ps))) in ThemesOf(ps, minCount, maxThemes)
  {
    var chosen := SelectOrAll(Tally.Counts(ps), maxThemes, minCount);
    ThemesAreChosen(ps, minCount, maxThemes);
    var k :| 0 <= k < |chosen| && chosen[k] == e;
    assert ThemesOf(ps, minCount, maxThemes)[k] == AsTheme(e, MaxOr1(Tally.Counts(ps)));
  }

  /**
   * The `min_count` filter holds unless it leaves nothing: then every theme
   * meets it, and a most-common phrase meeting it is a theme. When it leaves
   * nothing, every most-common phrase is a theme.
   */
  lemma ThemesFilter(ps: seq<string>, minCount: int, maxThemes: nat)
    ensures |Select(Tally.Counts(ps), maxThemes, minCount)| > 0 ==>
              forall t :: t in ThemesOf(ps, minCount, maxThemes) ==> t.count >= minCount
    ensures forall e :: e in Tally.MostCommon(Tally.Counts(ps), maxThemes)
                        && (e.count >= minCount || |Select(Tally.Counts(ps), maxThemes, minCount)| == 0)
              ==> AsTheme(e, MaxOr1(Tally.Counts(ps))) in ThemesOf(ps, minCount, maxThemes)
  {
    var c := Tally.Counts(ps);
    var chosen := SelectOrAll(c, maxThemes, minCount);
    var r := ThemesOf(ps, minCount, maxThemes);
    ThemesAreChosen(ps, minCount, maxThemes);
    forall t | t in r ensures |Select(c, maxThemes, minCount)| > 0 ==> t.count >= minCount {
      var k :| 0 <= k < |r| && r[k] == t;
      assert chosen[k] in chosen;
    }
    SelectTop(c, maxThemes, minCount);
    forall e | e in Tally.MostCommon(c, maxThemes) && (e.count >= minCount || |Select(c, maxThemes, minCount)| == 0)
      ensures AsTheme(e, MaxOr1(c)) in r
    {
      ChosenIsTheme(ps, minCount, maxThemes, e);
    }
  }

  /** A phrase that is not a theme occurs no more often than any theme. */
  lemma ThemesAreTop(ps: seq<string>, minCount: int, maxThemes: nat, p: string, t: Theme)
    requires p in ps
    requires t in ThemesOf(ps, minCount, maxThemes)
    requires forall q :: q in ThemesOf(ps, minCount, maxThemes) ==> q.theme != p
    ensures Tally.Occ(ps, p) <= t.count
  {
    var c := Tally.Counts(ps);
    var top := Tally.MostCommon(c, maxThemes);
    var r := ThemesOf(ps, minCount, maxThemes);
    Tally.CountsComplete(ps, p);
    var x := Tally.Counted(p, Tally.Occ(ps, p));
    ThemesFilter(ps, minCount, maxThemes);
    if x in top {
      if |Select(c, maxThemes, minCount)| == 0 || x.count >= minCount {
        assert false;
      }
    } else {
      ThemesAreChosen(ps, minCount, maxThemes);
      var chosen := SelectOrAll(c, maxThemes, minCount);
      var k :| 0 <= k < |r| && r[k] == t;
      var y := chosen[k];
      ChosenIsTop(c, maxThemes, minCount, y);
      Tally.MostCommonIsTop(c, maxThemes, x, y);
    }
  }

  /** The `min_count` selection, or the unfiltered most common when that is empty and the Counter is not. */
  function SelectOrAll(c: seq<Tally.Counted>, limit: nat, minCount: int): (r: seq<Tally.Counted>)
    ensures |r| <= limit
    ensures forall e :: e in r ==> e in c
    ensures Descending(r)
    ensures |c| > 0 && limit > 0 ==> |r| > 0
    ensures |Select(c, limit, minCount)| > 0 ==> r == Select(c, limit, minCount)
  {
    var kept := Select(c, limit, minCount);
    if |kept| == 0 && |c| > 0 then Tally.MostCommon(c, limit) else kept
  }

  /** Every theme is three words long: splitting it again gives three words. */
  lemma ThemeHasThreeWords(sentence: string)
    requires Phrase(Clean(sentence)).Some?
    ensures |SplitWs(Phrase(Clean(sentence)).value)| == 3
  {
    var words := SplitWs(Clean(sentence));
    SplitWsJoin(words[..3]);
  }

  /** Whitespace-splitting the words joined by single spaces gives the words back. */
  lemma {:induction false} SplitWsJoin(ws: seq<string>)
    requires forall k :: 0 <= k < |ws| ==> |ws[k]| > 0 && NoSpace(ws[k])
    ensures SplitWs(Join(ws, " ")) == ws
    decreases |ws|
  {
    if |ws| == 1 {
      SplitWsWord(ws[0], "");
      assert ws[0] + "" == ws[0];
    } else if |ws| > 1 {
      var rest := Join(ws[1..], " ");
      var spaced := " " + rest;
      assert forall k :: 0 <= k < |ws[1..]| ==> ws[1..][k] == ws[k + 1];
      SplitWsJoin(ws[1..]);
      assert SplitWs(spaced) == SplitWs(rest) by {
        assert IsSpace(spaced[0]);
        assert spaced[1..] == rest;
      }
      assert Join(ws, " ") == ws[0] + spaced;
      SplitWsWord(ws[0], spaced);
      assert ws == [ws[0]] + ws[1..];
    }
  }

  /** A word followed by nothing or by whitespace is split off first. */
  lemma {:induction false} SplitWsWord(w: string, t: string)
    requires |w| > 0 && NoSpace(w) && (|t| == 0 || IsSpace(t[0]))
    ensures SplitWs(w + t) == [w] + SplitWs(t)
  {
    WordLengthOf(w, t);
    assert (w + t)[..|w|] == w;
    assert (w + t)[|w|..] == t;
  }

  lemma {:induction false} WordLengthOf(w: string, t: string)
    requires NoSpace(w) && (|t| == 0 || IsSpace(t[0]))
    ensures WordLength(w + t) == |w|
    decreases |w|
  {
    if |w| == 0 {
      assert w + t == t;
    } else {
      WordLengthOf(w[1..], t);
      assert (w + t)[1..] == w[1..] + t;
    }
  }

  // ---------------------------------------------------------------------------
  // research
  // ---------------------------------------------------------------------------

  /** One entry of `query_content`'s `results`; a missing key is `None`. */
  datatype SourceResult = SourceResult(indexId: Option<string>, title: Option<string>, response: Option<string>)

  /** What `query_content` returned: its `success` flag and `results` list. */
  datatype ContentReply = ContentReply(success: bool, results: seq<SourceResult>)

  /** `_process_source` without its `metadata` entry, which the model drops. */
  datatype Processed = Processed(id: Option<string>, title: string, themes: seq<string>, text: string)

  /**
   * The result of `research`: a failure (status error, zero total, empty
   * lists) or a report.
   */
  datatype Research =
    | Failure(message: string)
    | Report(totalResults: nat, themes: seq<Theme>, keywords: seq<Keyword>, sources: seq<Processed>)

  /** `index_ids`, or when it is missing or empty the ids of the available indexes. */
  function TargetIds(indexIds: Option<seq<string>>, available: seq<Option<string>>): (ids: seq<string>)
    ensures indexIds.Some? && |indexIds.value| > 0 ==> ids == indexIds.value
    ensures !(indexIds.Some? && |indexIds.value| > 0) ==>
              forall x :: x in ids <==> Some(x) in available
  {
    if indexIds.Some? && |indexIds.value| > 0 then indexIds.value
    else
      var present := Seqs.Filter(available, (a: Option<string>) => a.Some?);
      var ids := Seqs.Map(present, (a: Option<string>) => if a.Some? then a.value else "");
      assert forall x :: Some(x) in available ==> x in ids by {
        forall x | Some(x) in available ensures x in ids {
          var i :| 0 <= i < |present| && present[i] == Some(x);
          assert ids[i] == x;
        }
      }
      ids
  }

  /**
   * Without ids given, the available indexes' ids are taken in listing
   * order, and falsy entries (`None` or an empty record) are skipped.
   */
  lemma AvailableIdsInOrder(x: string, available: seq<Option<string>>)
    ensures TargetIds(None, []) == []
    ensures TargetIds(None, [Some(x)] + available) == [x] + TargetIds(None, available)
    ensures TargetIds(None, [None] + available) == TargetIds(None, available)
  {
    var present := (a: Option<string>) => a.Some?;
    var value := (a: Option<string>) => if a.Some? then a.value else "";
    assert ([Some(x)] + available)[1..] == available;
    assert ([None] + available)[1..] == available;
    assert Seqs.Filter([Some(x)] + available, present) == [Some(x)] + Seqs.Filter(available, present);
    assert Seqs.Filter([None] + available, present) == Seqs.Filter(available, present);
    var f := Seqs.Filter(available, present);
    assert ([Some(x)] + f)[1..] == f;
  }

  function Response(s: SourceResult): string {
    s.response.GetOr("")
  }

  /** `' '.join([result.get('response', '') for result in result_items])`. */
  function AllText(results: seq<SourceResult>): string {
    Join(Seqs.Map(results, Response), " ")
  }

  function IdText(id: Option<string>): string {
    if id.Some? then id.value else "None"
  }

  function ProcessSource(s: SourceResult): (p: Processed)
    ensures p.id == s.indexId && p.text == Response(s)
    ensures s.title.None? ==> p.title == "Content " + IdText(s.indexId)
    ensures |p.themes| <= 10
  {
    var themes := Themes(Response(s), 1, 10);
    Processed(s.indexId, s.title.GetOr("Content " + IdText(s.indexId)),
              Seqs.Map(themes, (t: Theme) => t.theme), Response(s))
  }

  /** `research(query, index_ids)` given what `query_content` returns for the target ids. */
  function Run(indexIds: Option<seq<string>>, available: seq<Option<string>>,
               queryContent: seq<string> -> Result<ContentReply>): (r: Research)
    ensures queryContent(TargetIds(indexIds, available)).Err? ==> r == Failure(queryContent(TargetIds(indexIds, available)).error)
    ensures queryContent(TargetIds(indexIds, available)).Ok? && !queryContent(TargetIds(indexIds, available)).value.success
            ==> r == Failure("Query failed to return results")
    ensures r.Report? ==> var reply := queryContent(TargetIds(indexIds, available));
              reply.Ok? && reply.value.success && |reply.value.results| > 0
              && r.totalResults == |reply.value.results| == |r.sources|
              && |r.themes| <= 10 && |r.keywords| <= 15
              && r.themes == Themes(AllText(reply.value.results), 1, 10)
              && r.keywords == Keywords(AllText(reply.value.results), 1, 15)
              && r.sources == Seqs.Map(reply.value.results, ProcessSource)
    ensures r.Failure? <==> !(queryContent(TargetIds(indexIds, available)).Ok?
                              && queryContent(TargetIds(indexIds, available)).value.success
                              && |queryContent(TargetIds(indexIds, available)).value.results| > 0)
  {
    match queryContent(TargetIds(indexIds, available))
    case Err(e) => Failure(e)
    case Ok(reply) =>
      if !reply.success then Failure("Query failed to return results")
      else if |reply.results| == 0 then Failure("No results found for the research query")
      else
        var all := AllText(reply.results);
        Report(|reply.results|, Themes(all, 1, 10), Keywords(all, 1, 15), Seqs.Map(reply.results, ProcessSource))
  }

  /** Sources are processed one for one, in the order the query returned them. */
  lemma RunSources(indexIds: Option<seq<string>>, available: seq<Option<string>>,
                   queryContent: seq<string> -> Result<ContentReply>, i: nat)
    requires Run(indexIds, available, queryContent).Report?
    requires i < |Run(indexIds, available, queryContent).sources|
    ensures var rs := queryContent(TargetIds(indexIds, available)).value.results;
            Run(indexIds, available, queryContent).sources[i].id == rs[i].indexId
            && Run(indexIds, available, queryContent).sources[i].text == Response(rs[i])
  {
  }
}
