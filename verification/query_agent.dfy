/**
 * The metadata search of `services/llm/agents/query_agent.py`
 * (`search_best_maching_index_based_on_metdata`): each index's metadata is
 * turned into a lower-case search text, scored against the query, and the
 * indexes with a positive score are ranked, best first, with the first five
 * reported. The metadata lookup is a parameter, and so is Python's `str()` of
 * a metadata dict, used when no field gives any text.
 */
module QueryAgent {
  import opened Wrappers
  import opened PyText
  import opened PyInt
  import opened Items
  import Seqs
  import StableSort

  // ---------------------------------------------------------------------------
  // Search text
  // ---------------------------------------------------------------------------

  /** Python's truth value of an `auto_metadata` dict: it has some key. */
  predicate AutoPresent(a: AutoMeta) {
    a.summary.Some? || a.language.Some? || a.contentType.Some? || a.themes.Some? || a.topics.Some?
    || a.keywords.Some? || a.entities.Some? || a.autoGenerated.Some? || a.other != map[]
  }

  /** The non-empty values of a list field, lower-cased. */
  function ListValues(values: Option<seq<string>>): (r: seq<string>)
    ensures forall k :: 0 <= k < |r| ==> r[k] != ""
    decreases if values.Some? then |values.value| else 0
  {
    if values.None? || |values.value| == 0 then []
    else
      var v := values.value[0];
      var rest := ListValues(Some(values.value[1..]));
      if v == "" then rest else [Lower(v)] + rest
  }

  /**
   * `important_fields`: the title, the summary, then the keywords, themes,
   * topics and entities, each lower-cased and only when non-empty.
   */
  function ImportantFields(m: Meta): (r: seq<string>)
    ensures forall k :: 0 <= k < |r| ==> r[k] != ""
    ensures m.title.Some? && m.title.value != "" ==> |r| > 0 && r[0] == Lower(m.title.value)
  {
    var title := if m.title.Some? && m.title.value != "" then [Lower(m.title.value)] else [];
    var auto :=
      if m.auto.Some? && AutoPresent(m.auto.value) then
        var a := m.auto.value;
        var summary := if a.summary.Some? && a.summary.value != "" then [Lower(a.summary.value)] else [];
        summary + ListValues(a.keywords) + ListValues(a.themes) + ListValues(a.topics) + ListValues(a.entities)
      else [];
    title + auto
  }

  lemma JoinEmpty(parts: seq<string>)
    requires forall k :: 0 <= k < |parts| ==> parts[k] != ""
    ensures Join(parts, " ") == "" <==> |parts| == 0
  {
    if |parts| > 1 {
      JoinCons(parts[0], parts[1..], " ");
    }
  }

  /** `meta_text`: the fields joined by spaces, or the whole dict when there are none. */
  function MetaText(m: Meta, repr: string): (r: string)
    ensures |ImportantFields(m)| == 0 ==> r == Lower(repr)
    ensures |ImportantFields(m)| > 0 ==> r == Join(ImportantFields(m), " ")
  {
    var joined := Join(ImportantFields(m), " ");
    JoinEmpty(ImportantFields(m));
    if joined == "" then Lower(repr) else joined
  }

  // ---------------------------------------------------------------------------
  // Score
  // ---------------------------------------------------------------------------

  /** `set(query.lower().split())`. */
  function Terms(query: string): set<string> {
    set w | w in SplitWs(Lower(query))
  }

  /** The number of query terms found in the text. */
  function Matched(query: string, text: string): (n: nat)
    ensures n <= |Terms(query)|
    ensures n == |Terms(query)| <==> forall t :: t in Terms(query) ==> Contains(text, t)
    ensures n == 0 <==> forall t :: t in Terms(query) ==> !Contains(text, t)
  {
    var hit := set t | t in Terms(query) && Contains(text, t);
    HitCount(Terms(query), text, hit);
    |hit|
  }

  /** The terms found are all of them iff each occurs, and none iff none occurs. */
  lemma HitCount(terms: set<string>, text: string, hit: set<string>)
    requires hit == set t | t in terms && Contains(text, t)
    ensures |hit| <= |terms|
    ensures |hit| == |terms| <==> forall t :: t in terms ==> Contains(text, t)
    ensures |hit| == 0 <==> forall t :: t in terms ==> !Contains(text, t)
  {
    SubsetSize(hit, terms);
    if forall t :: t in terms ==> Contains(text, t) {
      assert hit == terms;
    }
    if exists t :: t in terms && Contains(text, t) {
      var t :| t in terms && Contains(text, t);
      assert t in hit;
    }
  }

  /** A subset is no larger, and strictly smaller unless it is the whole set. */
  lemma SubsetSize<T>(a: set<T>, b: set<T>)
    requires a <= b
    ensures |a| <= |b|
    ensures |a| == |b| ==> a == b
  {
    assert b == a + (b - a);
    if a != b {
      var x :| x in b - a;
    }
  }

  /** The three words from position `i`, joined by spaces. */
  function Window(words: seq<string>, i: nat): string
    requires i + 3 <= |words|
  {
    Join(words[i..i + 3], " ")
  }

  /** Some three consecutive query words, joined by spaces, occur in the text. */
  predicate PhraseMatch(query: string, text: string) {
    var words := SplitWs(Lower(query));
    |Terms(query)| >= 3
    && exists i: nat :: i + 3 <= |words| && Contains(text, Window(words, i))
  }

  /** The coverage bonus `int(matched / len(terms) * 5)`. */
  function Coverage(query: string, text: string): (b: int)
    ensures 0 <= b <= 5
    ensures Matched(query, text) == 0 ==> b == 0
    ensures |Terms(query)| == 0 ==> b == 0
    ensures |Terms(query)| > 0 ==>
              b * |Terms(query)| <= 5 * Matched(query, text) < (b + 1) * |Terms(query)|
  {
    var n := |Terms(query)|;
    if n == 0 then 0
    else
      var m := Matched(query, text);
      var b := TruncDiv(5 * m, n);
      CoverageBounds(m, n, b);
      b
  }

  /** The truncated share `5 * m / n` of `m <= n` matched terms lies between 0 and 5. */
  lemma CoverageBounds(m: nat, n: nat, b: int)
    requires 0 < n && m <= n
    requires n * b <= 5 * m < n * b + n
    ensures 0 <= b <= 5
    ensures m == 0 ==> b == 0
    ensures b * n <= 5 * m < (b + 1) * n
  {
    if b > 5 { MulStep(n, 5, b); }
    if b < 0 { MulStep(n, b, 0); }
    if m == 0 && b > 0 { MulStep(n, 0, b); }
  }

  /**
   * The relevance score: one point per matched term, 10 for the whole
   * lower-cased query, 5 for a three-word phrase, and up to 5 for coverage.
   */
  function Score(query: string, text: string): (s: int)
    ensures Matched(query, text) <= s <= |Terms(query)| + 20
    ensures s == Matched(query, text) + Coverage(query, text)
                 + (if Contains(text, Lower(query)) then 10 else 0)
                 + (if PhraseMatch(query, text) then 5 else 0)
  {
    Matched(query, text)
    + (if Contains(text, Lower(query)) then 10 else 0)
    + (if PhraseMatch(query, text) then 5 else 0)
    + Coverage(query, text)
  }

  /**
   * An index is kept exactly when some term matched, the whole query matched,
   * or a phrase matched; a query of fewer than three distinct words never
   * earns the phrase bonus.
   */
  lemma ScorePositive(query: string, text: string)
    ensures Score(query, text) > 0
        <==> Matched(query, text) > 0 || Contains(text, Lower(query)) || PhraseMatch(query, text)
    ensures |Terms(query)| < 3 ==> !PhraseMatch(query, text)
  {
  }

  /** With every term matched the coverage bonus is the full 5 points. */
  lemma FullCoverage(query: string, text: string)
    requires |Terms(query)| > 0 && Matched(query, text) == |Terms(query)|
    ensures Coverage(query, text) == 5
  {
    var n := |Terms(query)|;
    var q := TruncDiv(5 * n, n);
    assert n * q <= n * 5 < n * q + n;
    if q < 5 {
      MulStep(n, q, 5);
    } else if q > 5 {
      MulStep(n, 5, q);
    }
  }

  // ---------------------------------------------------------------------------
  // Ranking
  // ---------------------------------------------------------------------------

  datatype Match = Match(id: string, meta: Meta, score: int)

  /** Highest score first; Python's `reverse=True` sort is stable. */
  function ByScore(m: Match): seq<int> {
    [-m.score]
  }

  /** The indexes whose metadata exists, in the given order. */
  function Present(ids: seq<string>, lookup: string -> Option<Meta>): (r: seq<string>)
    ensures forall k :: 0 <= k < |r| ==> r[k] in ids && !Missing(lookup(r[k]))
    ensures forall k :: 0 <= k < |ids| && !Missing(lookup(ids[k])) ==> ids[k] in r
  {
    Seqs.Filter(ids, id => !Missing(lookup(id)))
  }

  /** The score of an index's metadata against the query. */
  function ScoreOf(query: string, m: Meta, repr: Meta -> string): int {
    Score(query, MetaText(m, repr(m)))
  }

  function MatchOf(query: string, lookup: string -> Option<Meta>, repr: Meta -> string, id: string): (r: Match)
    ensures r.id == id
    ensures lookup(id).Some? ==> r.meta == lookup(id).value && r.score == ScoreOf(query, r.meta, repr)
  {
    match lookup(id)
    case Some(m) => Match(id, m, ScoreOf(query, m, repr))
    case None => Match(id, EmptyMeta(), 0)
  }

  /** Each present index with its metadata and score. */
  function Scored(query: string, ids: seq<string>, lookup: string -> Option<Meta>, repr: Meta -> string): (r: seq<Match>)
    ensures |r| == |Present(ids, lookup)|
    ensures forall k :: 0 <= k < |r| ==> r[k] == MatchOf(query, lookup, repr, Present(ids, lookup)[k])
  {
    Seqs.Map(Present(ids, lookup), (id: string) => MatchOf(query, lookup, repr, id))
  }

  function Positive(ms: seq<Match>): (r: seq<Match>)
    ensures forall k :: 0 <= k < |r| ==> r[k].score > 0 && r[k] in ms
    ensures forall k :: 0 <= k < |ms| && ms[k].score > 0 ==> ms[k] in r
  {
    Seqs.Filter(ms, (m: Match) => m.score > 0)
  }

  datatype Search =
    | SearchError(message: string)
    | NoMatch
    | Found(top: seq<Match>, all: seq<Match>)
  {
    function TopIds(): seq<string>
      requires Found?
    {
      Seqs.Map(top, (m: Match) => m.id)
    }

    function TopScores(): seq<int>
      requires Found?
    {
      Seqs.Map(top, (m: Match) => m.score)
    }
  }

  lemma PermutationKeepsPositive(ms: seq<Match>, ps: seq<Match>)
    requires forall k :: 0 <= k < |ms| ==> ms[k].score > 0
    requires multiset(ps) == multiset(ms)
    ensures forall k :: 0 <= k < |ps| ==> ps[k].score > 0
  {
    forall k | 0 <= k < |ps| ensures ps[k].score > 0 {
      assert ps[k] in multiset(ms);
    }
  }

  /**
   * The search: missing or empty `index_ids` is an error; otherwise the
   * positive-score matches, sorted best first, with the first five on top.
   */
  function SearchIndexes(query: string, ids: Option<seq<string>>, lookup: string -> Option<Meta>,
                         repr: Meta -> string): (r: Search)
    ensures ids.None? || ids == Some([]) <==> r == SearchError("No index IDs provided")
    ensures r.Found? ==> 1 <= |r.top| <= 5 && |r.top| <= |r.all| && r.top == r.all[..|r.top|]
    ensures r.Found? ==> |r.all| <= 5 ==> r.top == r.all
    ensures r.Found? ==> forall k :: 0 <= k < |r.all| ==> r.all[k].score > 0
    ensures r.Found? ==> StableSort.Sorted(r.all, ByScore)
  {
    if ids.None? || |ids.value| == 0 then SearchError("No index IDs provided")
    else
      var matches := Positive(Scored(query, ids.value, lookup, repr));
      if |matches| == 0 then NoMatch
      else
        var sorted := StableSort.SortBy(matches, ByScore);
        PermutationKeepsPositive(matches, sorted);
        Found(if |sorted| <= 5 then sorted else sorted[..5], sorted)
  }

  /**
   * The ranked list holds exactly the positive-score matches, as a
   * permutation, and nothing is reported when no index scored.
   */
  lemma SearchCompleteness(query: string, ids: seq<string>, lookup: string -> Option<Meta>, repr: Meta -> string)
    requires |ids| > 0
    ensures var r := SearchIndexes(query, Some(ids), lookup, repr);
      var matches := Positive(Scored(query, ids, lookup, repr));
      (r == NoMatch <==> |matches| == 0) && (r.Found? ==> multiset(r.all) == multiset(matches))
  {
  }

  /** The first reported index has the highest score of all matches. */
  lemma TopIsBest(query: string, ids: Option<seq<string>>, lookup: string -> Option<Meta>,
                  repr: Meta -> string, k: nat)
    requires SearchIndexes(query, ids, lookup, repr).Found?
    requires k < |SearchIndexes(query, ids, lookup, repr).all|
    ensures SearchIndexes(query, ids, lookup, repr).all[k].score <= SearchIndexes(query, ids, lookup, repr).top[0].score
  {
    var r := SearchIndexes(query, ids, lookup, repr);
    if k > 0 {
      assert StableSort.LexLe(ByScore(r.all[0]), ByScore(r.all[k]));
      StableSort.LexLeSingle(-r.all[0].score, -r.all[k].score);
    }
  }

  /** Among indexes with equal scores, the ranking keeps the order they were given in. */
  lemma EqualScoresKeepOrder(query: string, ids: seq<string>, lookup: string -> Option<Meta>,
                             repr: Meta -> string, score: int)
    requires SearchIndexes(query, Some(ids), lookup, repr).Found?
    ensures var matches := Positive(Scored(query, ids, lookup, repr));
      Seqs.Filter(SearchIndexes(query, Some(ids), lookup, repr).all, StableSort.KeyIs(ByScore, [-score]))
      == Seqs.Filter(matches, StableSort.KeyIs(ByScore, [-score]))
  {
    var matches := Positive(Scored(query, ids, lookup, repr));
    assert SearchIndexes(query, Some(ids), lookup, repr).all == StableSort.SortBy(matches, ByScore);
    StableSort.SortStable(matches, ByScore, [-score]);
  }
}
