/**
 * The review agent of `services/llm/Agents/Review.py`: content validation,
 * the writing, fact-check, SEO and overall scores, the priority list of the
 * comprehensive review, the prompt truncation and the dispatch on the review
 * type. The parsed answers of the language model are inputs; `None` stands
 * for an answer that parsed to an empty (falsy) dictionary, and a key missing
 * from an answer is the empty list, as `.get(key, [])` reads it.
 *
 * Scores the source computes in floating point are computed here on exact
 * rationals, with Python's half-to-even `round`.
 */
module Review {
  import opened Wrappers
  import opened PyText
  import opened PyInt

  // ---------------------------------------------------------------------------
  // Validation
  // ---------------------------------------------------------------------------

  const EmptyMessage: string := "Content is empty. Please provide text to review."
  const ShortMessage: string := "Content is too short for meaningful review. Please provide more text."

  /** `_validate_content`: `None` when the content is reviewable, else the message. */
  function Validate(content: string): (r: Option<string>)
    ensures r.None? <==> |Strip(content)| >= 50
    ensures AllSpace(content) ==> r == Some(EmptyMessage)
    ensures !AllSpace(content) && |Strip(content)| < 50 ==> r == Some(ShortMessage)
  {
    if Strip(content) == "" then Some(EmptyMessage)
    else if |Strip(content)| < 50 then Some(ShortMessage)
    else None
  }

  // ---------------------------------------------------------------------------
  // Answers and the short-content safeguard
  // ---------------------------------------------------------------------------

  datatype WritingAnswer = WritingAnswer(strengths: seq<string>, weaknesses: seq<string>, suggestions: seq<string>)
  datatype FactAnswer = FactAnswer(accurate: seq<string>, questionable: seq<string>, incorrect: seq<string>,
                                   verification: seq<string>)
  datatype SeoAnswer = SeoAnswer(contentSuggestions: seq<string>, score: int)

  /** The model's parsed answer to each of the three review prompts. */
  datatype Answers = Answers(writing: Option<WritingAnswer>, facts: Option<FactAnswer>, seo: Option<SeoAnswer>)

  /**
   * `_get_review_from_llm` does not ask the model about content shorter than
   * 100 characters once stripped: it answers with a summary only, a non-empty
   * dictionary without any list or score.
   */
  predicate SkipsModel(content: string) {
    |Strip(content)| < 100
  }

  function WritingOf(content: string, given: Option<WritingAnswer>): Option<WritingAnswer> {
    if SkipsModel(content) then Some(WritingAnswer([], [], [])) else given
  }

  function FactsOf(content: string, given: Option<FactAnswer>): Option<FactAnswer> {
    if SkipsModel(content) then Some(FactAnswer([], [], [], [])) else given
  }

  function SeoOf(content: string, given: Option<SeoAnswer>): Option<SeoAnswer> {
    if SkipsModel(content) then Some(SeoAnswer([], 0)) else given
  }

  // ---------------------------------------------------------------------------
  // Scores
  // ---------------------------------------------------------------------------

  /**
   * The style score of `_review_writing` for `s` strengths and `w` weaknesses
   * of content whose stripped length is `len`.
   */
  function StyleScore(len: nat, s: nat, w: nat): (r: int)
    ensures s + w > 0 ==> 1 <= r <= 10
    ensures s + w > 0 ==> r == Max(1, RoundHalfEven(10 * s, s + w))
    ensures s + w == 0 ==> r == (if len > 200 then 1 else 0)
  {
    if len > 200 && s + w == 0 then 1
    else if s + w > 0 then
      assert RoundHalfEven(10 * s, s + w) <= 10 by {
        RoundHalfEvenMonotone(10 * s, 10 * (s + w), s + w);
        RoundHalfEvenExact(10, s + w);
      }
      Min(10, Max(1, RoundHalfEven(10 * s, s + w)))
    else 0
  }

  /** Only strengths give the top score; only weaknesses give the bottom one. */
  lemma StyleScoreExtremes(len: nat, n: nat)
    requires n > 0
    ensures StyleScore(len, n, 0) == 10
    ensures StyleScore(len, 0, n) == 1
  {
    RoundHalfEvenExact(10, n);
    RoundHalfEvenExact(0, n);
  }

  /**
   * The accuracy score of `_review_facts`: accurate statements count fully,
   * questionable ones half, over all `a + q + i` statements, out of 10.
   */
  function AccuracyScore(len: nat, a: nat, q: nat, i: nat): (r: int)
    ensures a + q + i == 0 ==> r == (if len > 200 then 1 else 0)
    ensures a + q + i > 0 ==> 0 <= r <= 10
    ensures a + q + i > 0 ==> r == RoundHalfEven(10 * (2 * a + q), 2 * (a + q + i))
  {
    var t := a + q + i;
    if len > 200 && t == 0 then 1
    else if t > 0 then
      var r := RoundHalfEven(10 * (2 * a + q), 2 * t);
      assert 0 <= r <= 10 by {
        RoundHalfEvenMonotone(0, 10 * (2 * a + q), 2 * t);
        RoundHalfEvenMonotone(10 * (2 * a + q), 10 * (2 * t), 2 * t);
        RoundHalfEvenExact(0, 2 * t);
        RoundHalfEvenExact(10, 2 * t);
      }
      r
    else 0
  }

  /** Incorrect statements never raise the accuracy score. */
  lemma AccuracyScoreMonotone(len: nat, a: nat, q: nat, i: nat)
    requires a + q + i > 0
    ensures AccuracyScore(len, a, q, i + 1) <= AccuracyScore(len, a, q, i)
  {
    var t := a + q + i;
    var x := 10 * (2 * a + q);
    RoundAcross(x, 2 * t, 2 * t + 2);
  }

  /**
   * Rounding `x / d1` never gives more than rounding `x / d0` for a larger
   * denominator `d1` and `x >= 0`.
   */
  lemma RoundAcross(x: nat, d0: int, d1: int)
    requires 0 < d0 < d1
    ensures RoundHalfEven(x, d1) <= RoundHalfEven(x, d0)
  {
    var k := RoundHalfEven(x, d1);
    var j := RoundHalfEven(x, d0);
    RoundHalfEvenMonotone(0, x, d0);
    RoundHalfEvenExact(0, d0);
    assert j >= 0;
    if k > j {
      // k - 1/2 <= x / d1 < x / d0 <= j + 1/2, so k <= j.
      assert (2 * k - 1) * d1 <= 2 * x by {
        assert -d1 <= 2 * (x - k * d1);
        OddMul(k, d1);
      }
      assert 2 * x <= (2 * j + 1) * d0 by {
        assert 2 * (x - j * d0) <= d0;
        OddMul(j, d0);
      }
      MulMono(2 * j + 1, 2 * k - 1, d1);
      MulMono2(2 * j + 1, d0, d1);
      assert false;
    }
  }

  lemma OddMul(a: int, b: int)
    ensures (2 * a + 1) * b == 2 * (a * b) + b
    ensures (2 * a - 1) * b == 2 * (a * b) - b
  {
  }

  lemma MulMono(a: int, b: int, c: int)
    requires a <= b && c >= 0
    ensures a * c <= b * c
  {
    assert b * c - a * c == (b - a) * c;
  }

  lemma MulMono2(a: int, c: int, d: int)
    requires a > 0 && c < d
    ensures a * c < a * d
  {
    assert a * d - a * c == a * (d - c);
    MulAtLeast(a, d - c);
  }

  /** The SEO score: the model's score, raised to 1 for long content the model scored 0. */
  function SeoScore(len: nat, given: int): (r: int)
    ensures given != 0 ==> r == given
    ensures given == 0 ==> r == (if len > 200 then 1 else 0)
  {
    if len > 200 && given == 0 then 1 else given
  }

  /** The number and sum of the positive scores among three. */
  function PositiveCount(s: int, a: int, o: int): (n: nat)
    ensures n <= 3 && (n == 0 <==> s <= 0 && a <= 0 && o <= 0)
  {
    (if s > 0 then 1 else 0) + (if a > 0 then 1 else 0) + (if o > 0 then 1 else 0)
  }

  function PositiveSum(s: int, a: int, o: int): int {
    (if s > 0 then s else 0) + (if a > 0 then a else 0) + (if o > 0 then o else 0)
  }

  /**
   * The overall score of `_review_comprehensive`: the rounded mean of the
   * positive component scores, 1 for long content whose scores sum to 0.
   */
  function OverallScore(len: nat, s: int, a: int, o: int): (r: int)
    ensures PositiveCount(s, a, o) > 0 && s + a + o != 0 ==> r == RoundHalfEven(PositiveSum(s, a, o), PositiveCount(s, a, o))
    ensures s + a + o == 0 ==> r == (if len > 200 then 1 else if PositiveCount(s, a, o) > 0 then RoundHalfEven(PositiveSum(s, a, o), PositiveCount(s, a, o)) else 0)
    ensures PositiveCount(s, a, o) == 0 && s + a + o != 0 ==> r == 0
  {
    if len > 200 && s + a + o == 0 then 1
    else if s > 0 || a > 0 || o > 0 then RoundHalfEven(PositiveSum(s, a, o), PositiveCount(s, a, o))
    else 0
  }

  predicate Within(x: int, lo: int, hi: int) {
    x <= 0 || lo <= x <= hi
  }

  /**
   * The mean of the positive scores lies between their least and greatest
   * value, so with component scores out of 10 the overall score is too.
   */
  lemma OverallBetween(len: nat, s: int, a: int, o: int, lo: int, hi: int)
    requires PositiveCount(s, a, o) > 0 && s + a + o != 0
    requires Within(s, lo, hi) && Within(a, lo, hi) && Within(o, lo, hi)
    ensures lo <= OverallScore(len, s, a, o) <= hi
  {
    var n := PositiveCount(s, a, o);
    var sum := PositiveSum(s, a, o);
    assert n * lo <= sum <= n * hi;
    RoundHalfEvenMonotone(n * lo, sum, n);
    RoundHalfEvenMonotone(sum, n * hi, n);
    RoundHalfEvenExact(lo, n);
    RoundHalfEvenExact(hi, n);
  }

  // ---------------------------------------------------------------------------
  // Priority improvements
  // ---------------------------------------------------------------------------

  function Tagged(tag: string, xs: seq<string>): (r: seq<string>)
    ensures |r| == |xs|
    ensures forall k :: 0 <= k < |r| ==> r[k] == tag + xs[k]
  {
    if |xs| == 0 then [] else [tag + xs[0]] + Tagged(tag, xs[1..])
  }

  function FirstTwo(xs: seq<string>): (r: seq<string>)
    ensures |r| <= 2 && |r| <= |xs| && r == xs[..|r|]
    ensures |xs| > 0 ==> |r| > 0
  {
    if |xs| <= 2 then xs else xs[..2]
  }

  /** The writing, fact and SEO blocks of the priority list, before the cap. */
  function WritingBlock(style: int, suggestions: seq<string>): (r: seq<string>)
    ensures |r| <= 2
    ensures style >= 7 ==> r == []
  {
    if style < 7 && |suggestions| > 0 then Tagged("[Writing] ", FirstTwo(suggestions)) else []
  }

  function FactBlock(accuracy: int, verification: seq<string>): (r: seq<string>)
    ensures |r| <= 2
    ensures accuracy >= 7 ==> r == []
  {
    if accuracy < 7 && |verification| > 0 then Tagged("[Fact] ", FirstTwo(verification)) else []
  }

  function SeoBlock(contentSuggestions: seq<string>): (r: seq<string>)
    ensures |r| <= 2
  {
    if |contentSuggestions| > 0 then Tagged("[SEO] ", FirstTwo(contentSuggestions)) else []
  }

  /** `priority_improvements`: the three blocks in order, at most five entries. */
  function Priorities(style: int, accuracy: int, w: seq<string>, v: seq<string>, c: seq<string>): (r: seq<string>)
    ensures |r| <= 5
    ensures var all := WritingBlock(style, w) + FactBlock(accuracy, v) + SeoBlock(c);
      |r| <= |all| && r == all[..|r|] && (|all| <= 5 ==> r == all)
  {
    var all := WritingBlock(style, w) + FactBlock(accuracy, v) + SeoBlock(c);
    if |all| <= 5 then all else all[..5]
  }

  lemma TagsDiffer(x: string, y: string)
    ensures !StartsWith("[Fact] " + x, "[Writing] ") && !StartsWith("[SEO] " + x, "[Writing] ")
    ensures !StartsWith("[Writing] " + x, "[Fact] ") && !StartsWith("[SEO] " + x, "[Fact] ")
  {
    assert ("[Fact] " + x)[1] == 'F';
    assert ("[SEO] " + x)[1] == 'S';
    assert ("[Writing] " + x)[1] == 'W';
  }

  /**
   * Writing entries appear only when the style score is below 7 and only in
   * the first two places; fact entries appear only when the accuracy score is
   * below 7.
   */
  lemma PriorityEntries(style: int, accuracy: int, w: seq<string>, v: seq<string>, c: seq<string>, k: nat)
    requires k < |Priorities(style, accuracy, w, v, c)|
    ensures StartsWith(Priorities(style, accuracy, w, v, c)[k], "[Writing] ") ==> style < 7 && k < 2
    ensures StartsWith(Priorities(style, accuracy, w, v, c)[k], "[Fact] ") ==> accuracy < 7
  {
    var wb := WritingBlock(style, w);
    var fb := FactBlock(accuracy, v);
    var sb := SeoBlock(c);
    var e := Priorities(style, accuracy, w, v, c)[k];
    if k < |wb| {
      assert style < 7 && k < 2 && !StartsWith(e, "[Fact] ") by {
        PriorityAt(style, accuracy, w, v, c, k);
        WritingEntry(style, w, k);
      }
    } else if k < |wb| + |fb| {
      assert accuracy < 7 && !StartsWith(e, "[Writing] ") by {
        PriorityAt(style, accuracy, w, v, c, k);
        FactEntry(accuracy, v, k - |wb|);
      }
    } else {
      assert !StartsWith(e, "[Writing] ") && !StartsWith(e, "[Fact] ") by {
        PriorityAt(style, accuracy, w, v, c, k);
        SeoEntry(c, k - |wb| - |fb|);
      }
    }
  }

  /** The `k`-th priority is the entry at that place in the three blocks. */
  lemma PriorityAt(style: int, accuracy: int, w: seq<string>, v: seq<string>, c: seq<string>, k: nat)
    requires k < |Priorities(style, accuracy, w, v, c)|
    ensures var wb := WritingBlock(style, w);
            var fb := FactBlock(accuracy, v);
            var e := Priorities(style, accuracy, w, v, c)[k];
            (k < |wb| ==> e == wb[k])
            && (|wb| <= k < |wb| + |fb| ==> e == fb[k - |wb|])
            && (|wb| + |fb| <= k ==> k - |wb| - |fb| < |SeoBlock(c)| && e == SeoBlock(c)[k - |wb| - |fb|])
  {
    var r := Priorities(style, accuracy, w, v, c);
    ConcatAt(WritingBlock(style, w), FactBlock(accuracy, v), SeoBlock(c), r, k);
  }

  /** An entry of a prefix of three joined lists, located in the list it comes from. */
  lemma ConcatAt<T>(a: seq<T>, b: seq<T>, c: seq<T>, r: seq<T>, k: nat)
    requires |r| <= |a + b + c| && r == (a + b + c)[..|r|] && k < |r|
    ensures k < |a| ==> r[k] == a[k]
    ensures |a| <= k < |a| + |b| ==> r[k] == b[k - |a|]
    ensures |a| + |b| <= k ==> k - |a| - |b| < |c| && r[k] == c[k - |a| - |b|]
  {
    assert r[k] == (a + b + c)[k];
  }

  lemma WritingEntry(style: int, w: seq<string>, i: nat)
    requires i < |WritingBlock(style, w)|
    ensures style < 7 && i < 2 && !StartsWith(WritingBlock(style, w)[i], "[Fact] ")
  {
    TagsDiffer(FirstTwo(w)[i], FirstTwo(w)[i]);
  }

  lemma FactEntry(accuracy: int, v: seq<string>, i: nat)
    requires i < |FactBlock(accuracy, v)|
    ensures accuracy < 7 && !StartsWith(FactBlock(accuracy, v)[i], "[Writing] ")
  {
    TagsDiffer(FirstTwo(v)[i], FirstTwo(v)[i]);
  }

  lemma SeoEntry(c: seq<string>, i: nat)
    requires i < |SeoBlock(c)|
    ensures !StartsWith(SeoBlock(c)[i], "[Writing] ") && !StartsWith(SeoBlock(c)[i], "[Fact] ")
  {
    TagsDiffer(FirstTwo(c)[i], FirstTwo(c)[i]);
  }

  // ---------------------------------------------------------------------------
  // The four reviews and the dispatch
  // ---------------------------------------------------------------------------

  datatype Report =
    | WritingReport(strengths: seq<string>, weaknesses: seq<string>, suggestions: seq<string>, styleScore: int)
    | FactReport(questionable: seq<string>, incorrect: seq<string>, verification: seq<string>, accuracyScore: int)
    | SeoReport(contentSuggestions: seq<string>, seoScore: int)
    | ComprehensiveReport(style: Report, facts: Report, seo: Report, overallScore: int, priorities: seq<string>)

  function ReviewWriting(content: string, given: Option<WritingAnswer>): (r: Report)
    ensures r.WritingReport? && 0 <= r.styleScore <= 10
    ensures SkipsModel(content) || given.None? ==> r == WritingReport([], [], [], 0)
    ensures !SkipsModel(content) && given.Some? ==>
              r.strengths == given.value.strengths && r.weaknesses == given.value.weaknesses &&
              r.suggestions == given.value.suggestions &&
              r.styleScore == StyleScore(|Strip(content)|, |given.value.strengths|, |given.value.weaknesses|)
  {
    match WritingOf(content, given)
    case None => WritingReport([], [], [], 0)
    case Some(ans) =>
      WritingReport(ans.strengths, ans.weaknesses, ans.suggestions,
                    StyleScore(|Strip(content)|, |ans.strengths|, |ans.weaknesses|))
  }

  function ReviewFacts(content: string, given: Option<FactAnswer>): (r: Report)
    ensures r.FactReport? && 0 <= r.accuracyScore <= 10
    ensures SkipsModel(content) || given.None? ==> r == FactReport([], [], [], 0)
    ensures !SkipsModel(content) && given.Some? ==>
              r.questionable == given.value.questionable && r.incorrect == given.value.incorrect &&
              r.verification == given.value.verification &&
              r.accuracyScore == AccuracyScore(|Strip(content)|, |given.value.accurate|,
                                               |given.value.questionable|, |given.value.incorrect|)
  {
    match FactsOf(content, given)
    case None => FactReport([], [], [], 0)
    case Some(ans) =>
      FactReport(ans.questionable, ans.incorrect, ans.verification,
                 AccuracyScore(|Strip(content)|, |ans.accurate|, |ans.questionable|, |ans.incorrect|))
  }

  function ReviewSeo(content: string, given: Option<SeoAnswer>): (r: Report)
    ensures r.SeoReport?
    ensures r.seoScore == 0 || r.seoScore == 1 || (given.Some? && r.seoScore == given.value.score)
    ensures SkipsModel(content) || given.None? ==> r == SeoReport([], 0)
    ensures !SkipsModel(content) && given.Some? ==>
              r.contentSuggestions == given.value.contentSuggestions &&
              r.seoScore == SeoScore(|Strip(content)|, given.value.score)
  {
    match SeoOf(content, given)
    case None => SeoReport([], 0)
    case Some(ans) => SeoReport(ans.contentSuggestions, SeoScore(|Strip(content)|, ans.score))
  }

  function ReviewComprehensive(content: string, answers: Answers): (r: Report)
    ensures r.ComprehensiveReport? && |r.priorities| <= 5
    ensures r.style == ReviewWriting(content, answers.writing)
    ensures r.facts == ReviewFacts(content, answers.facts)
    ensures r.seo == ReviewSeo(content, answers.seo)
    ensures r.overallScore == OverallScore(|Strip(content)|, r.style.styleScore, r.facts.accuracyScore, r.seo.seoScore)
    ensures r.priorities == Priorities(r.style.styleScore, r.facts.accuracyScore, r.style.suggestions,
                                       r.facts.verification, r.seo.contentSuggestions)
  {
    var wr := ReviewWriting(content, answers.writing);
    var fr := ReviewFacts(content, answers.facts);
    var sr := ReviewSeo(content, answers.seo);
    var overall := OverallScore(|Strip(content)|, wr.styleScore, fr.accuracyScore, sr.seoScore);
    ComprehensiveReport(wr, fr, sr, overall,
                        Priorities(wr.styleScore, fr.accuracyScore, wr.suggestions, fr.verification, sr.contentSuggestions))
  }

  /**
   * Content of 50 to 99 stripped characters passes validation but never
   * reaches the model, and every score of its comprehensive review is 0.
   */
  lemma ShortContentScoresZero(content: string, answers: Answers)
    requires SkipsModel(content)
    ensures var r := ReviewComprehensive(content, answers);
      r.style.styleScore == 0 && r.facts.accuracyScore == 0 && r.seo.seoScore == 0 && r.overallScore == 0
      && r.priorities == []
  {
  }

  /** With model answers whose scores are out of 10, so is the overall score. */
  lemma ComprehensiveScoreBound(content: string, answers: Answers)
    requires answers.seo.Some? ==> 0 <= answers.seo.value.score <= 10
    ensures 0 <= ReviewComprehensive(content, answers).overallScore <= 10
  {
    var r := ReviewComprehensive(content, answers);
    var s := r.style.styleScore;
    var a := r.facts.accuracyScore;
    var o := r.seo.seoScore;
    assert 0 <= o <= 10;
    if PositiveCount(s, a, o) > 0 && s + a + o != 0 {
      OverallBetween(|Strip(content)|, s, a, o, 1, 10);
    }
  }

  datatype ReviewKind = Writing | FactCheck | Seo | Comprehensive

  /** The review type, with `comprehensive` for any name the agent does not know. */
  function KindOf(name: string): (k: ReviewKind)
    ensures name != "writing" && name != "fact_check" && name != "seo" ==> k == Comprehensive
  {
    if name == "writing" then Writing
    else if name == "fact_check" then FactCheck
    else if name == "seo" then Seo
    else Comprehensive
  }

  /** `review`: validation first, then the review the type names. */
  function RunReview(content: string, reviewType: string, answers: Answers): (r: Result<Report>)
    ensures r.Err? <==> Validate(content).Some?
    ensures r.Err? ==> r.error == Validate(content).value
    ensures r.Ok? && KindOf(reviewType) == Comprehensive ==> r.value == ReviewComprehensive(content, answers)
    ensures r.Ok? && KindOf(reviewType) == Writing ==> r.value == ReviewWriting(content, answers.writing)
    ensures r.Ok? && KindOf(reviewType) == FactCheck ==> r.value == ReviewFacts(content, answers.facts)
    ensures r.Ok? && KindOf(reviewType) == Seo ==> r.value == ReviewSeo(content, answers.seo)
  {
    match Validate(content)
    case Some(message) => Err(message)
    case None =>
      Ok(match KindOf(reviewType)
         case Writing => ReviewWriting(content, answers.writing)
         case FactCheck => ReviewFacts(content, answers.facts)
         case Seo => ReviewSeo(content, answers.seo)
         case Comprehensive => ReviewComprehensive(content, answers))
  }

  /** An unknown review type gets exactly the comprehensive review. */
  lemma UnknownTypeIsComprehensive(content: string, reviewType: string, answers: Answers)
    requires reviewType !in {"writing", "fact_check", "seo"}
    ensures RunReview(content, reviewType, answers) == RunReview(content, "comprehensive", answers)
  {
  }

  // ---------------------------------------------------------------------------
  // Prompt
  // ---------------------------------------------------------------------------

  const TruncationNote: string := "...[truncated for length]"

  /** The content as the review prompt quotes it: at most 4000 characters, then a note. */
  function PromptContent(content: string): (r: string)
    ensures |content| <= 4000 ==> r == content
    ensures |content| > 4000 ==> |r| == 4000 + |TruncationNote| && r[..4000] == content[..4000]
    ensures |content| > 4000 ==> EndsWith(r, TruncationNote)
  {
    if |content| > 4000 then content[..4000] + TruncationNote else content
  }
}
