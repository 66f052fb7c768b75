/**
 * The `Write` agent of `services/llm/Agents/Write.py`: prompt parameters
 * from a writing request, the research context, the title and key points
 * read from the model's answer, and the dispatch on the content type. The
 * model and the content query are oracles; the prompt is kept as its parts.
 */
module WriteAgent {
  import opened Wrappers
  import opened PyText
  import QueryResearch
  import Seqs

  // ---------------------------------------------------------------------------
  // Line-anchored matching: `(?m)^<lead>\s+(.+)$`
  // ---------------------------------------------------------------------------

  /** `^` under `re.MULTILINE`: the start of the text or just after a newline. */
  predicate LineStart(s: string, p: nat) {
    p == 0 || (0 < p <= |s| && s[p - 1] == '\n')
  }

  /** The number of whitespace characters from `q` on. */
  function SpaceRun(s: string, q: nat): (n: nat)
    requires q <= |s|
    ensures q + n <= |s|
    ensures forall k :: q <= k < q + n ==> IsSpace(s[k])
    ensures q + n < |s| ==> !IsSpace(s[q + n])
    decreases |s| - q
  {
    if q == |s| || !IsSpace(s[q]) then 0 else 1 + SpaceRun(s, q + 1)
  }

  /** Where the line through `q` ends: the next newline, or the end of the text. */
  function LineEnd(s: string, q: nat): (e: nat)
    requires q <= |s|
    ensures q <= e <= |s|
    ensures forall k :: q <= k < e ==> s[k] != '\n'
    ensures e < |s| ==> s[e] == '\n'
    decreases |s| - q
  {
    if q == |s| || s[q] == '\n' then q else LineEnd(s, q + 1)
  }

  /**
   * The greedy `\s+` backing off: the longest length, at most `l`, after
   * which `.+` finds a character other than a newline.
   */
  function BackOff(s: string, q: nat, l: nat): (r: Option<nat>)
    requires q + l <= |s|
    ensures r.Some? ==> 1 <= r.value <= l && q + r.value < |s| && s[q + r.value] != '\n'
    ensures r.Some? ==> forall j :: q + r.value < j <= q + l && j < |s| ==> s[j] == '\n'
    ensures r.None? ==> forall j :: q + 1 <= j <= q + l && j < |s| ==> s[j] == '\n'
    decreases l
  {
    if l == 0 then None
    else if q + l < |s| && s[q + l] != '\n' then Some(l)
    else BackOff(s, q, l - 1)
  }

  /** A match: the `(.+)` group, where the group starts and where the match ends. */
  datatype Hit = Hit(group: string, start: nat, end: nat)

  /** `<lead>\s+(.+)$` tried at `p`. */
  function MatchAt(s: string, p: nat, lead: char -> bool): (r: Option<Hit>)
    requires p <= |s|
    ensures r.Some? ==> p < r.value.end <= |s|
    ensures r.Some? ==> |r.value.group| > 0 && forall k :: 0 <= k < |r.value.group| ==> r.value.group[k] != '\n'
    ensures r.Some? ==> r.value.start <= r.value.end && r.value.group == s[r.value.start..r.value.end]
  {
    if p == |s| || !lead(s[p]) then None
    else
      var l := SpaceRun(s, p + 1);
      match BackOff(s, p + 1, l)
      case None => None
      case Some(w) =>
        var a := p + 1 + w;
        var e := LineEnd(s, a);
        assert e > a by { assert s[a] != '\n'; }
        Some(Hit(s[a..e], a, e))
  }

  /**
   * What a match at `p` is: the lead character, a run of whitespace of which
   * the greedy `\s+` keeps all but the trailing newlines, and the group to
   * the end of its line. There is none when the whitespace after the lead is
   * empty or made only of newlines to the end of the run.
   */
  lemma MatchAtMeaning(s: string, p: nat, lead: char -> bool)
    requires p <= |s|
    ensures var r := MatchAt(s, p, lead);
            r.Some? ==> p < |s| && lead(s[p]) && p + 1 < r.value.start <= p + 1 + SpaceRun(s, p + 1)
                        && r.value.end == LineEnd(s, r.value.start)
    ensures MatchAt(s, p, lead).None? <==>
              p == |s| || !lead(s[p]) || forall k :: p + 1 < k <= p + 1 + SpaceRun(s, p + 1) && k < |s| ==> s[k] == '\n'
  {
    if p < |s| && lead(s[p]) {
      var l := SpaceRun(s, p + 1);
      var b := BackOff(s, p + 1, l);
      if b.Some? {
        var k := p + 1 + b.value;
        assert p + 1 < k <= p + 1 + l && k < |s| && s[k] != '\n';
      }
    }
  }

  /** The pattern matches at line start `p`. */
  predicate Anchored(s: string, p: nat, lead: char -> bool)
    requires p <= |s|
  {
    LineStart(s, p) && MatchAt(s, p, lead).Some?
  }

  /** The leftmost line start at or after `from` where the pattern matches. */
  function FirstMatch(s: string, from: nat, lead: char -> bool): (r: Option<nat>)
    requires from <= |s|
    ensures r.Some? ==> from <= r.value <= |s| && Anchored(s, r.value, lead)
    ensures r.Some? ==> forall p :: from <= p < r.value ==> !Anchored(s, p, lead)
    ensures r.None? ==> forall p :: from <= p <= |s| ==> !Anchored(s, p, lead)
    decreases |s| - from
  {
    var ok := (p: nat) => p <= |s| && Anchored(s, p, lead);
    assert forall p: nat :: p <= |s| ==> (ok(p) <==> Anchored(s, p, lead));
    Seqs.FirstFrom(from, |s|, ok)
  }

  /**
   * Where `re.findall` finds its matches from `from`: the leftmost line start
   * that matches, then on from the end of that match.
   */
  function MatchStarts(s: string, from: nat, lead: char -> bool): (ps: seq<nat>)
    requires from <= |s|
    decreases |s| - from
  {
    match FirstMatch(s, from, lead)
    case None => []
    case Some(p) => [p] + MatchStarts(s, MatchAt(s, p, lead).value.end, lead)
  }

  /** `re.findall` from `from`: each match's group, searching on from its end. */
  function FindAll(s: string, from: nat, lead: char -> bool): (r: seq<string>)
    requires from <= |s|
    ensures |r| > 0 <==> FirstMatch(s, from, lead).Some?
    decreases |s| - from
  {
    match FirstMatch(s, from, lead)
    case None => []
    case Some(p) =>
      var h := MatchAt(s, p, lead).value;
      [h.group] + FindAll(s, h.end, lead)
  }

  /** The first item found is the group of the leftmost match. */
  lemma FindAllFirst(s: string, from: nat, lead: char -> bool)
    requires from <= |s|
    ensures var r := FindAll(s, from, lead);
            |r| > 0 ==> r[0] == MatchAt(s, FirstMatch(s, from, lead).value, lead).value.group
  {
  }

  /** `g` is the non-empty one-line group of a match at line start `q`. */
  predicate GroupAt(s: string, lead: char -> bool, q: nat, g: string) {
    q <= |s| && Anchored(s, q, lead) && g == MatchAt(s, q, lead).value.group && |g| > 0 && !Contains(g, "\n")
  }

  function GroupOf(s: string, lead: char -> bool): (nat, string) -> bool {
    (q: nat, g: string) => GroupAt(s, lead, q, g)
  }

  /** `ps` are matching line starts from `from` on, in increasing order, and `r` their groups. */
  predicate GroupsAt(s: string, from: nat, lead: char -> bool, ps: seq<nat>, r: seq<string>) {
    && Seqs.Paired(ps, r, GroupOf(s, lead))
    && (forall i :: 0 <= i < |ps| ==> from <= ps[i])
    && Seqs.Ascending(ps)
  }

  /**
   * Every item found is the non-empty one-line group of a match at a line
   * start at or after `from`, and the matches come in text order.
   */
  lemma {:induction false} FindAllGroups(s: string, from: nat, lead: char -> bool)
    requires from <= |s|
    ensures GroupsAt(s, from, lead, MatchStarts(s, from, lead), FindAll(s, from, lead))
    decreases |s| - from
  {
    match FirstMatch(s, from, lead)
    case None =>
    case Some(p) =>
      var h := MatchAt(s, p, lead).value;
      NoNewline(h.group);
      FindAllGroups(s, h.end, lead);
      GroupsStep(s, from, lead, p, h.end, h.group, MatchStarts(s, h.end, lead), FindAll(s, h.end, lead));
  }

  lemma GroupsStep(s: string, from: nat, lead: char -> bool, p: nat, end: nat, g: string, ps: seq<nat>, rest: seq<string>)
    requires from <= p < end && GroupAt(s, lead, p, g) && GroupsAt(s, end, lead, ps, rest)
    ensures GroupsAt(s, from, lead, [p] + ps, [g] + rest)
  {
    Seqs.PairedCons(p, g, ps, rest, GroupOf(s, lead));
    Seqs.AscendingCons(p, ps);
    forall i | 0 <= i < |[p] + ps| ensures from <= ([p] + ps)[i] {
      if i > 0 { assert ([p] + ps)[i] == ps[i - 1]; }
    }
  }

  lemma NoNewline(t: string)
    requires forall k :: 0 <= k < |t| ==> t[k] != '\n'
    ensures !Contains(t, "\n")
  {
    forall i | 0 <= i <= |t| - 1 ensures !OccursAt(t, "\n", i) {
      assert t[i..i + 1][0] == t[i];
    }
  }

  // ---------------------------------------------------------------------------
  // Title and key points
  // ---------------------------------------------------------------------------

  predicate IsHash(c: char) {
    c == '#'
  }

  function HashLead(): char -> bool {
    (c: char) => IsHash(c)
  }

  /** `re.search(r'^#\s+(.+)$', text, re.MULTILINE)`: the first heading's text, if any. */
  function Heading(text: string): (r: Option<string>)
    ensures r.Some? ==> |r.value| > 0 && !Contains(r.value, "\n")
    ensures r.Some? <==> exists p :: 0 <= p <= |text| && Anchored(text, p, HashLead())
    ensures r.Some? ==> r.value == MatchAt(text, FirstMatch(text, 0, HashLead()).value, HashLead()).value.group
  {
    match FirstMatch(text, 0, HashLead())
    case None => None
    case Some(p) =>
      var h := MatchAt(text, p, HashLead()).value;
      NoNewline(h.group);
      Some(h.group)
  }

  /** `[\*\-\d\.\•]`: a bullet or list-number character. */
  predicate IsBullet(c: char) {
    c == '*' || c == '-' || IsDigit(c) || c == '.' || c == '•'
  }

  function BulletLead(): char -> bool {
    (c: char) => IsBullet(c)
  }

  /** `re.findall(r'(?m)^[\*\-\d\.\•]\s+(.+)$', text)`. */
  function KeyPoints(text: string): (r: seq<string>)
    ensures |r| > 0 <==> exists p :: 0 <= p <= |text| && Anchored(text, p, BulletLead())
    ensures GroupsAt(text, 0, BulletLead(), MatchStarts(text, 0, BulletLead()), r)
  {
    FindAllGroups(text, 0, BulletLead());
    FindAll(text, 0, BulletLead())
  }

  /** A bullet line yields its text as a key point. */
  lemma DashKeyPoint(t: string)
    requires |t| > 0 && !IsSpace(t[0]) && forall k :: 0 <= k < |t| ==> t[k] != '\n'
    ensures KeyPoints("- " + t) == [t]
  {
    var s := "- " + t;
    assert s[2..] == t;
    assert SpaceRun(s, 2) == 0;
    assert SpaceRun(s, 1) == 1;
    assert LineEnd(s, 2) == |s| by { LineEndOf(s, 2); }
    assert BulletLead()(s[0]);
    assert s[2] == t[0] && s[2] != '\n';
    assert BackOff(s, 1, 1) == Some(1);
    assert s[2..|s|] == t;
    assert 0 != |s|;
    assert MatchAt(s, 0, BulletLead()) == Some(Hit(s[2..LineEnd(s, 2)], 2, LineEnd(s, 2)));
    assert MatchAt(s, 0, BulletLead()) == Some(Hit(t, 2, |s|));
    assert Anchored(s, 0, BulletLead());
    assert FirstMatch(s, 0, BulletLead()) == Some(0);
    assert !Anchored(s, |s|, BulletLead());
    assert FirstMatch(s, |s|, BulletLead()) == None;
    assert FindAll(s, |s|, BulletLead()) == [];
    assert FindAll(s, 0, BulletLead()) == [t] + FindAll(s, |s|, BulletLead());
  }

  lemma LineEndOf(s: string, q: nat)
    requires q <= |s| && forall k :: q <= k < |s| ==> s[k] != '\n'
    ensures LineEnd(s, q) == |s|
  {
  }

  /** A numbered item `1. x` is not a key point: the digit must be followed by whitespace. */
  lemma NumberedItemMissed(x: string)
    requires forall k :: 0 <= k < |x| ==> x[k] != '\n'
    ensures KeyPoints("1. " + x) == []
  {
    var s := "1. " + x;
    assert SpaceRun(s, 1) == 0;
    assert MatchAt(s, 0, BulletLead()).None?;
    forall p | 0 < p <= |s| ensures !LineStart(s, p) {
      if p <= 3 { assert s[p - 1] != '\n'; } else { assert s[p - 1] == x[p - 4]; }
    }
    assert FirstMatch(s, 0, BulletLead()).None?;
  }

  /** A first line `# t` gives the title `t`. */
  lemma HeadingOfFirstLine(t: string, rest: string)
    requires |t| > 0 && !IsSpace(t[0]) && forall k :: 0 <= k < |t| ==> t[k] != '\n'
    ensures Heading("# " + t + "\n" + rest) == Some(t)
  {
    var s := "# " + t + "\n" + rest;
    assert s[2..2 + |t|] == t;
    assert s[2 + |t|] == '\n';
    assert SpaceRun(s, 2) == 0;
    assert SpaceRun(s, 1) == 1;
    LineEndAt(s, 2, 2 + |t|);
    assert MatchAt(s, 0, HashLead()) == Some(Hit(t, 2, 2 + |t|));
    assert FirstMatch(s, 0, HashLead()) == Some(0);
  }

  /** `\s+` may cross a line break: a bare `#` takes the next line as the heading. */
  lemma HeadingAcrossNewline(t: string)
    requires |t| > 0 && !IsSpace(t[0]) && forall k :: 0 <= k < |t| ==> t[k] != '\n'
    ensures Heading("#\n" + t) == Some(t)
  {
    var s := "#\n" + t;
    assert s[2..|s|] == t;
    assert s[2] == t[0];
    assert SpaceRun(s, 2) == 0;
    assert SpaceRun(s, 1) == 1;
    assert BackOff(s, 1, 1) == Some(1);
    assert LineEnd(s, 2) == |s| by { LineEndOf(s, 2); }
    assert MatchAt(s, 0, HashLead()) == Some(Hit(s[2..LineEnd(s, 2)], 2, LineEnd(s, 2)));
    assert Anchored(s, 0, HashLead());
    assert FirstMatch(s, 0, HashLead()) == Some(0);
  }

  lemma LineEndAt(s: string, q: nat, e: nat)
    requires q <= e < |s| && s[e] == '\n' && forall k :: q <= k < e ==> s[k] != '\n'
    ensures LineEnd(s, q) == e
    decreases e - q
  {
    if q < e {
      LineEndAt(s, q + 1, e);
    }
  }

  // ---------------------------------------------------------------------------
  // Request, prompt and result
  // ---------------------------------------------------------------------------

  /** A writing request: its optional `type`, `topic` and `length`, and its `keywords`. */
  datatype Request = Request(kind: Option<string>, topic: Option<string>, keywords: seq<string>, length: Option<string>)

  /** `request.get("type", "answer").lower()`. */
  function ContentType(r: Request): string {
    Lower(r.kind.GetOr("answer"))
  }

  /** The `length_map` lookup on the lower-cased length, `200-400 words` when unknown. */
  function WordCount(length: string): (w: string)
    ensures w in {"50-100 words", "100-200 words", "200-400 words", "500-800 words"}
    ensures Lower(length) !in {"very short", "short", "medium", "long"} ==> w == "200-400 words"
  {
    var l := Lower(length);
    if l == "very short" then "50-100 words"
    else if l == "short" then "100-200 words"
    else if l == "long" then "500-800 words"
    else "200-400 words"
  }

  /** The lookup ignores case. */
  lemma WordCountIgnoresCase(length: string)
    ensures WordCount(Lower(length)) == WordCount(length)
  {
    LowerIdempotent(length);
  }

  /** The number of quiz questions: compared to the length as given, case and all. */
  function QuizSize(length: string): (n: nat)
    ensures n == 3 <==> length == "short"
    ensures n == 5 <==> length == "medium"
    ensures n == 8 <==> length != "short" && length != "medium"
  {
    if length == "short" then 3 else if length == "medium" then 5 else 8
  }

  /** A `very short` quiz gets the largest number of questions. */
  lemma VeryShortQuiz()
    ensures QuizSize("very short") == 8 && WordCount("very short") == "50-100 words"
  {
    AlreadyLower("very short");
  }

  /** A capitalised `Short` shortens the text but not the quiz. */
  lemma CapitalisedShortQuiz()
    ensures QuizSize("Short") == 8 && WordCount("Short") == "100-200 words"
  {
    var l := Lower("Short");
    assert l[0] == 's';
    assert l == "short";
  }

  lemma AlreadyLower(s: string)
    requires forall k :: 0 <= k < |s| ==> !IsUpper(s[k])
    ensures Lower(s) == s
  {
  }

  /** `', '.join(keywords) if keywords else 'None specified'`. */
  function KeywordText(keywords: seq<string>): string {
    if |keywords| == 0 then "None specified" else Join(keywords, ", ")
  }

  /** The parts the prompt text is built around, per content type. */
  datatype PromptBody =
    | AnswerPrompt(topic: string, wordCount: string, keywords: string)
    | SummaryPrompt(topic: string, wordCount: string, keywords: string)
    | QuizPrompt(topic: string, questions: nat)

  /** The prompt and the research context appended to it, if any. */
  datatype Prompt = Prompt(body: PromptBody, research: Option<string>)

  /** `_prepare_prompt`: `None` for a type without a prompt (the variable stays unbound). */
  function PreparePrompt(r: Request): (p: Option<PromptBody>)
    ensures p.Some? <==> ContentType(r) in {"answer", "summary", "quiz"}
    ensures p.Some? && !p.value.QuizPrompt? ==> p.value.wordCount == WordCount(r.length.GetOr("medium"))
    ensures p.Some? ==> p.value.topic == r.topic.GetOr("")
  {
    var t := ContentType(r);
    var topic := r.topic.GetOr("");
    var length := r.length.GetOr("medium");
    if t == "answer" then Some(AnswerPrompt(topic, WordCount(length), KeywordText(r.keywords)))
    else if t == "summary" then Some(SummaryPrompt(topic, WordCount(length), KeywordText(r.keywords)))
    else if t == "quiz" then Some(QuizPrompt(topic, QuizSize(length)))
    else None
  }

  /** A result with text to cite. */
  predicate Cited(s: QueryResearch.SourceResult) {
    s.response.GetOr("") != ""
  }

  function SourcePart(s: QueryResearch.SourceResult): string {
    "Source: " + s.title.GetOr("") + "\n" + s.response.GetOr("") + "\n"
  }

  function PartOf(s: QueryResearch.SourceResult): Option<string> {
    if Cited(s) then Some(SourcePart(s)) else None
  }

  /** `context_parts`: one part per result with text, in the order of the results. */
  function SourceParts(results: seq<QueryResearch.SourceResult>): (parts: seq<string>)
    ensures forall i :: 0 <= i < |parts| ==> exists j :: 0 <= j < |results| && Cited(results[j]) && parts[i] == SourcePart(results[j])
    ensures forall j :: 0 <= j < |results| && Cited(results[j]) ==> SourcePart(results[j]) in parts
  {
    var parts := Seqs.Choose(results, PartOf);
    forall i | 0 <= i < |parts|
      ensures exists j :: 0 <= j < |results| && Cited(results[j]) && parts[i] == SourcePart(results[j])
    {
      var j :| 0 <= j < |results| && PartOf(results[j]) == Some(parts[i]);
    }
    forall j | 0 <= j < |results| && Cited(results[j]) ensures SourcePart(results[j]) in parts {
      assert PartOf(results[j]).Some?;
    }
    parts
  }

  /** The parts of two runs of results are those of the first run, then those of the second. */
  lemma SourcePartsInOrder(a: seq<QueryResearch.SourceResult>, b: seq<QueryResearch.SourceResult>)
    ensures SourceParts(a + b) == SourceParts(a) + SourceParts(b)
  {
    Seqs.ChooseAppend(a, b, PartOf);
  }

  /**
   * The research context: asked for only with research on and a topic; kept
   * only when the reply reports success with results. A failing query is
   * ignored.
   */
  function Research(r: Request, useResearch: bool, researchQuery: Option<string>,
                    queryContent: string -> Result<QueryResearch.ContentReply>): (c: Option<string>)
    ensures c.Some? ==> useResearch && r.topic.GetOr("") != "" && StartsWith(c.value, "Research Context:\n")
    ensures c.Some? <==> useResearch && r.topic.GetOr("") != ""
                         && var reply := queryContent(ResearchQuery(r, researchQuery));
                            reply.Ok? && reply.value.success && |reply.value.results| > 0
    ensures c.Some? ==> c.value == "Research Context:\n"
                                  + Join(SourceParts(queryContent(ResearchQuery(r, researchQuery)).value.results), "\n")
  {
    if !useResearch || r.topic.GetOr("") == "" then None
    else
      match queryContent(ResearchQuery(r, researchQuery))
      case Err(_) => None
      case Ok(reply) =>
        if reply.success && |reply.results| > 0 then
          var c := "Research Context:\n" + Join(SourceParts(reply.results), "\n");
          assert c[..18] == "Research Context:\n";
          Some(c)
        else None
  }

  /** `research_query` when given and non-empty, else the topic. */
  function ResearchQuery(r: Request, researchQuery: Option<string>): string {
    if researchQuery.Some? && researchQuery.value != "" then researchQuery.value else r.topic.GetOr("")
  }

  /** The formatted content; each variant keeps the raw answer text. */
  datatype Formatted =
    | Answer(question: string, answer: string, sources: seq<string>, rawText: string)
    | Summary(title: string, content: string, keyPoints: seq<string>, rawText: string)
    | Quiz(title: string, rawText: string)

  datatype WriteResult = Written(content: Formatted) | Failed(message: string)

  /** The message Python gives for reading the unbound `prompt`. */
  const UnboundPrompt: string := "cannot access local variable 'prompt' where it is not associated with a value"

  /** The first `# ` heading of the answer, else the topic. */
  function Title(answer: string, r: Request): (t: string)
    ensures Heading(answer).Some? ==> t == Heading(answer).value
    ensures Heading(answer).None? ==> t == r.topic.GetOr("")
  {
    match Heading(answer)
    case Some(h) => h
    case None => r.topic.GetOr("")
  }

  /** The title a formatted result shows: an answer's `question`, else its `title`. */
  function Caption(f: Formatted): string {
    match f
    case Answer(q, _, _, _) => q
    case Summary(t, _, _, _) => t
    case Quiz(t, _) => t
  }

  /** `write`: `llm` answers a prompt, or fails with the service's error. */
  function WriteRequest(r: Request, useResearch: bool, researchQuery: Option<string>,
                        queryContent: string -> Result<QueryResearch.ContentReply>,
                        llm: Prompt -> Result<string>): (w: WriteResult)
    ensures PreparePrompt(r).None? ==> w == Failed(UnboundPrompt)
    ensures PreparePrompt(r).Some? ==>
              var p := Prompt(PreparePrompt(r).value, Research(r, useResearch, researchQuery, queryContent));
              (llm(p).Err? ==> w == Failed("Error from LLM service: " + llm(p).error))
              && (llm(p).Ok? ==> w.Written? && w.content.rawText == llm(p).value)
    ensures w.Written? && ContentType(r) == "answer" ==> w.content.Answer? && w.content.sources == []
    ensures w.Written? && ContentType(r) == "summary" ==> w.content.Summary? && w.content.keyPoints == KeyPoints(w.content.rawText)
    ensures w.Written? && ContentType(r) == "quiz" ==> w.content.Quiz?
    ensures w.Written? ==> Caption(w.content) == Title(w.content.rawText, r)
    ensures w.Written? && w.content.Answer? ==> w.content.answer == w.content.rawText
    ensures w.Written? && w.content.Summary? ==> w.content.content == w.content.rawText
  {
    match PreparePrompt(r)
    case None => Failed(UnboundPrompt)
    case Some(body) =>
      var p := Prompt(body, Research(r, useResearch, researchQuery, queryContent));
      match llm(p)
      case Err(e) => Failed("Error from LLM service: " + e)
      case Ok(answer) =>
        var title := Title(answer, r);
        var t := ContentType(r);
        if t == "summary" then Written(Summary(title, answer, KeyPoints(answer), answer))
        else if t == "quiz" then Written(Quiz(title, answer))
        else Written(Answer(title, answer, [], answer))
  }

  /**
   * As `query_content` never reports success, the prompt never carries
   * research context.
   */
  lemma NoResearchWithoutSuccess(r: Request, useResearch: bool, researchQuery: Option<string>,
                                 queryContent: string -> Result<QueryResearch.ContentReply>)
    requires forall q :: queryContent(q).Ok? ==> !queryContent(q).value.success
    ensures Research(r, useResearch, researchQuery, queryContent).None?
  {
  }
}
