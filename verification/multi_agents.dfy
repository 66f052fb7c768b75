/**
 * The text handling of the reviewing, structural and writing agents in
 * `services/llm/MultiAgents/`: splitting an instruction into a delimited
 * content block and the remaining instruction, choosing the prompt, and
 * cleaning the model's answer. The model is an oracle over a `Prompt`.
 */
module MultiAgents {
  import opened Wrappers
  import opened PyText
  import Seqs

  // ---------------------------------------------------------------------------
  // Content blocks
  // ---------------------------------------------------------------------------

  /** One delimiter kind: `open(.*?)close` under `re.DOTALL`. */
  datatype Marker = Marker(open: string, close: string)

  /** The delimiter kinds, in the order they are tried. */
  const Markers: seq<ValidKind> := [
    Marker("```", "```"),
    Marker("\"\"\"", "\"\"\""),
    Marker("'''", "'''"),
    Marker("CONTENT:", "ENDCONTENT"),
    Marker("<content>", "</content>")
  ]

  predicate ValidMarker(m: Marker) {
    |m.open| > 0 && |m.close| > 0
  }

  /** A delimiter kind with non-empty delimiters. */
  type ValidKind = m: Marker | ValidMarker(m) witness Marker("`", "`")

  lemma MarkerValid(k: nat)
    requires k < |Markers|
    ensures ValidMarker(Markers[k])
  {
  }

  /** A block: the opener at `start`, the closer at `end`. */
  datatype Span = Span(start: nat, end: nat)

  /** `open` at `i` and `close` at `j` enclose a block. */
  predicate BlockAt(s: string, m: Marker, i: int, j: int) {
    OccursAt(s, m.open, i) && i + |m.open| <= j && OccursAt(s, m.close, j)
  }

  /**
   * `re.search(open(.*?)close, s, re.DOTALL)`: the leftmost opener that has
   * a closer after it, and the first such closer.
   */
  function FirstBlock(s: string, m: Marker): (r: Option<Span>)
    ensures r.Some? ==> BlockAt(s, m, r.value.start, r.value.end)
    ensures r.Some? ==> forall i :: 0 <= i < r.value.start ==> !OccursAt(s, m.open, i)
    ensures r.Some? ==> forall j :: r.value.start + |m.open| <= j < r.value.end ==> !OccursAt(s, m.close, j)
    ensures r.None? <==> forall i, j :: !BlockAt(s, m, i, j)
  {
    match Find(s, m.open)
    case None => None
    case Some(i) =>
      match FindFrom(s, m.close, i + |m.open|)
      case None => None
      case Some(j) =>
        assert BlockAt(s, m, i, j);
        Some(Span(i, j))
  }

  /** The text between the delimiters of a block. */
  function Inner(s: string, m: Marker, sp: Span): string
    requires BlockAt(s, m, sp.start, sp.end)
  {
    s[sp.start + |m.open|..sp.end]
  }

  /**
   * `re.sub(open.*?close, '', s, flags=re.DOTALL)`: every block, found left
   * to right without overlap, is removed.
   */
  function RemoveBlocks(s: string, m: Marker): (r: string)
    requires ValidMarker(m)
    ensures |r| <= |s|
    ensures FirstBlock(s, m).None? <==> r == s
    decreases |s|
  {
    match FirstBlock(s, m)
    case None => s
    case Some(sp) => s[..sp.start] + RemoveBlocks(s[sp.end + |m.close|..], m)
  }

  /**
   * The leftmost block is cut and the search goes on after it: when `open`
   * first occurs right after `a` and `close` first occurs after it right
   * after `c`, the text before the block stays and the blocks of `b` go.
   */
  lemma RemoveBlocksCut(a: string, c: string, b: string, m: Marker)
    requires ValidMarker(m)
    requires var s := a + m.open + c + m.close + b;
             forall i :: 0 <= i < |a| ==> !OccursAt(s, m.open, i)
    requires var s := a + m.open + c + m.close + b;
             forall j :: |a| + |m.open| <= j < |a| + |m.open| + |c| ==> !OccursAt(s, m.close, j)
    ensures RemoveBlocks(a + m.open + c + m.close + b, m) == a + RemoveBlocks(b, m)
  {
    var s := a + m.open + c + m.close + b;
    var i, j := |a|, |a| + |m.open| + |c|;
    assert s[i..i + |m.open|] == m.open;
    assert s[j..j + |m.close|] == m.close;
    assert BlockAt(s, m, i, j);
    var sp := FirstBlock(s, m).value;
    assert sp.start == i;
    assert sp.end == j;
    assert s[..i] == a;
    assert s[j + |m.close|..] == b;
  }

  /** The position of the first delimiter kind that has a block in `s`. */
  function FirstKind(s: string): (r: Option<nat>)
    ensures r.Some? ==> r.value < |Markers| && FirstBlock(s, Markers[r.value]).Some?
    ensures r.Some? ==> forall k :: 0 <= k < r.value ==> FirstBlock(s, Markers[k]).None?
    ensures r.None? <==> forall k :: 0 <= k < |Markers| ==> FirstBlock(s, Markers[k]).None?
  {
    FirstKindFrom(s, 0)
  }

  function FirstKindFrom(s: string, k: nat): (r: Option<nat>)
    requires k <= |Markers|
    ensures r.Some? ==> k <= r.value < |Markers| && FirstBlock(s, Markers[r.value]).Some?
    ensures r.Some? ==> forall k' :: k <= k' < r.value ==> FirstBlock(s, Markers[k']).None?
    ensures r.None? <==> forall k' :: k <= k' < |Markers| ==> FirstBlock(s, Markers[k']).None?
  {
    var ok := (i: nat) => i < |Markers| && FirstBlock(s, Markers[i]).Some?;
    assert forall i: nat :: i < |Markers| ==> (ok(i) <==> FirstBlock(s, Markers[i]).Some?);
    Seqs.FirstFrom(k, |Markers|, ok)
  }

  /** What `_parse_instruction` returns: the block's content, if any, and the rest. */
  datatype Parsed = Parsed(content: Option<string>, instruction: string)

  /**
   * `_parse_instruction` (identical in the reviewing and structural agents):
   * for the first kind with a block, the stripped content of its first block
   * and the stripped instruction without any of its blocks.
   */
  function ParseInstruction(instruction: string): (r: Parsed)
    ensures r.content.None? <==> FirstKind(instruction).None?
    ensures r.content.None? ==> r.instruction == instruction
    ensures r.content.Some? ==>
              var m := Markers[FirstKind(instruction).value];
              var sp := FirstBlock(instruction, m).value;
              && r.content.value == Strip(Inner(instruction, m, sp))
              && r.instruction == Strip(RemoveBlocks(instruction, m))
  {
    match FirstKind(instruction)
    case None => Parsed(None, instruction)
    case Some(k) => ParseWith(instruction, k)
  }

  /** The parse once kind `k` is known to have a block. */
  function ParseWith(s: string, k: nat): (r: Parsed)
    requires k < |Markers| && FirstBlock(s, Markers[k]).Some?
    ensures r.content.Some?
    ensures r.content.value == Strip(Inner(s, Markers[k], FirstBlock(s, Markers[k]).value))
    ensures r.instruction == Strip(RemoveBlocks(s, Markers[k]))
  {
    MarkerValid(k);
    ParseBlock(s, Markers[k])
  }

  /** The parse with marker `m`, which has a block in `s`. */
  function ParseBlock(s: string, m: Marker): (r: Parsed)
    requires ValidMarker(m) && FirstBlock(s, m).Some?
    ensures r.content.Some?
    ensures r.content.value == Strip(Inner(s, m, FirstBlock(s, m).value))
    ensures r.instruction == Strip(RemoveBlocks(s, m))
  {
    Parsed(Some(Strip(Inner(s, m, FirstBlock(s, m).value))), Strip(RemoveBlocks(s, m)))
  }

  /** A closer that cannot start inside `c` or `post`. */
  predicate Avoids(t: string, c: char) {
    forall k :: 0 <= k < |t| ==> t[k] != c
  }

  /**
   * Building an instruction from a fenced block and a trailing request, and
   * parsing it, gives back the block's text and the request (both stripped),
   * when neither holds a backtick.
   */
  lemma FencedRoundTrip(c: string, post: string)
    requires Avoids(c, '`') && Avoids(post, '`')
    ensures ParseInstruction("```" + c + "```" + post) == Parsed(Some(Strip(c)), Strip(post))
  {
    var s := "```" + c + "```" + post;
    FencedKind(c, post);
    FencedRemoved(c, post);
    FencedInner(c, post);
    ParseOfKind(s, 0, c, post);
  }

  /** The parse, once the first kind, its block's text and the remainder are known. */
  lemma ParseOfKind(s: string, k: nat, inner: string, rest: string)
    requires FirstKind(s) == Some(k) && k < |Markers|
    requires Inner(s, Markers[k], FirstBlock(s, Markers[k]).value) == inner
    requires RemoveBlocks(s, Markers[k]) == rest
    ensures ParseInstruction(s) == Parsed(Some(Strip(inner)), Strip(rest))
  {
  }

  lemma FencedInner(c: string, post: string)
    requires Avoids(c, '`')
    ensures FirstBlock("```" + c + "```" + post, Markers[0]) == Some(Span(0, 3 + |c|))
    ensures Inner("```" + c + "```" + post, Markers[0], Span(0, 3 + |c|)) == c
  {
    FencedBlock(c, post);
    MiddleSlice("```", c, "```" + post);
    assert "```" + c + "```" + post == "```" + c + ("```" + post);
  }

  lemma MiddleSlice<T>(a: seq<T>, c: seq<T>, b: seq<T>)
    ensures (a + c + b)[|a|..|a| + |c|] == c
  {
  }

  lemma FencedKind(c: string, post: string)
    requires Avoids(c, '`')
    ensures FirstKind("```" + c + "```" + post) == Some(0)
    ensures FirstBlock("```" + c + "```" + post, Markers[0]) == Some(Span(0, 3 + |c|))
  {
    FencedBlock(c, post);
  }

  lemma FencedRemoved(c: string, post: string)
    requires Avoids(c, '`') && Avoids(post, '`')
    ensures RemoveBlocks("```" + c + "```" + post, Markers[0]) == post
  {
    var m := Markers[0];
    var s := "```" + c + "```" + post;
    var j := 3 + |c|;
    FencedBlock(c, post);
    assert s[j + 3..] == post;
    NoBlockWithout(post, m, '`');
    assert s[..0] + post == post;
  }

  lemma FencedBlock(c: string, post: string)
    requires Avoids(c, '`')
    ensures FirstBlock("```" + c + "```" + post, Markers[0]) == Some(Span(0, 3 + |c|))
  {
    var m := Markers[0];
    var s := "```" + c + "```" + post;
    assert OccursAt(s, m.open, 0);
    assert Find(s, m.open) == Some(0);
    var j := 3 + |c|;
    assert s[j..j + 3] == "```";
    assert OccursAt(s, m.close, j);
    forall i | 3 <= i < j ensures !OccursAt(s, m.close, i) {
      assert s[i] == c[i - 3];
      assert s[i..i + 3][0] == s[i];
    }
    assert FindFrom(s, m.close, 3) == Some(j);
  }

  /** A text without the closer's first character has no block. */
  lemma NoBlockWithout(t: string, m: Marker, c: char)
    requires ValidMarker(m) && m.close[0] == c && Avoids(t, c)
    ensures FirstBlock(t, m).None?
  {
    forall j | 0 <= j <= |t| - |m.close| ensures !OccursAt(t, m.close, j) {
      assert t[j..j + |m.close|][0] == t[j];
    }
  }

  // ---------------------------------------------------------------------------
  // Prompts and execution
  // ---------------------------------------------------------------------------

  /** The prompt an agent sends; its wording is fixed text around these parts. */
  datatype Prompt =
    | ReviewContent(content: string, instruction: string)
    | ReviewFramework(instruction: string)
    | StructureContent(content: string, instruction: string)
    | StructureTemplate(instruction: string)
    | Write(instruction: string)

  /** Content counts only when non-empty; otherwise the prompt carries the whole instruction. */
  function ReviewPrompt(instruction: string): (p: Prompt)
    ensures p.ReviewFramework? <==> ParseInstruction(instruction).content.GetOr("") == ""
    ensures p.ReviewFramework? ==> p.instruction == instruction
    ensures p.ReviewContent? ==> p == ReviewContent(ParseInstruction(instruction).content.value,
                                                    ParseInstruction(instruction).instruction)
  {
    var parsed := ParseInstruction(instruction);
    if parsed.content.Some? && parsed.content.value != "" then ReviewContent(parsed.content.value, parsed.instruction)
    else ReviewFramework(instruction)
  }

  function StructurePrompt(instruction: string): (p: Prompt)
    ensures p.StructureTemplate? <==> ParseInstruction(instruction).content.GetOr("") == ""
    ensures p.StructureTemplate? ==> p.instruction == instruction
    ensures p.StructureContent? ==> p == StructureContent(ParseInstruction(instruction).content.value,
                                                          ParseInstruction(instruction).instruction)
  {
    var parsed := ParseInstruction(instruction);
    if parsed.content.Some? && parsed.content.value != "" then StructureContent(parsed.content.value, parsed.instruction)
    else StructureTemplate(instruction)
  }

  /** `ReviewingAgent.execute`: the model's answer, unmodified, or the error text. */
  function Review(instruction: string, llm: Prompt -> Result<string>): (r: string)
    ensures llm(ReviewPrompt(instruction)).Ok? ==> r == llm(ReviewPrompt(instruction)).value
    ensures llm(ReviewPrompt(instruction)).Err? ==>
              r == "Error generating review: " + llm(ReviewPrompt(instruction)).error
  {
    match llm(ReviewPrompt(instruction))
    case Ok(answer) => answer
    case Err(e) => "Error generating review: " + e
  }

  /** `StructuralAgent.execute`: the cleaned answer, or the error text. */
  function Structure(instruction: string, llm: Prompt -> Result<string>): (r: string)
    ensures llm(StructurePrompt(instruction)).Ok? ==> r == CleanContent(llm(StructurePrompt(instruction)).value)
    ensures llm(StructurePrompt(instruction)).Err? ==>
              r == "Error structuring content: " + llm(StructurePrompt(instruction)).error
  {
    match llm(StructurePrompt(instruction))
    case Ok(answer) => CleanContent(answer)
    case Err(e) => "Error structuring content: " + e
  }

  /** `WritingAgent.execute`: the whole instruction goes into the prompt. */
  function WriteContent(instruction: string, llm: Prompt -> Result<string>): (r: string)
    ensures llm(Write(instruction)).Ok? ==> r == CleanContent(llm(Write(instruction)).value)
    ensures llm(Write(instruction)).Err? ==> r == "Error generating content: " + llm(Write(instruction)).error
  {
    match llm(Write(instruction))
    case Ok(answer) => CleanContent(answer)
    case Err(e) => "Error generating content: " + e
  }

  // ---------------------------------------------------------------------------
  // Cleaning the answer
  // ---------------------------------------------------------------------------

  /** The lead-in the answer may start with, if any. */
  function LeadIn(s: string): Option<string> {
    if StartsWith(s, "Here's") then Some("Here's")
    else if StartsWith(s, "Here is") then Some("Here is")
    else None
  }

  /**
   * `re.sub(r'^(Here\'s|Here is).*?:\s*', '', s)`: a lead-in, the rest of
   * its line up to the first colon, and the whitespace after it are removed;
   * without a colon on that line nothing changes.
   */
  function DropLeadIn(s: string): (r: string)
    ensures EndsWith(s, r)
    ensures LeadIn(s).None? ==> r == s
    ensures r != s ==> |r| == 0 || !IsSpace(r[0])
  {
    match LeadIn(s)
    case None => s
    case Some(p) =>
      match AfterColon(s[|p|..])
      case None => s
      case Some(t) =>
        SuffixOfSlice(s, |p|, t);
        t
  }

  /**
   * Where the lead-in ends: just after the first colon of the answer, when
   * no newline comes before it, and the whitespace after it goes too;
   * otherwise nothing is cut.
   */
  lemma DropLeadInCut(s: string)
    ensures (LeadIn(s).Some? && Find(s, ":").Some? && forall i :: 0 <= i < Find(s, ":").value ==> s[i] != '\n')
            ==> DropLeadIn(s) == LStrip(s[Find(s, ":").value + 1..])
    ensures (LeadIn(s).Some? && (Find(s, ":").None? || exists i :: 0 <= i < Find(s, ":").value && s[i] == '\n'))
            ==> DropLeadIn(s) == s
  {
    if LeadIn(s).Some? {
      var n := |LeadIn(s).value|;
      ColonPastLeadIn(s);
      var rest := s[n..];
      match Find(rest, ":")
      case None =>
      case Some(k) =>
        assert Find(s, ":") == Some(n + k);
        NewlineBeforeColon(s, n, k);
        assert rest[k + 1..] == s[n + k + 1..];
    }
  }

  /** The lead-ins hold no colon and no newline, so the first colon after one is the first colon of `s`. */
  lemma ColonPastLeadIn(s: string)
    requires LeadIn(s).Some?
    ensures var n := |LeadIn(s).value|;
            && n <= |s| && (forall j :: 0 <= j < n ==> s[j] != '\n')
            && (Find(s, ":").Some? <==> Find(s[n..], ":").Some?)
            && (Find(s, ":").Some? ==> Find(s, ":").value == n + Find(s[n..], ":").value)
  {
    var p := LeadIn(s).value;
    assert p == "Here's" || p == "Here is";
    assert s[..|p|] == p;
    forall j | 0 <= j < |p| ensures s[j] != ':' && s[j] != '\n' {
      assert s[j] == s[..|p|][j];
    }
    forall j | 0 <= j < |p| ensures !OccursAt(s, ":", j) {
      assert j + 1 <= |s| ==> s[j..j + 1][0] == s[j];
    }
    FindPastPrefix(s, ":", |p|);
  }

  lemma NewlineBeforeColon(s: string, n: nat, k: nat)
    requires n + k <= |s| && forall j :: 0 <= j < n ==> s[j] != '\n'
    ensures (forall i :: 0 <= i < k ==> s[n..][i] != '\n') <==> (forall i :: 0 <= i < n + k ==> s[i] != '\n')
  {
    if exists i :: 0 <= i < n + k && s[i] == '\n' {
      var i :| 0 <= i < n + k && s[i] == '\n';
      assert s[n..][i - n] == '\n';
    }
  }

  /**
   * The part of `.*?:\s*` after the lead-in: the text after the first colon
   * without its leading whitespace, when no newline comes before that colon.
   */
  function AfterColon(rest: string): (r: Option<string>)
    ensures r.Some? <==> Contains(rest, ":") && forall i :: 0 <= i < Find(rest, ":").value ==> rest[i] != '\n'
    ensures r.Some? ==> EndsWith(rest, r.value) && (|r.value| == 0 || !IsSpace(r.value[0]))
  {
    match Find(rest, ":")
    case None => None
    case Some(k) =>
      if exists i :: 0 <= i < k && rest[i] == '\n' then None
      else
        var t := LStrip(rest[k + 1..]);
        SuffixOfSlice(rest, k + 1, t);
        Some(t)
  }

  /** A suffix of a suffix of `s` is a suffix of `s`. */
  lemma SuffixOfSlice(s: string, n: nat, t: string)
    requires n <= |s| && EndsWith(s[n..], t)
    ensures EndsWith(s, t)
  {
    assert s[n..][|s| - n - |t|..] == s[|s| - |t|..];
  }

  const SignOffs: seq<string> := ["I hope this helps", "I hope this is helpful", "I hope this meets your needs"]
  const LetMeKnow: string := "Let me know if you need"

  /** A sign-off starts at `p` and runs to the end of `body`. */
  predicate SignOffAt(body: string, p: nat)
    requires p <= |body|
  {
    body[p..] in SignOffs
    || (StartsWith(body[p..], LetMeKnow) && forall k :: p <= k < |body| ==> body[k] != '\n')
  }

  /** The leftmost position at or after `p` where a sign-off starts. */
  function FirstSignOff(body: string, p: nat): (r: Option<nat>)
    requires p <= |body|
    ensures r.Some? ==> p <= r.value <= |body| && SignOffAt(body, r.value)
    ensures r.Some? ==> forall q :: p <= q < r.value ==> !SignOffAt(body, q)
    ensures r.None? ==> forall q :: p <= q <= |body| ==> !SignOffAt(body, q)
    decreases |body| - p
  {
    if SignOffAt(body, p) then Some(p)
    else if p == |body| then None
    else FirstSignOff(body, p + 1)
  }

  /** The text `$` can end at: all of `s`, or `s` without its final newline. */
  function Body(s: string): (b: string)
    ensures b == s || (EndsWith(s, "\n") && s == b + "\n")
  {
    if |s| > 0 && s[|s| - 1] == '\n' then s[..|s| - 1] else s
  }

  /**
   * `re.sub(r'(I hope this (helps|is helpful|meets your needs)|Let me know if you need.*?)$', '', s)`:
   * the leftmost sign-off ending the text (before a final newline, if any)
   * is removed; the final newline stays.
   */
  function DropSignOff(s: string): (r: string)
    ensures FirstSignOff(Body(s), 0).None? ==> r == s
    ensures FirstSignOff(Body(s), 0).Some? ==>
              r == Body(s)[..FirstSignOff(Body(s), 0).value] + s[|Body(s)|..]
  {
    var b := Body(s);
    match FirstSignOff(b, 0)
    case None => s
    case Some(p) => b[..p] + s[|b|..]
  }

  /**
   * A closing "I hope this helps" is dropped from a text in which no earlier
   * sign-off can start (no `I` or `L`).
   */
  lemma DropSignOffExample(x: string)
    requires forall k :: 0 <= k < |x| ==> x[k] != 'L' && x[k] != 'I'
    ensures DropSignOff(x + "I hope this helps") == x
  {
    var s := x + "I hope this helps";
    var b := Body(s);
    assert b == s;
    assert b[|x|..] == "I hope this helps";
    assert SignOffAt(b, |x|);
    forall q | 0 <= q < |x| ensures !SignOffAt(b, q) {
      assert b[q..][0] == x[q];
    }
    assert FirstSignOff(b, 0) == Some(|x|);
  }

  /** `re.sub(r'\n{3,}', '\n\n', s)`: every run of three or more newlines becomes two. */
  function Collapse(s: string): (r: string)
    ensures |r| <= |s|
    ensures |s| > 0 && s[0] != '\n' ==> |r| > 0 && r[0] == s[0]
    ensures |s| > 0 && s[|s| - 1] != '\n' ==> |r| > 0 && r[|r| - 1] == s[|s| - 1]
    ensures |s| == 0 <==> |r| == 0
    decreases |s|
  {
    if |s| == 0 then ""
    else if s[0] != '\n' then [s[0]] + Collapse(s[1..])
    else
      var n := NewlineRun(s);
      (if n >= 3 then "\n\n" else s[..n]) + Collapse(s[n..])
  }

  /** The length of the run of newlines `s` starts with. */
  function NewlineRun(s: string): (n: nat)
    ensures n <= |s|
    ensures forall k :: 0 <= k < n ==> s[k] == '\n'
    ensures n < |s| ==> s[n] != '\n'
    decreases |s|
  {
    if |s| == 0 || s[0] != '\n' then 0 else 1 + NewlineRun(s[1..])
  }

  /** No three newlines in a row. */
  predicate NoTriple(s: string) {
    forall i :: 0 <= i < |s| - 2 ==> !(s[i] == '\n' && s[i + 1] == '\n' && s[i + 2] == '\n')
  }

  /** After collapsing, no run of three newlines is left. */
  lemma {:induction false} CollapseNoTriple(s: string)
    ensures NoTriple(Collapse(s))
    decreases |s|
  {
    if |s| > 0 {
      if s[0] != '\n' {
        CollapseNoTriple(s[1..]);
        assert Collapse(s) == [s[0]] + Collapse(s[1..]);
        NoTripleCons(s[0], Collapse(s[1..]));
      } else {
        var n := NewlineRun(s);
        CollapseNoTriple(s[n..]);
        var head := if n >= 3 then "\n\n" else s[..n];
        assert Collapse(s) == head + Collapse(s[n..]);
        CollapseStartsPlain(s[n..]);
        NoTripleAfterShortRun(head, Collapse(s[n..]));
      }
    }
  }

  /** A collapsed text starts with what the text starts with, when that is not a newline. */
  lemma CollapseStartsPlain(s: string)
    requires |s| > 0 ==> s[0] != '\n'
    ensures |Collapse(s)| > 0 ==> Collapse(s)[0] != '\n'
  {
    if |s| > 0 {
      assert Collapse(s) == [s[0]] + Collapse(s[1..]);
    }
  }

  /** Putting a character other than a newline in front keeps a text free of triples. */
  lemma NoTripleCons(c: char, r: string)
    requires c != '\n' && NoTriple(r)
    ensures NoTriple([c] + r)
  {
    var t := [c] + r;
    forall i | 0 <= i < |t| - 2 ensures !(t[i] == '\n' && t[i + 1] == '\n' && t[i + 2] == '\n') {
      if i > 0 {
        assert t[i] == r[i - 1] && t[i + 1] == r[i] && t[i + 2] == r[i + 1];
      }
    }
  }

  /** At most two characters in front of a text that starts with no newline add no triple. */
  lemma NoTripleAfterShortRun(head: string, r: string)
    requires |head| <= 2 && NoTriple(r) && (|r| > 0 ==> r[0] != '\n')
    ensures NoTriple(head + r)
  {
    var t := head + r;
    forall i | 0 <= i < |t| - 2 ensures !(t[i] == '\n' && t[i + 1] == '\n' && t[i + 2] == '\n') {
      if i >= |head| {
        assert t[i] == r[i - |head|] && t[i + 1] == r[i - |head| + 1] && t[i + 2] == r[i - |head| + 2];
      } else {
        assert t[|head|] == r[0];
      }
    }
  }

  /** Text without a run of three newlines is left as it is. */
  lemma {:induction false} CollapseKeepsClean(s: string)
    requires NoTriple(s)
    ensures Collapse(s) == s
    decreases |s|
  {
    if |s| > 0 {
      var n := CollapseStep(s);
      NoTripleSuffix(s, n);
      CollapseKeepsClean(s[n..]);
      assert s == s[..n] + s[n..];
    }
  }

  /** One step of `Collapse` on clean text keeps its first character or its short newline run. */
  lemma CollapseStep(s: string) returns (n: nat)
    requires NoTriple(s) && |s| > 0
    ensures 0 < n <= |s| && Collapse(s) == s[..n] + Collapse(s[n..])
  {
    if s[0] != '\n' {
      n := 1;
      assert s[..1] == [s[0]];
    } else {
      n := NewlineRun(s);
      assert n < 3 by {
        assert |s| >= 3 ==> !(s[0] == '\n' && s[1] == '\n' && s[2] == '\n');
      }
    }
  }

  lemma NoTripleSuffix(s: string, k: nat)
    requires NoTriple(s) && k <= |s|
    ensures NoTriple(s[k..])
  {
    forall i | 0 <= i < |s[k..]| - 2
      ensures !(s[k..][i] == '\n' && s[k..][i + 1] == '\n' && s[k..][i + 2] == '\n')
    {
      assert s[k..][i] == s[k + i] && s[k..][i + 1] == s[k + i + 1] && s[k..][i + 2] == s[k + i + 2];
    }
  }

  /** Stripped, with no run of three newlines. */
  predicate Clean(s: string) {
    NoTriple(s) && (|s| > 0 ==> !IsSpace(s[0]) && !IsSpace(s[|s| - 1]))
  }

  /** `_clean_content` (identical in the structural and writing agents). */
  function CleanContent(s: string): (r: string)
    ensures Clean(r)
  {
    var t := Strip(DropSignOff(DropLeadIn(s)));
    CollapseNoTriple(t);
    assert |t| > 0 ==> t[0] != '\n' && t[|t| - 1] != '\n';
    Collapse(t)
  }

  /** Cleaning an already clean text changes nothing. */
  lemma CleanIdempotent(s: string)
    requires Clean(s) && LeadIn(s).None? && FirstSignOff(Body(s), 0).None?
    ensures CleanContent(s) == s
  {
    StripClean(s);
    CollapseKeepsClean(s);
  }

  lemma StripClean(s: string)
    requires |s| > 0 ==> !IsSpace(s[0]) && !IsSpace(s[|s| - 1])
    ensures Strip(s) == s
  {
  }
}
