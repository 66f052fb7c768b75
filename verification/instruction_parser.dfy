/**
 * `analyze_prompt_requirements` of `services/llm/agents/instruction_parser.py`:
 * the model is asked whether a prompt carries a word-count or a context
 * requirement, and its stripped reply is read line by line for the
 * `WORD_COUNT:` and `CONTEXT:` markers. The model is an oracle.
 */
module InstructionParser {
  import opened Wrappers
  import opened PyText

  const WordCountMarker: string := "WORD_COUNT:"
  const ContextMarker: string := "CONTEXT:"

  /** The result dict: its optional `word_count_instruction` and `context_instruction`. */
  datatype Requirements = Requirements(wordCount: Option<string>, context: Option<string>)

  /** The position of the first line that contains `marker`. */
  function FirstLineWith(lines: seq<string>, marker: string): (r: Option<nat>)
    ensures r.Some? ==> r.value < |lines| && Contains(lines[r.value], marker)
    ensures r.Some? ==> forall j :: 0 <= j < r.value ==> !Contains(lines[j], marker)
    ensures r.None? <==> forall j :: 0 <= j < |lines| ==> !Contains(lines[j], marker)
    decreases |lines|
  {
    if |lines| == 0 then None
    else if Contains(lines[0], marker) then Some(0)
    else
      match FirstLineWith(lines[1..], marker)
      case None => None
      case Some(i) => Some(i + 1)
  }

  /**
   * A marker without a newline that occurs in a text occurs within one of
   * its lines.
   */
  lemma {:induction false} MarkerOnSomeLine(parts: seq<string>, marker: string)
    requires |parts| >= 1
    requires !Contains(marker, "\n")
    requires Contains(Join(parts, "\n"), marker)
    ensures exists k :: 0 <= k < |parts| && Contains(parts[k], marker)
    decreases |parts|
  {
    if |parts| > 1 {
      var x := parts[0];
      var rest := Join(parts[1..], "\n");
      var s := Join(parts, "\n");
      assert s == x + "\n" + rest;
      var i :| 0 <= i <= |s| - |marker| && OccursAt(s, marker, i);
      if i + |marker| <= |x| {
        assert x[i..i + |marker|] == s[i..i + |marker|];
        assert OccursAt(x, marker, i);
      } else if i > |x| {
        var j := i - |x| - 1;
        assert rest[j..j + |marker|] == s[i..i + |marker|];
        assert OccursAt(rest, marker, j);
        MarkerOnSomeLine(parts[1..], marker);
        var k :| 0 <= k < |parts[1..]| && Contains(parts[1..][k], marker);
        assert parts[k + 1] == parts[1..][k];
      } else {
        var d := |x| - i;
        assert marker[d] == s[|x|] == '\n';
        assert OccursAt(marker, "\n", d);
        assert false;
      }
    }
  }

  lemma MarkerLineFound(response: string, marker: string)
    requires !Contains(marker, "\n")
    ensures Contains(response, marker) ==> FirstLineWith(Split(response, "\n"), marker).Some?
  {
    if Contains(response, marker) {
      MarkerOnSomeLine(Split(response, "\n"), marker);
    }
  }

  /**
   * The stripped text after the marker on the first line holding it
   * (`line.split(marker)[1].strip()`); `None` when no line holds it.
   */
  function MarkerTail(response: string, marker: string): (r: Option<string>)
    requires |marker| > 0 && !Contains(marker, "\n")
    ensures r.Some? <==> Contains(response, marker)
    ensures r.Some? ==> var lines := Split(response, "\n");
              FirstLineWith(lines, marker).Some? &&
              r.value == Strip(SplitSecond(lines[FirstLineWith(lines, marker).value], marker).value)
  {
    var lines := Split(response, "\n");
    MarkerLineFound(response, marker);
    match FirstLineWith(lines, marker)
    case None => None
    case Some(i) =>
      LineInText(lines, "\n", i, marker);
      Some(Strip(SplitSecond(lines[i], marker).value))
  }

  /** A marker found on a line is in the text. */
  lemma {:induction false} LineInText(parts: seq<string>, sep: string, k: nat, marker: string)
    requires k < |parts| && Contains(parts[k], marker)
    ensures Contains(Join(parts, sep), marker)
    decreases |parts|
  {
    if |parts| > 1 {
      var whole := Join(parts, sep);
      var rest := Join(parts[1..], sep);
      assert whole == parts[0] + sep + rest;
      if k == 0 {
        assert whole[..|parts[0]|] == parts[0];
        ContainsInPrefix(whole, marker, |parts[0]|);
      } else {
        assert parts[1..][k - 1] == parts[k];
        LineInText(parts[1..], sep, k - 1, marker);
        assert whole[|parts[0]| + |sep|..] == rest;
        ContainsInSuffix(whole, marker, |parts[0]| + |sep|);
      }
    }
  }

  /** The text after `WORD_COUNT:` on its first line. */
  function WordCountTail(response: string): (r: Option<string>)
    ensures r.Some? <==> Contains(response, WordCountMarker)
    ensures r.Some? ==> var lines := Split(response, "\n");
              FirstLineWith(lines, WordCountMarker).Some? &&
              r.value == Strip(SplitSecond(lines[FirstLineWith(lines, WordCountMarker).value], WordCountMarker).value)
  {
    MarkersHaveNoNewline();
    MarkerTail(response, WordCountMarker)
  }

  /** The text after `CONTEXT:` on its first line. */
  function ContextTail(response: string): (r: Option<string>)
    ensures r.Some? <==> Contains(response, ContextMarker)
    ensures r.Some? ==> var lines := Split(response, "\n");
              FirstLineWith(lines, ContextMarker).Some? &&
              r.value == Strip(SplitSecond(lines[FirstLineWith(lines, ContextMarker).value], ContextMarker).value)
  {
    MarkersHaveNoNewline();
    MarkerTail(response, ContextMarker)
  }

  function WordCountInstruction(count: string): string {
    "Ensure the answer is exactly " + count + " words long."
  }

  function ContextInstruction(context: string): string {
    "Ensure the answer preserves this context: " + context
  }

  lemma MarkersHaveNoNewline()
    ensures !Contains(WordCountMarker, "\n") && !Contains(ContextMarker, "\n")
  {
    NoCharNoContains(WordCountMarker, '\n');
    NoCharNoContains(ContextMarker, '\n');
  }

  /**
   * Reading the stripped reply: a word-count instruction only when the text
   * after the first `WORD_COUNT:` line's marker is all digits, a context
   * instruction whenever a line holds `CONTEXT:`.
   */
  function Parse(response: string): (r: Requirements)
    ensures r.wordCount.Some? <==>
              Contains(response, WordCountMarker) && IsDigits(WordCountTail(response).value)
    ensures r.wordCount.Some? ==> r.wordCount.value == WordCountInstruction(WordCountTail(response).value)
    ensures r.context.Some? <==> Contains(response, ContextMarker)
    ensures r.context.Some? ==> r.context.value == ContextInstruction(ContextTail(response).value)
    ensures !Contains(response, WordCountMarker) && !Contains(response, ContextMarker) ==> r == Requirements(None, None)
  {
    var count := WordCountTail(response);
    var context := ContextTail(response);
    Requirements(
      if count.Some? && IsDigits(count.value) then Some(WordCountInstruction(count.value)) else None,
      if context.Some? then Some(ContextInstruction(context.value)) else None)
  }

  /**
   * `analyze_prompt_requirements(prompt)`: `detect` is the model's reply to
   * the detection prompt for `prompt`; a failing call gives the empty dict.
   */
  function Analyze(prompt: string, detect: string -> Result<string>): (r: Requirements)
    ensures detect(prompt).Err? ==> r == Requirements(None, None)
    ensures detect(prompt).Ok? ==> r == Parse(Strip(detect(prompt).value))
  {
    match detect(prompt)
    case Err(_) => Requirements(None, None)
    case Ok(text) => Parse(Strip(text))
  }

  /** A one-line reply `WORD_COUNT: n` yields the instruction for exactly `n` words. */
  lemma WordCountReply(n: nat)
    ensures Parse("WORD_COUNT: " + NatToString(n)).wordCount
         == Some(WordCountInstruction(NatToString(n)))
  {
    var d := NatToString(n);
    var line := "WORD_COUNT: " + d;
    var tail := " " + d;
    assert forall k :: 0 <= k < |line| ==> line[k] != '\n' by {
      assert forall k :: 0 <= k < |d| ==> IsDigit(d[k]);
      forall k | 0 <= k < |line| ensures line[k] != '\n' {
        if k >= 12 { assert line[k] == d[k - 12]; }
      }
    }
    NoCharNoContains(line, '\n');
    assert Split(line, "\n") == [line];
    assert OccursAt(line, WordCountMarker, 0);
    assert line == WordCountMarker + tail;
    assert forall k :: 0 <= k < |tail| ==> tail[k] != 'W' by {
      forall k | 0 <= k < |tail| ensures tail[k] != 'W' {
        if k >= 1 { assert tail[k] == d[k - 1]; assert IsDigit(d[k - 1]); }
      }
    }
    LacksFirstChar(tail, WordCountMarker, 'W');
    MarkersHaveNoNewline();
    SplitAtPrefix(line, WordCountMarker, tail);
    StripLeadingSpace(d);
  }

  lemma NoCharNoContains(s: string, c: char)
    requires forall k :: 0 <= k < |s| ==> s[k] != c
    ensures !Contains(s, [c])
  {
    LacksFirstChar(s, [c], c);
  }

  /** A text that lacks the first character of `p` does not contain `p`. */
  lemma LacksFirstChar(s: string, p: string, c: char)
    requires |p| > 0 && p[0] == c
    requires forall k :: 0 <= k < |s| ==> s[k] != c
    ensures !Contains(s, p)
  {
    forall i | 0 <= i <= |s| - |p| ensures !OccursAt(s, p, i) {
      assert s[i..i + |p|][0] == s[i];
    }
  }

  /** Splitting `p + t` on `p`, when `t` does not contain `p`, gives `["", t]`. */
  lemma SplitAtPrefix(s: string, p: string, t: string)
    requires |p| > 0 && s == p + t && !Contains(t, p)
    ensures Split(s, p) == ["", t]
  {
    assert OccursAt(s, p, 0);
    assert s[|p|..] == t;
    assert s[..0] == "";
  }

  lemma StripLeadingSpace(d: string)
    requires IsDigits(d)
    ensures Strip(" " + d) == d
  {
    var s := " " + d;
    assert s[1..] == d;
    assert !IsSpace(d[0]);
    assert LStrip(s) == d;
    assert !IsSpace(d[|d| - 1]);
    assert RStrip(d) == d;
  }
}
