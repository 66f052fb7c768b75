/**
 * The pure parts of `services/notion/utils.py`: the combined text of a page's
 * documents (capped for metadata analysis), the title heuristic over those
 * documents, and the retry policy of a blob download. The Notion API and the
 * bucket are oracles.
 */
module NotionUtils {
  import opened Wrappers
  import opened PyText
  import Seqs

  /**
   * A loaded document: its `text` attribute if it has one, what
   * `get_content()` returns if it has that method, and its metadata `title`.
   */
  datatype Doc = Doc(text: Option<string>, getContent: Option<string>, metadataTitle: Option<string>)

  // ---------------------------------------------------------------------------
  // Combined text
  // ---------------------------------------------------------------------------

  const MaxText: nat := 10000

  /** What one document adds to the combined text. */
  function Piece(d: Doc): string {
    if d.text.Some? then d.text.value + "\n\n"
    else if d.getContent.Some? then d.getContent.value + "\n\n"
    else ""
  }

  /** The loop's `combined_text`, before the cap. */
  function Combined(docs: seq<Doc>): string
    decreases |docs|
  {
    if |docs| == 0 then "" else Piece(docs[0]) + Combined(docs[1..])
  }

  /** The combined text of two runs of documents is their texts, one after the other. */
  lemma {:induction false} CombinedAppend(a: seq<Doc>, b: seq<Doc>)
    ensures Combined(a + b) == Combined(a) + Combined(b)
    decreases |a|
  {
    if |a| == 0 {
      assert a + b == b;
    } else {
      assert (a + b)[0] == a[0];
      assert (a + b)[1..] == a[1..] + b;
      CombinedAppend(a[1..], b);
    }
  }

  /** Each document with text contributes that text and a blank line. */
  lemma {:induction false} CombinedLength(docs: seq<Doc>)
    requires forall i :: 0 <= i < |docs| ==> docs[i].text.Some?
    ensures |Combined(docs)| == TextLength(docs) + 2 * |docs|
    decreases |docs|
  {
    if |docs| > 0 {
      CombinedLength(docs[1..]);
    }
  }

  function TextLength(docs: seq<Doc>): nat
    requires forall i :: 0 <= i < |docs| ==> docs[i].text.Some?
    decreases |docs|
  {
    if |docs| == 0 then 0 else |docs[0].text.value| + TextLength(docs[1..])
  }

  /** `extract_notion_content_as_text`: the combined text, cut to 10000 characters plus `...`. */
  function ContentAsText(docs: seq<Doc>): (r: string)
    ensures |r| <= MaxText + 3
    ensures |Combined(docs)| <= MaxText ==> r == Combined(docs)
    ensures |Combined(docs)| > MaxText ==>
              |r| == MaxText + 3 && StartsWith(Combined(docs), r[..MaxText]) && EndsWith(r, "...")
  {
    var c := Combined(docs);
    if |c| > MaxText then c[..MaxText] + "..." else c
  }

  // ---------------------------------------------------------------------------
  // Title heuristic
  // ---------------------------------------------------------------------------

  /** The first non-empty metadata title among the documents. */
  function MetadataTitle(docs: seq<Doc>): (r: Option<string>)
    ensures r.Some? ==> r.value != "" && exists d :: d in docs && d.metadataTitle == Some(r.value)
    ensures r.None? <==> forall d :: d in docs ==> d.metadataTitle.None? || d.metadataTitle.value == ""
    decreases |docs|
  {
    if |docs| == 0 then None
    else if docs[0].metadataTitle.Some? && docs[0].metadataTitle.value != "" then docs[0].metadataTitle
    else
      var r := MetadataTitle(docs[1..]);
      assert forall d :: d in docs <==> d == docs[0] || d in docs[1..];
      r
  }

  /** The text a document is read through: `text`, else `get_content()`, else `""`. */
  function ContentOf(d: Doc): string {
    if d.text.Some? then d.text.value
    else if d.getContent.Some? then d.getContent.value
    else ""
  }

  /**
   * `content.strip().split('\n')[0].strip()`: the stripped content up to its
   * first newline, stripped again.
   */
  function FirstLine(content: string): (line: string)
    ensures !Contains(line, "\n") || line == ""
    ensures |line| > 0 ==> !IsSpace(line[0]) && !IsSpace(line[|line| - 1])
    ensures Find(Strip(content), "\n").None? ==> line == Strip(content)
    ensures Find(Strip(content), "\n").Some? ==>
              line == Strip(Strip(content)[..Find(Strip(content), "\n").value])
  {
    var first := Split(Strip(content), "\n")[0];
    SplitHead(Strip(content), "\n");
    StripInside(first, "\n");
    StripIdempotent(content);
    Strip(first)
  }

  /** Stripping a string free of `p` leaves it free of `p`. */
  lemma StripInside(s: string, p: string)
    requires |p| > 0 && !Contains(s, p)
    ensures !Contains(Strip(s), p)
  {
    var l := LStrip(s);
    var t := RStrip(l);
    NotInSuffix(s, p, |s| - |l|);
    NotInPrefix(l, p, |t|);
  }

  lemma NotInSuffix(s: string, p: string, n: nat)
    requires n <= |s| && !Contains(s, p)
    ensures !Contains(s[n..], p)
  {
    forall i | 0 <= i <= |s[n..]| - |p| ensures !OccursAt(s[n..], p, i) {
      if OccursAt(s[n..], p, i) {
        OccursInSuffix(s, p, n, i);
      }
    }
  }

  lemma NotInPrefix(s: string, p: string, n: nat)
    requires n <= |s| && !Contains(s, p)
    ensures !Contains(s[..n], p)
  {
    forall i | 0 <= i <= |s[..n]| - |p| ensures !OccursAt(s[..n], p, i) {
      if OccursAt(s[..n], p, i) {
        OccursInPrefix(s, p, n, i);
      }
    }
  }

  /** A line that reads as a title: one to 99 characters. */
  predicate TitleLike(line: string) {
    0 < |line| < 100
  }

  /** `docs[i]` has content and its first line reads as a title. */
  predicate TitleAt(docs: seq<Doc>, i: nat)
    requires i < |docs|
  {
    ContentOf(docs[i]) != "" && TitleLike(FirstLine(ContentOf(docs[i])))
  }

  /**
   * The first line of the first document whose content has a title-like
   * first line; `None` when no document has one.
   */
  function ContentTitle(docs: seq<Doc>): (r: Option<string>)
    ensures r.Some? ==> exists i :: 0 <= i < |docs| && TitleAt(docs, i) &&
                          r.value == FirstLine(ContentOf(docs[i])) &&
                          forall j :: 0 <= j < i ==> !TitleAt(docs, j)
    ensures r.None? <==> forall i :: 0 <= i < |docs| ==> !TitleAt(docs, i)
  {
    var ok := (i: nat) => i < |docs| && TitleAt(docs, i);
    var first := Seqs.FirstFrom(0, |docs|, ok);
    FirstTitle(docs, ok, first);
    if first.None? then None else Some(FirstLine(ContentOf(docs[first.value])))
  }

  /** What the search over the document indexes finds, in terms of `TitleAt`. */
  lemma FirstTitle(docs: seq<Doc>, ok: nat -> bool, first: Option<nat>)
    requires forall i: nat :: ok(i) == (i < |docs| && TitleAt(docs, i))
    requires first == Seqs.FirstFrom(0, |docs|, ok)
    ensures first.Some? ==> first.value < |docs| && TitleAt(docs, first.value)
    ensures first.Some? ==> forall j :: 0 <= j < first.value ==> !TitleAt(docs, j)
    ensures first.None? <==> forall i :: 0 <= i < |docs| ==> !TitleAt(docs, i)
  {
    if first.Some? {
      assert ok(first.value);
      forall j | 0 <= j < first.value ensures !TitleAt(docs, j) {
        assert !ok(j);
      }
    } else {
      forall i | 0 <= i < |docs| ensures !TitleAt(docs, i) {
        assert !ok(i);
      }
    }
  }

  /** A content title is a line of one to 99 characters with no newline and no outer whitespace. */
  lemma ContentTitleShape(docs: seq<Doc>)
    requires ContentTitle(docs).Some?
    ensures TitleLike(ContentTitle(docs).value)
    ensures !Contains(ContentTitle(docs).value, "\n")
    ensures !IsSpace(ContentTitle(docs).value[0])
  {
    var i :| 0 <= i < |docs| && TitleAt(docs, i) && ContentTitle(docs).value == FirstLine(ContentOf(docs[i]));
  }

  /** A document with empty content never supplies the title, as its first line is empty. */
  lemma EmptyContentNoTitle(docs: seq<Doc>, i: nat)
    requires i < |docs| && ContentOf(docs[i]) == ""
    ensures !TitleLike(FirstLine(ContentOf(docs[i])))
  {
    FirstLineOfEmpty();
  }

  /** An empty content has an empty first line. */
  lemma FirstLineOfEmpty()
    ensures FirstLine("") == ""
  {
    assert Strip("") == "";
    assert Split("", "\n")[0] == "" by {
      var parts := Split("", "\n");
      assert Join(parts, "\n") == "";
      assert |parts| == 1;
    }
  }

  /** `Notion Page <first 8 characters of the id>...`. */
  function FallbackTitle(pageId: string): string {
    "Notion Page " + Take(pageId, 8) + "..."
  }

  /**
   * `extract_notion_page_title`: a metadata title, else a content first
   * line, else what the page's title property joins to (`apiTitle`, `None`
   * when the API yields none or fails), else the fallback. Never empty.
   */
  function PageTitle(pageId: string, docs: seq<Doc>, apiTitle: Option<string>): (r: string)
    ensures r != ""
    ensures MetadataTitle(docs).Some? ==> r == MetadataTitle(docs).value
    ensures MetadataTitle(docs).None? && ContentTitle(docs).Some? ==> r == ContentTitle(docs).value
    ensures MetadataTitle(docs).None? && ContentTitle(docs).None? && apiTitle.Some? && apiTitle.value != "" ==>
              r == apiTitle.value
    ensures MetadataTitle(docs).None? && ContentTitle(docs).None? && (apiTitle.None? || apiTitle.value == "") ==>
              r == FallbackTitle(pageId)
  {
    match MetadataTitle(docs)
    case Some(t) => t
    case None =>
      match ContentTitle(docs)
      case Some(t) => t
      case None =>
        if apiTitle.Some? && apiTitle.value != "" then apiTitle.value else FallbackTitle(pageId)
  }

  // ---------------------------------------------------------------------------
  // Download retries
  // ---------------------------------------------------------------------------

  const MaxRetries: nat := 3

  /** What one download attempt does: load the blob, find it missing, or fail otherwise. */
  datatype Attempt<T> = Loaded(value: T) | Missing(error: string) | Failed(error: string)

  datatype Download<T> = Downloaded(value: T, attempts: nat) | Raised(error: string, attempts: nat)

  /**
   * `download_blob_to_memory`: up to three attempts; a missing blob is
   * raised at once, any other failure is retried until the last attempt,
   * whose error is raised. `attempt(i)` is what try `i` does, its error
   * the message of the exception it raised.
   */
  method DownloadBlob<T>(attempt: nat -> Attempt<T>) returns (r: Download<T>)
    ensures 1 <= r.attempts <= MaxRetries
    ensures forall j :: 0 <= j < r.attempts - 1 ==> attempt(j).Failed?
    ensures r.Downloaded? <==> attempt(r.attempts - 1).Loaded?
    ensures r.Downloaded? ==> r.value == attempt(r.attempts - 1).value
    ensures r.Raised? ==> !attempt(r.attempts - 1).Loaded? && r.error == attempt(r.attempts - 1).error
    ensures r.Raised? && attempt(r.attempts - 1).Failed? ==> r.attempts == MaxRetries
  {
    var i := 0;
    while true
      invariant 0 <= i < MaxRetries
      invariant forall j :: 0 <= j < i ==> attempt(j).Failed?
      decreases MaxRetries - i
    {
      match attempt(i)
      case Loaded(v) =>
        return Downloaded(v, i + 1);
      case Missing(e) =>
        return Raised(e, i + 1);
      case Failed(e) =>
        if i < MaxRetries - 1 {
          i := i + 1;
        } else {
          return Raised(e, i + 1);
        }
    }
  }
}
