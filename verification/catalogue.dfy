/**
 * The catalogue the file-index caches build from the bucket listing: the item
 * id carried by a metadata blob's name, and the index record built for a
 * vector blob, in the three versions of `services/llm/cache.py`,
 * `services/document/cache/index_cache.py` and `services/utils/cache.py`.
 */
module Catalogue {
  import opened Wrappers
  import opened PyText
  import opened Items
  import Seqs

  // ---------------------------------------------------------------------------
  // Blob names
  // ---------------------------------------------------------------------------

  /**
   * The characters of the ids the application generates (Notion ids and
   * UUIDs): ASCII letters, digits and `-`.
   */
  predicate IdChar(c: char) {
    ('a' <= c <= 'z') || ('A' <= c <= 'Z') || IsDigit(c) || c == '-'
  }

  predicate IsId(s: string) {
    forall k :: 0 <= k < |s| ==> IdChar(s[k])
  }

  /** `s.replace('.pkl', '')`. */
  function DropPkl(s: string): string {
    ReplaceAll(s, ".pkl", "")
  }

  /** `name.split(marker)[1].replace('.pkl', '')`, or `None` where indexing raises. */
  function IdAfter(name: string, marker: string): (r: Option<string>)
    requires |marker| > 0
    ensures r.Some? <==> Contains(name, marker)
  {
    match SplitSecond(name, marker)
    case Some(s) => Some(DropPkl(s))
    case None => None
  }

  /**
   * The id of a metadata blob in `services/llm/cache.py` and
   * `services/document/cache/index_cache.py`: after `metadata_db_` if present,
   * else after `metadata_doc_`, else after `metadata_`; no id (the blob is
   * skipped) when none occurs.
   */
  function TieredMetadataId(name: string): (r: Option<string>)
    ensures Contains(name, "metadata_db_") ==> r == IdAfter(name, "metadata_db_")
    ensures !Contains(name, "metadata_db_") && Contains(name, "metadata_doc_") ==> r == IdAfter(name, "metadata_doc_")
    ensures !Contains(name, "metadata_db_") && !Contains(name, "metadata_doc_") ==> r == IdAfter(name, "metadata_")
  {
    if Contains(name, "metadata_db_") then IdAfter(name, "metadata_db_")
    else if Contains(name, "metadata_doc_") then IdAfter(name, "metadata_doc_")
    else IdAfter(name, "metadata_")
  }

  /** The key of a metadata blob in `services/utils/cache.py`: whatever follows `metadata_`. */
  function PlainMetadataId(name: string): (r: Option<string>)
    ensures r.Some? <==> Contains(name, "metadata_")
  {
    IdAfter(name, "metadata_")
  }

  /** Where a marker that ends in `_` occurs in `head + t`, with no `_` in `t`, it occurs in `head`. */
  lemma OccursOnlyInHead(head: string, t: string, m: string, j: int)
    requires |m| > 0 && m[|m| - 1] == '_'
    requires forall k :: 0 <= k < |t| ==> t[k] != '_'
    ensures OccursAt(head + t, m, j) ==> OccursAt(head, m, j)
  {
    var s := head + t;
    if OccursAt(s, m, j) {
      var e := j + |m| - 1;
      assert s[e] == '_' by { assert s[j..j + |m|][|m| - 1] == s[e]; }
      assert forall i :: |head| <= i < |s| ==> s[i] == t[i - |head|];
      assert e < |head|;
      assert s[j..j + |m|] == head[j..j + |m|];
    }
  }

  /** A string with exactly one occurrence of the separator splits into the text around it. */
  lemma SplitAtSole(s: string, m: string, k: nat)
    requires |m| > 0 && OccursAt(s, m, k)
    requires forall j :: OccursAt(s, m, j) ==> j == k
    ensures Split(s, m) == [s[..k], s[k + |m|..]]
  {
    assert Find(s, m) == Some(k);
    var rest := s[k + |m|..];
    if Contains(rest, m) {
      var j :| 0 <= j <= |rest| - |m| && OccursAt(rest, m, j);
      OccursInSuffix(s, m, k + |m|, j);
      assert false;
    }
  }

  /** An id followed by `.pkl` loses exactly the `.pkl`. */
  lemma DropPklOfId(pre: string, id: string)
    requires forall k :: 0 <= k < |pre| ==> pre[k] != '.'
    requires IsId(id)
    ensures DropPkl(pre + id + ".pkl") == pre + id
  {
    var s := pre + id + ".pkl";
    var n := |pre + id|;
    assert OccursAt(s, ".pkl", n);
    forall j | 0 <= j < n
      ensures !OccursAt(s, ".pkl", j)
    {
      assert s[j] != '.';
      if j + 4 <= |s| {
        assert s[j..j + 4][0] == s[j];
      }
    }
    assert Find(s, ".pkl") == Some(n);
    assert s[n + 4..] == "";
    assert s[..n] == pre + id;
  }

  lemma IdHasNoUnderscore(t: string, id: string)
    requires IsId(id) && forall k :: 0 <= k < |t| ==> t[k] != '_'
    ensures forall k :: 0 <= k < |id + t| ==> (id + t)[k] != '_'
  {
    forall k | 0 <= k < |id + t| ensures (id + t)[k] != '_' {
      if k < |id| {
        assert (id + t)[k] == id[k];
      } else {
        assert (id + t)[k] == t[k - |id|];
      }
    }
  }

  /**
   * The id behind a blob `<head><id>.pkl` whose head holds the marker once,
   * at `k`, when the marker ends in `_`: the rest of the head after the marker,
   * followed by the id.
   */
  lemma IdAfterMarker(head: string, m: string, k: nat, id: string)
    requires |m| > 0 && m[|m| - 1] == '_'
    requires OccursAt(head, m, k)
    requires forall j :: OccursAt(head, m, j) ==> j == k
    requires forall i :: k + |m| <= i < |head| ==> head[i] != '.'
    requires IsId(id)
    ensures IdAfter(head + id + ".pkl", m) == Some(head[k + |m|..] + id)
  {
    var t := id + ".pkl";
    var s := head + t;
    assert s == head + id + ".pkl";
    IdHasNoUnderscore(".pkl", id);
    forall j | OccursAt(s, m, j) ensures j == k {
      OccursOnlyInHead(head, t, m, j);
    }
    assert OccursAt(s, m, k) by { assert s[k..k + |m|] == head[k..k + |m|]; }
    SplitAtSole(s, m, k);
    var pre := head[k + |m|..];
    assert s[k + |m|..] == pre + id + ".pkl";
    DropPklOfId(pre, id);
  }

  /** The name `_process_metadata_blob` expects for the metadata of a database. */
  function DatabaseMetadataBlob(id: string): string { "cache/metadata_db_" + id + ".pkl" }
  /** The name the PDF ingestion writes the metadata of a document under. */
  function DocumentMetadataBlob(id: string): string { "cache/metadata_doc_" + id + ".pkl" }
  /** The name the Notion ingestion and `_update_item_metadata` use. */
  function MetadataBlob(id: string): string { "cache/metadata_" + id + ".pkl" }

  lemma HeadDb(j: int)
    ensures OccursAt("cache/metadata_db_", "metadata_db_", j) <==> j == 6
  {
    var s := "cache/metadata_db_";
    if 0 <= j && j + 12 <= |s| {
      assert s[j..j + 12][0] == s[j];
      assert j == 0 || j == 1 || j == 2 || j == 3 || j == 4 || j == 5 || j == 6;
    }
  }

  lemma HeadDoc(j: int)
    ensures OccursAt("cache/metadata_doc_", "metadata_doc_", j) <==> j == 6
  {
    var s := "cache/metadata_doc_";
    if 0 <= j && j + 13 <= |s| {
      assert s[j..j + 13][0] == s[j];
      assert j == 0 || j == 1 || j == 2 || j == 3 || j == 4 || j == 5 || j == 6;
    }
  }

  lemma HeadPlain(head: string, j: int)
    requires head == "cache/metadata_" || head == "cache/metadata_doc_"
    ensures OccursAt(head, "metadata_", j) <==> j == 6
  {
    if j == 6 {
      assert head[6..15] == "metadata_";
    } else if 0 <= j && j + 9 <= |head| {
      assert head[j..j + 9][0] == head[j];
      assert head[j] != 'm' by {
        if j < 6 {
          assert head[j] == "cache/"[j];
        } else {
          assert head[j] == head[7..][j - 7];
        }
      }
    }
  }

  lemma HeadNoDb(head: string, j: int)
    requires head == "cache/metadata_doc_" || head == "cache/metadata_"
    ensures !OccursAt(head, "metadata_db_", j)
  {
    if 0 <= j && j + 12 <= |head| {
      assert head[j..j + 12][0] == head[j];
      assert head[j..j + 12][9] == head[j + 9];
      assert head[j..j + 12][10] == head[j + 10];
      if head == "cache/metadata_doc_" {
        assert j == 0 || j == 1 || j == 2 || j == 3 || j == 4 || j == 5 || j == 6 || j == 7;
      } else {
        assert j == 0 || j == 1 || j == 2 || j == 3;
      }
    }
  }

  lemma HeadNoDoc(j: int)
    ensures !OccursAt("cache/metadata_", "metadata_doc_", j)
  {
    var head := "cache/metadata_";
    if 0 <= j && j + 13 <= |head| {
      assert head[j..j + 13][10] == head[j + 10];
      assert j == 0 || j == 1 || j == 2;
    }
  }

  /** No `metadata_db_` in a document or plain metadata blob name. */
  lemma NoDbMarker(head: string, id: string)
    requires head == "cache/metadata_doc_" || head == "cache/metadata_"
    requires IsId(id)
    ensures !Contains(head + id + ".pkl", "metadata_db_")
  {
    var t := id + ".pkl";
    IdHasNoUnderscore(".pkl", id);
    assert head + id + ".pkl" == head + t;
    forall j ensures !OccursAt(head + t, "metadata_db_", j) {
      HeadNoDb(head, j);
      OccursOnlyInHead(head, t, "metadata_db_", j);
    }
  }

  lemma NoDocMarker(id: string)
    requires IsId(id)
    ensures !Contains(MetadataBlob(id), "metadata_doc_")
  {
    var head := "cache/metadata_";
    var t := id + ".pkl";
    IdHasNoUnderscore(".pkl", id);
    assert MetadataBlob(id) == head + t;
    forall j ensures !OccursAt(head + t, "metadata_doc_", j) {
      HeadNoDoc(j);
      OccursOnlyInHead(head, t, "metadata_doc_", j);
    }
  }

  /** The tiered extraction recovers the id of a database metadata blob. */
  lemma DatabaseIdRoundTrip(id: string)
    requires IsId(id)
    ensures TieredMetadataId(DatabaseMetadataBlob(id)) == Some(id)
  {
    var head := "cache/metadata_db_";
    forall j | OccursAt(head, "metadata_db_", j) ensures j == 6 { HeadDb(j); }
    HeadDb(6);
    IdAfterMarker(head, "metadata_db_", 6, id);
    assert |head| == 18;
    assert head[18..] + id == id;
    var name := DatabaseMetadataBlob(id);
    assert name == head + id + ".pkl";
    assert IdAfter(name, "metadata_db_") == Some(id);
  }

  /** The tiered extraction recovers the id of a document metadata blob. */
  lemma DocumentIdRoundTrip(id: string)
    requires IsId(id)
    ensures TieredMetadataId(DocumentMetadataBlob(id)) == Some(id)
  {
    var head := "cache/metadata_doc_";
    NoDbMarker(head, id);
    forall j | OccursAt(head, "metadata_doc_", j) ensures j == 6 { HeadDoc(j); }
    HeadDoc(6);
    IdAfterMarker(head, "metadata_doc_", 6, id);
    assert |head| == 19;
    assert head[19..] + id == id;
    var name := DocumentMetadataBlob(id);
    assert name == head + id + ".pkl";
    assert IdAfter(name, "metadata_doc_") == Some(id);
  }

  /** Both extractions recover the id of a plain metadata blob. */
  lemma PlainIdRoundTrip(id: string)
    requires IsId(id)
    ensures TieredMetadataId(MetadataBlob(id)) == Some(id)
    ensures PlainMetadataId(MetadataBlob(id)) == Some(id)
  {
    var head := "cache/metadata_";
    NoDbMarker(head, id);
    NoDocMarker(id);
    forall j | OccursAt(head, "metadata_", j) ensures j == 6 { HeadPlain(head, j); }
    HeadPlain(head, 6);
    IdAfterMarker(head, "metadata_", 6, id);
    assert |head| == 15;
    assert head[15..] + id == id;
    var name := MetadataBlob(id);
    assert name == head + id + ".pkl";
    assert IdAfter(name, "metadata_") == Some(id);
  }

  /**
   * The folder module keys a PDF document by `doc_<id>`, while the other two
   * caches (and the record's own `id`) say `<id>`.
   */
  lemma PlainMetadataIdOfDocument(id: string)
    requires IsId(id)
    ensures PlainMetadataId(DocumentMetadataBlob(id)) == Some("doc_" + id)
    ensures TieredMetadataId(DocumentMetadataBlob(id)) != PlainMetadataId(DocumentMetadataBlob(id))
  {
    var name := DocumentMetadataBlob(id);
    assert PlainMetadataId(name) == Some("doc_" + id) by {
      var head := "cache/metadata_doc_";
      forall j | OccursAt(head, "metadata_", j) ensures j == 6 { HeadPlain(head, j); }
      HeadPlain(head, 6);
      IdAfterMarker(head, "metadata_", 6, id);
      assert head[15..] == "doc_";
      assert name == head + id + ".pkl";
    }
    DocumentIdRoundTrip(id);
    assert Some(id) != Some("doc_" + id) by {
      assert |"doc_" + id| != |id|;
    }
  }

  // ---------------------------------------------------------------------------
  // Vector blobs
  // ---------------------------------------------------------------------------

  /** The three kinds of vector index the ingestion writes. */
  datatype Source = Page | Database | Document

  function Marker(src: Source): string {
    match src
    case Page => "vector_index_"
    case Database => "vector_database_"
    case Document => "vector_document_"
  }

  /** The `type` of an index of that kind before any `format` override. */
  function KindName(src: Source): string {
    match src
    case Page => "page"
    case Database => "database"
    case Document => "document"
  }

  /** The blob name an index of kind `src` for item `id` is stored under. */
  function VectorBlob(src: Source, id: string): string {
    "cache/" + Marker(src) + id + ".pkl"
  }

  /** One entry of the index list the file-index caches hold; `folder` is absent in two versions. */
  datatype IndexRecord = IndexRecord(
    id: string, kind: string, title: string, path: string,
    folder: Option<string>, themes: seq<string>, keywords: seq<string>)

  /** The metadata dict by item id. */
  type MetaById = map<string, Meta>

  /** `auto_metadata.get(key, [])[:n]`. */
  function Capped(xs: Option<seq<string>>, n: nat): (r: seq<string>)
    ensures |r| <= n
    ensures xs.None? ==> r == []
    ensures xs.Some? ==> r == xs.value[..if |xs.value| < n then |xs.value| else n]
  {
    match xs
    case None => []
    case Some(v) => if |v| < n then v else v[..n]
  }

  /** The first three themes and five keywords of an item's `auto_metadata`, none without one. */
  function Themes(metas: MetaById, id: string): seq<string> {
    if id in metas && metas[id].auto.Some? then Capped(metas[id].auto.value.themes, 3) else []
  }

  function Keywords(metas: MetaById, id: string): seq<string> {
    if id in metas && metas[id].auto.Some? then Capped(metas[id].auto.value.keywords, 5) else []
  }

  /** The stored title, or the default the caller gives. */
  function TitleOr(metas: MetaById, id: string, default: string): string {
    if id in metas && metas[id].title.Some? then metas[id].title.value else default
  }

  /** `f"{word}: {id[:8]}..."`. */
  function DefaultTitle(word: string, id: string): string {
    word + ": " + Take(id, 8) + "..."
  }

  /**
   * The vector-blob loop body of `services/llm/cache.py`: only `.pkl` blobs
   * whose name holds one of the three markers give a record; a document takes
   * its `type` from the metadata `format` when there is one.
   */
  function LlmVectorRecord(name: string, metas: MetaById): (r: Option<IndexRecord>)
    ensures r.Some? <==> EndsWith(name, ".pkl")
                         && (Contains(name, "vector_index_") || Contains(name, "vector_database_")
                             || Contains(name, "vector_document_"))
    ensures r.Some? ==> r.value.path == name && r.value.folder.None?
    ensures r.Some? ==> |r.value.themes| <= 3 && |r.value.keywords| <= 5
  {
    if !EndsWith(name, ".pkl") then None
    else if Contains(name, "vector_index_") then
      var id := IdAfter(name, "vector_index_").value;
      Some(IndexRecord(id, "page", TitleOr(metas, id, DefaultTitle("Page", id)), name,
                       None, Themes(metas, id), Keywords(metas, id)))
    else if Contains(name, "vector_database_") then
      var id := IdAfter(name, "vector_database_").value;
      Some(IndexRecord(id, "database", TitleOr(metas, id, DefaultTitle("Database", id)), name,
                       None, Themes(metas, id), Keywords(metas, id)))
    else if Contains(name, "vector_document_") then
      var id := IdAfter(name, "vector_document_").value;
      var kind := if id in metas && metas[id].format.Some? then metas[id].format.value else "document";
      Some(IndexRecord(id, kind, TitleOr(metas, id, DefaultTitle("Document", id)), name,
                       None, Themes(metas, id), Keywords(metas, id)))
    else None
  }

  /** The kind and id a vector blob name encodes, tried in the fixed marker order. */
  function Classify(name: string): (r: Option<(Source, string)>)
    ensures r.Some? ==> EndsWith(name, ".pkl") && Contains(name, Marker(r.value.0))
                        && Some(r.value.1) == IdAfter(name, Marker(r.value.0))
    ensures r.Some? && r.value.0 != Page ==> !Contains(name, Marker(Page))
    ensures r.Some? && r.value.0 == Document ==> !Contains(name, Marker(Database))
  {
    if !EndsWith(name, ".pkl") then None
    else if Contains(name, "vector_index_") then Some((Page, IdAfter(name, "vector_index_").value))
    else if Contains(name, "vector_database_") then Some((Database, IdAfter(name, "vector_database_").value))
    else if Contains(name, "vector_document_") then Some((Document, IdAfter(name, "vector_document_").value))
    else None
  }

  /**
   * `_process_vector_blob` of `services/document/cache/index_cache.py`: the
   * default title is the capitalised kind, and only a document's `type` is
   * overridden by the metadata `format`.
   */
  function IndexCacheVectorRecord(name: string, metas: MetaById): (r: Option<IndexRecord>)
    ensures r.Some? <==> Classify(name).Some?
    ensures r.Some? ==> r.value.id == Classify(name).value.1 && r.value.path == name
    ensures r.Some? && Classify(name).value.0 != Document ==> r.value.kind == KindName(Classify(name).value.0)
  {
    match Classify(name)
    case None => None
    case Some((src, id)) =>
      var kind := if src == Document && id in metas && metas[id].format.Some? then metas[id].format.value
                  else KindName(src);
      Some(IndexRecord(id, kind, TitleOr(metas, id, DefaultTitle(Capitalize(KindName(src)), id)), name,
                       None, Themes(metas, id), Keywords(metas, id)))
  }

  /**
   * `_process_vector_blob` of `services/utils/cache.py`: only page indexes give
   * a record, which also carries the item's folder (`""` when absent).
   */
  function UtilsVectorRecord(name: string, metas: MetaById): (r: Option<IndexRecord>)
    ensures r.Some? <==> EndsWith(name, ".pkl") && Contains(name, "vector_index_")
    ensures r.Some? ==> r.value.kind == "page" && r.value.path == name
    ensures r.Some? ==> r.value.folder == Some(if r.value.id in metas then metas[r.value.id].folder.GetOr("") else "")
  {
    if !EndsWith(name, ".pkl") then None
    else if Contains(name, "vector_index_") then
      var id := IdAfter(name, "vector_index_").value;
      var folder := if id in metas then metas[id].folder.GetOr("") else "";
      Some(IndexRecord(id, "page", TitleOr(metas, id, DefaultTitle(Capitalize("page"), id)), name,
                       Some(folder), Themes(metas, id), Keywords(metas, id)))
    else None
  }

  /** `capitalize()` of a lower-case word upper-cases its first letter only. */
  lemma CapitalizeLowerWord(s: string)
    requires |s| > 0 && forall k :: 0 <= k < |s| ==> !IsUpper(s[k])
    ensures Capitalize(s) == [UpperChar(s[0])] + s[1..]
  {
    var t := s[1..];
    assert forall k :: 0 <= k < |t| ==> Lower(t)[k] == t[k];
  }

  lemma CapitalizedPage()
    ensures Capitalize("page") == "Page"
  {
    CapitalizeLowerWord("page");
    assert [UpperChar('p')] + "page"[1..] == "Page";
  }

  lemma CapitalizedDatabase()
    ensures Capitalize("database") == "Database"
  {
    CapitalizeLowerWord("database");
    assert [UpperChar('d')] + "database"[1..] == "Database";
  }

  lemma CapitalizedDocument()
    ensures Capitalize("document") == "Document"
  {
    CapitalizeLowerWord("document");
    assert [UpperChar('d')] + "document"[1..] == "Document";
  }

  /**
   * The two ways of writing the vector-blob step agree: every blob gives the
   * same record, or none, in `services/llm/cache.py` and in
   * `services/document/cache/index_cache.py`.
   */
  lemma VectorRecordVersionsAgree(name: string, metas: MetaById)
    ensures LlmVectorRecord(name, metas) == IndexCacheVectorRecord(name, metas)
  {
    match Classify(name)
    case None =>
    case Some((src, id)) =>
      match src
      case Page => PageRecordsAgree(name, metas, id);
      case Database => DatabaseRecordsAgree(name, metas, id);
      case Document => DocumentRecordsAgree(name, metas, id);
  }

  lemma PageRecordsAgree(name: string, metas: MetaById, id: string)
    requires Classify(name) == Some((Page, id))
    ensures LlmVectorRecord(name, metas) == IndexCacheVectorRecord(name, metas)
  {
    CapitalizedPage();
  }

  lemma DatabaseRecordsAgree(name: string, metas: MetaById, id: string)
    requires Classify(name) == Some((Database, id))
    ensures LlmVectorRecord(name, metas) == IndexCacheVectorRecord(name, metas)
  {
    CapitalizedDatabase();
  }

  lemma DocumentRecordsAgree(name: string, metas: MetaById, id: string)
    requires Classify(name) == Some((Document, id))
    ensures LlmVectorRecord(name, metas) == IndexCacheVectorRecord(name, metas)
  {
    CapitalizedDocument();
  }

  /**
   * The folder module's version gives the page records of the other two,
   * with the item's folder added.
   */
  lemma UtilsRecordIsPageRecord(name: string, metas: MetaById)
    requires UtilsVectorRecord(name, metas).Some?
    ensures LlmVectorRecord(name, metas) == Some(UtilsVectorRecord(name, metas).value.(folder := None))
  {
    CapitalizedPage();
  }

  lemma EndsWithSuffix(a: string, b: string)
    ensures EndsWith(a + b, b)
  {
    assert (a + b)[|a + b| - |b|..] == b;
  }

  /** In a vector blob head, `v` occurs only at the start of the marker. */
  lemma VectorHeadChars(src: Source, i: int)
    ensures var head := "cache/" + Marker(src);
      0 <= i < |head| && head[i] == 'v' ==> i == 6
  {
    var head := "cache/" + Marker(src);
    if 0 <= i < |head| {
      assert i == 0 || i == 1 || i == 2 || i == 3 || i == 4 || i == 5 || i == 6 || i == 7 || i == 8 || i == 9
          || i == 10 || i == 11 || i == 12 || i == 13 || i == 14 || i == 15 || i == 16 || i == 17 || i == 18
          || i == 19 || i == 20 || i == 21;
    }
  }

  /** The markers occur in a vector blob head only as its own marker, at 6. */
  lemma VectorHeadMarkers(src: Source, other: Source, j: int)
    ensures OccursAt("cache/" + Marker(src), Marker(other), j) <==> j == 6 && other == src
  {
    var head := "cache/" + Marker(src);
    var m := Marker(other);
    assert head[6..] == Marker(src);
    if OccursAt(head, m, j) {
      assert head[j] == 'v' by { assert head[j..j + |m|][0] == head[j]; }
      VectorHeadChars(src, j);
      MarkerKey(src);
      MarkerKey(other);
      assert m[7] == head[13] && m[8] == head[14] by {
        assert head[j..j + |m|][7] == head[j + 7];
        assert head[j..j + |m|][8] == head[j + 8];
      }
    }
    if j == 6 && other == src {
      assert head[6..6 + |m|] == m;
    }
  }

  /** The characters after `vector_` tell the markers apart. */
  lemma MarkerKey(src: Source)
    ensures |Marker(src)| > 8 && Marker(src)[0] == 'v'
    ensures Marker(src)[7] == (if src == Page then 'i' else 'd')
    ensures Marker(src)[8] == match src case Page => 'n' case Database => 'a' case Document => 'o'
  {
  }

  /** A vector blob name contains another kind's marker exactly when it is that kind. */
  lemma VectorBlobMarkers(src: Source, other: Source, id: string)
    requires IsId(id)
    ensures Contains(VectorBlob(src, id), Marker(other)) <==> other == src
  {
    var head := "cache/" + Marker(src);
    var t := id + ".pkl";
    var name := VectorBlob(src, id);
    assert name == head + t;
    IdHasNoUnderscore(".pkl", id);
    forall j ensures OccursAt(name, Marker(other), j) ==> OccursAt(head, Marker(other), j) {
      OccursOnlyInHead(head, t, Marker(other), j);
    }
    VectorHeadMarkers(src, other, 6);
    forall j ensures OccursAt(head, Marker(other), j) <==> j == 6 && other == src {
      VectorHeadMarkers(src, other, j);
    }
    if other == src {
      assert OccursAt(name, Marker(src), 6) by {
        assert name[6..6 + |Marker(src)|] == head[6..];
      }
    }
  }

  /** Round trip: the kind and id come back out of the name a vector index is stored under. */
  lemma ClassifyRoundTrip(src: Source, id: string)
    requires IsId(id)
    ensures Classify(VectorBlob(src, id)) == Some((src, id))
  {
    var name := VectorBlob(src, id);
    var head := "cache/" + Marker(src);
    EndsWithSuffix(head + id, ".pkl");
    assert name == head + id + ".pkl";
    VectorBlobMarkers(src, Page, id);
    VectorBlobMarkers(src, Database, id);
    VectorBlobMarkers(src, Document, id);
    forall j | OccursAt(head, Marker(src), j) ensures j == 6 { VectorHeadMarkers(src, src, j); }
    VectorHeadMarkers(src, src, 6);
    IdAfterMarker(head, Marker(src), 6, id);
    assert |head| == 6 + |Marker(src)|;
    assert head[6 + |Marker(src)|..] + id == id;
    assert IdAfter(name, Marker(src)) == Some(id);
  }

  /**
   * The record of a stored vector index names the item it was stored for, its
   * kind (a document's format when its metadata has one), and the stored
   * title or the default one.
   */
  lemma VectorRecordOfBlob(src: Source, id: string, metas: MetaById)
    requires IsId(id)
    ensures var r := LlmVectorRecord(VectorBlob(src, id), metas);
      r.Some? && r.value.id == id && r.value.path == VectorBlob(src, id)
      && r.value.kind == (if src == Document && id in metas && metas[id].format.Some?
                          then metas[id].format.value else KindName(src))
      && r.value.title == TitleOr(metas, id, DefaultTitle(Capitalize(KindName(src)), id))
  {
    ClassifyRoundTrip(src, id);
    VectorRecordVersionsAgree(VectorBlob(src, id), metas);
  }

  // ---------------------------------------------------------------------------
  // Loading the catalogue
  // ---------------------------------------------------------------------------

  /**
   * The metadata loop: each metadata blob whose name yields an id and whose
   * download succeeds (`fetched` holds the blobs that download) files its
   * record under that id; a later blob for the same id replaces an earlier one.
   */
  function CollectMetadata(names: seq<string>, fetched: map<string, Meta>): (r: MetaById)
    ensures forall id :: id in r ==>
              exists i :: Seqs.LastFiled(names, TieredMetadataId, fetched, i, id) && r[id] == fetched[names[i]]
    ensures forall i :: 0 <= i < |names| && names[i] in fetched && TieredMetadataId(names[i]).Some?
              ==> TieredMetadataId(names[i]).value in r
  {
    Seqs.LastWins(names, TieredMetadataId, fetched)
  }

  /** The record a vector blob gives under the metadata `metas`. */
  function RecordFor(metas: MetaById): string -> Option<IndexRecord> {
    name => IndexCacheVectorRecord(name, metas)
  }

  /**
   * The vector loop of `_load_indexes`: one record per vector blob that gives
   * one, in listing order.
   */
  function LoadIndexes(vectorNames: seq<string>, metas: MetaById): (r: seq<IndexRecord>)
    ensures |r| <= |vectorNames|
    ensures forall i :: 0 <= i < |r| ==> r[i].path in vectorNames && Classify(r[i].path).Some?
    ensures forall i :: 0 <= i < |vectorNames| && Classify(vectorNames[i]).Some?
              ==> IndexCacheVectorRecord(vectorNames[i], metas).value in r
  {
    var r := Seqs.Choose(vectorNames, RecordFor(metas));
    forall i | 0 <= i < |r| ensures r[i].path in vectorNames && Classify(r[i].path).Some? {
      var j :| 0 <= j < |vectorNames| && RecordFor(metas)(vectorNames[j]) == Some(r[i]);
    }
    r
  }

  /**
   * The records of two runs of blobs are those of the first run followed by
   * those of the second, and a single blob gives its own record when its
   * name classifies: each record sits at its blob's place in the listing.
   */
  lemma LoadIndexesInOrder(a: seq<string>, b: seq<string>, name: string, metas: MetaById)
    ensures LoadIndexes(a + b, metas) == LoadIndexes(a, metas) + LoadIndexes(b, metas)
    ensures Classify(name).Some? ==> LoadIndexes([name], metas) == [IndexCacheVectorRecord(name, metas).value]
    ensures Classify(name).None? ==> LoadIndexes([name], metas) == []
  {
    Seqs.ChooseAppend(a, b, RecordFor(metas));
    Seqs.ChooseOne(name, RecordFor(metas));
  }

  /** The catalogue lists each stored vector index once per blob, under its own id. */
  lemma LoadedIndexOfBlob(vectorNames: seq<string>, metas: MetaById, src: Source, id: string)
    requires IsId(id) && VectorBlob(src, id) in vectorNames
    ensures exists i :: 0 <= i < |LoadIndexes(vectorNames, metas)|
              && LoadIndexes(vectorNames, metas)[i].id == id
              && LoadIndexes(vectorNames, metas)[i].path == VectorBlob(src, id)
  {
    ClassifyRoundTrip(src, id);
    var k :| 0 <= k < |vectorNames| && vectorNames[k] == VectorBlob(src, id);
    var rec := IndexCacheVectorRecord(vectorNames[k], metas).value;
    var r := LoadIndexes(vectorNames, metas);
    var i :| 0 <= i < |r| && r[i] == rec;
  }
}
